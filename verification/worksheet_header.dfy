/** `parseWorksheetHeader`, src/components/WorksheetParser.tsx:132-168: the
    store, DC and date facts of a worksheet, read line by line. Each line is
    looked at for one marker only, in the order `Store Number:`, `DC#:`,
    `Date:`; when that marker's pattern matches, its fields are overwritten,
    so the last matching line of each kind decides them. */
module WorksheetHeader {
  import opened Wrappers
  import opened Text
  import opened HeaderPatterns

  /** The header record; every field starts out empty. */
  datatype HeaderInfo = HeaderInfo(
    storeNumber: string, location: string, orderNumber: string,
    dcNumber: string, dcName: string,
    date: string, time: string)

  const Blank: HeaderInfo := HeaderInfo("", "", "", "", "", "", "")

  /** One iteration of the loop over lines. A line holding `Store Number:` can
      only set the store fields, one holding `DC#:` but not `Store Number:`
      only the DC fields, and one holding `Date:` but neither of the others
      only the date fields; a line whose marker's pattern does not match, or
      that holds no marker, changes nothing. */
  function HeaderStep(h: HeaderInfo, line: string): (r: HeaderInfo)
    ensures Contains(line, StoreMarker) ==>
      r.dcNumber == h.dcNumber && r.dcName == h.dcName && r.date == h.date && r.time == h.time
    ensures Contains(line, StoreMarker) && MatchStore(line).None? ==> r == h
    ensures !Contains(line, StoreMarker) && Contains(line, DcMarker) ==>
      && r.storeNumber == h.storeNumber && r.location == h.location && r.orderNumber == h.orderNumber
      && r.date == h.date && r.time == h.time
    ensures !Contains(line, StoreMarker) && Contains(line, DcMarker) && MatchDc(line).None? ==> r == h
    ensures !Contains(line, StoreMarker) && !Contains(line, DcMarker) ==>
      && r.storeNumber == h.storeNumber && r.location == h.location && r.orderNumber == h.orderNumber
      && r.dcNumber == h.dcNumber && r.dcName == h.dcName
    ensures !Contains(line, StoreMarker) && !Contains(line, DcMarker) && Contains(line, DateMarker) && MatchDate(line).None? ==> r == h
    ensures !Contains(line, StoreMarker) && !Contains(line, DcMarker) && !Contains(line, DateMarker) ==> r == h
    ensures IsTrimmed(h.location) ==> IsTrimmed(r.location)
  {
    if Contains(line, StoreMarker) then
      match MatchStore(line)
      case None => h
      case Some(c) => h.(storeNumber := c.storeNumber, location := Trim(c.location), orderNumber := c.orderNumber)
    else if Contains(line, DcMarker) then
      match MatchDc(line)
      case None => h
      case Some(c) => h.(dcNumber := c.dcNumber, dcName := c.dcName)
    else if Contains(line, DateMarker) then
      match MatchDate(line)
      case None => h
      case Some(c) => h.(date := c.date, time := c.time)
    else
      h
  }

  /** The loop over `lines`, first line first. */
  function HeaderFold(h: HeaderInfo, lines: seq<string>): HeaderInfo {
    if |lines| == 0 then h else HeaderStep(HeaderFold(h, lines[..|lines| - 1]), lines[|lines| - 1])
  }

  /** `parseWorksheetHeader(text)`: the header facts of the lines of `text`.
      The location is always trimmed. */
  function ParseWorksheetHeader(text: string): (h: HeaderInfo)
    ensures IsTrimmed(h.location)
  {
    HeaderFoldTrimmed(Blank, Split(text, '\n'));
    HeaderFold(Blank, Split(text, '\n'))
  }

  lemma {:induction false} HeaderFoldTrimmed(h: HeaderInfo, lines: seq<string>)
    requires IsTrimmed(h.location)
    ensures IsTrimmed(HeaderFold(h, lines).location)
  {
    if |lines| > 0 {
      HeaderFoldTrimmed(h, lines[..|lines| - 1]);
    }
  }

  // ---------------------------------------------------------------------------
  // The header as the last report of each kind.

  /** What a line reports about the store, the DC and the date: the groups of
      the pattern the line is checked against, when it matches. */
  function StoreReport(line: string): (r: Option<StoreCaptures>)
    ensures r.Some? ==> |r.value.storeNumber| >= 1
  {
    if Contains(line, StoreMarker) then MatchStore(line) else None
  }

  function DcReport(line: string): (r: Option<DcCaptures>)
    ensures r.Some? ==> |r.value.dcNumber| >= 1
  {
    if !Contains(line, StoreMarker) && Contains(line, DcMarker) then MatchDc(line) else None
  }

  function DateReport(line: string): (r: Option<DateCaptures>)
    ensures r.Some? ==> |r.value.date| >= 1
  {
    if !Contains(line, StoreMarker) && !Contains(line, DcMarker) && Contains(line, DateMarker) then MatchDate(line) else None
  }

  /** The report of the last line that makes one. */
  function LastReport<X>(lines: seq<string>, report: string -> Option<X>): (r: Option<X>)
    ensures r.None? <==> forall k | 0 <= k < |lines| :: report(lines[k]).None?
    ensures r.Some? ==> exists k ::
      && 0 <= k < |lines| && report(lines[k]) == r
      && forall j | k < j < |lines| :: report(lines[j]).None?
  {
    if |lines| == 0 then None
    else
      var last := |lines| - 1;
      var x := report(lines[last]);
      if x.Some? then x
      else
        var r := LastReport(lines[..last], report);
        LastReportLift(lines, report, r);
        r
  }

  /** A report found among all lines but the last, when the last one reports
      nothing, is the last report of all of them. */
  lemma LastReportLift<X>(lines: seq<string>, report: string -> Option<X>, r: Option<X>)
    requires |lines| > 0 && report(lines[|lines| - 1]).None?
    requires var init := lines[..|lines| - 1];
      && (r.None? <==> forall k | 0 <= k < |init| :: report(init[k]).None?)
      && (r.Some? ==> exists k ::
        && 0 <= k < |init| && report(init[k]) == r
        && forall j | k < j < |init| :: report(init[j]).None?)
    ensures r.None? <==> forall k | 0 <= k < |lines| :: report(lines[k]).None?
    ensures r.Some? ==> exists k ::
      && 0 <= k < |lines| && report(lines[k]) == r
      && forall j | k < j < |lines| :: report(lines[j]).None?
  {
    var init := lines[..|lines| - 1];
    PrefixAt(lines, |lines| - 1);
    NoneLift(lines, report);
    if r.Some? {
      var k :| && 0 <= k < |init| && report(init[k]) == r
               && forall j | k < j < |init| :: report(init[j]).None?;
      assert init[k] == lines[k];
      forall j | k < j < |lines| ensures report(lines[j]).None? {
        if j < |init| {
          assert init[j] == lines[j];
        }
      }
    }
  }

  lemma NoneLift<X>(lines: seq<string>, report: string -> Option<X>)
    requires |lines| > 0 && report(lines[|lines| - 1]).None?
    ensures var init := lines[..|lines| - 1];
      (forall k | 0 <= k < |init| :: report(init[k]).None?) <==>
      (forall k | 0 <= k < |lines| :: report(lines[k]).None?)
  {
    PrefixAt(lines, |lines| - 1);
  }

  lemma PrefixAt<T>(s: seq<T>, n: nat)
    requires n <= |s|
    ensures forall k | 0 <= k < n :: s[..n][k] == s[k]
  {
  }

  /** `h` with each group of fields replaced by a report, where there is one. */
  function Overlay(h: HeaderInfo, s: Option<StoreCaptures>, d: Option<DcCaptures>, t: Option<DateCaptures>): HeaderInfo {
    HeaderInfo(
      if s.Some? then s.value.storeNumber else h.storeNumber,
      if s.Some? then Trim(s.value.location) else h.location,
      if s.Some? then s.value.orderNumber else h.orderNumber,
      if d.Some? then d.value.dcNumber else h.dcNumber,
      if d.Some? then d.value.dcName else h.dcName,
      if t.Some? then t.value.date else h.date,
      if t.Some? then t.value.time else h.time)
  }

  /** The header as an independent reading of the lines: each group of fields
      comes from the last line that reports it, or keeps its value in `h`. */
  function Reported(h: HeaderInfo, lines: seq<string>): HeaderInfo {
    Overlay(h, LastReport(lines, StoreReport), LastReport(lines, DcReport), LastReport(lines, DateReport))
  }

  /** A loop iteration overlays what the line reports. */
  lemma StepIsOverlay(h: HeaderInfo, line: string)
    ensures HeaderStep(h, line) == Overlay(h, StoreReport(line), DcReport(line), DateReport(line))
  {
  }

  /** The later of two reports. */
  function Latest<X>(older: Option<X>, newer: Option<X>): Option<X> {
    if newer.Some? then newer else older
  }

  lemma OverlayTwice(h: HeaderInfo, s0: Option<StoreCaptures>, d0: Option<DcCaptures>, t0: Option<DateCaptures>,
                     s: Option<StoreCaptures>, d: Option<DcCaptures>, t: Option<DateCaptures>)
    ensures Overlay(Overlay(h, s0, d0, t0), s, d, t) == Overlay(h, Latest(s0, s), Latest(d0, d), Latest(t0, t))
  {
  }

  lemma LastReportSnoc<X>(lines: seq<string>, report: string -> Option<X>)
    requires |lines| > 0
    ensures LastReport(lines, report) == Latest(LastReport(lines[..|lines| - 1], report), report(lines[|lines| - 1]))
  {
  }

  /** The loop computes the independent reading: every field group is set by
      the last line that reports it. */
  lemma {:induction false} HeaderFoldReported(h: HeaderInfo, lines: seq<string>)
    ensures HeaderFold(h, lines) == Reported(h, lines)
  {
    if |lines| > 0 {
      var last := |lines| - 1;
      var prefix := lines[..last];
      HeaderFoldReported(h, prefix);
      StepIsOverlay(Reported(h, prefix), lines[last]);
      OverlayTwice(h, LastReport(prefix, StoreReport), LastReport(prefix, DcReport), LastReport(prefix, DateReport),
        StoreReport(lines[last]), DcReport(lines[last]), DateReport(lines[last]));
      LastReportSnoc(lines, StoreReport);
      LastReportSnoc(lines, DcReport);
      LastReportSnoc(lines, DateReport);
    }
  }

  /** `parseWorksheetHeader` reports, for each kind of line, the groups of the
      last line of that kind whose pattern matches, and empty fields when
      there is none. */
  lemma ParseHeaderReported(text: string)
    ensures ParseWorksheetHeader(text) == Reported(Blank, Split(text, '\n'))
  {
    HeaderFoldReported(Blank, Split(text, '\n'));
  }

  /** Each group of fields stays empty exactly when no line reports it: the
      numbers a matching line reports are never empty. */
  lemma HeaderDefaults(text: string)
    ensures var h := ParseWorksheetHeader(text); var lines := Split(text, '\n');
      && (h.storeNumber == "" <==> forall k | 0 <= k < |lines| :: StoreReport(lines[k]).None?)
      && (h.dcNumber == "" <==> forall k | 0 <= k < |lines| :: DcReport(lines[k]).None?)
      && (h.date == "" <==> forall k | 0 <= k < |lines| :: DateReport(lines[k]).None?)
  {
    ParseHeaderReported(text);
  }

  /** Text with no marker at all leaves every field empty. */
  lemma NoMarkersBlank(text: string)
    requires forall k | 0 <= k < |Split(text, '\n')| ::
      var line := Split(text, '\n')[k];
      !Contains(line, StoreMarker) && !Contains(line, DcMarker) && !Contains(line, DateMarker)
    ensures ParseWorksheetHeader(text) == Blank
  {
    ParseHeaderReported(text);
    var lines := Split(text, '\n');
    forall k | 0 <= k < |lines|
      ensures StoreReport(lines[k]).None? && DcReport(lines[k]).None? && DateReport(lines[k]).None?
    {
    }
  }

  /** The report of a line no later line overrides is the last report. */
  lemma LastReportAt<X>(lines: seq<string>, report: string -> Option<X>, k: nat)
    requires k < |lines| && report(lines[k]).Some?
    requires forall j | k < j < |lines| :: report(lines[j]).None?
    ensures LastReport(lines, report) == report(lines[k])
  {
    var r := LastReport(lines, report);
    var k' :| 0 <= k' < |lines| && report(lines[k']) == r && forall j | k' < j < |lines| :: report(lines[j]).None?;
    assert k' == k;
  }

  /** Later lines overwrite earlier ones: the store fields are those of the
      last line whose store pattern matches, with the location trimmed. */
  lemma LastStoreLineWins(text: string, k: nat, c: StoreCaptures)
    requires var lines := Split(text, '\n');
      && k < |lines| && StoreReport(lines[k]) == Some(c)
      && forall j | k < j < |lines| :: StoreReport(lines[j]).None?
    ensures var h := ParseWorksheetHeader(text);
      h.storeNumber == c.storeNumber && h.location == Trim(c.location) && h.orderNumber == c.orderNumber
  {
    ParseHeaderReported(text);
    LastReportAt(Split(text, '\n'), StoreReport, k);
  }

  /** The DC fields are those of the last line whose DC pattern matches. */
  lemma LastDcLineWins(text: string, k: nat, c: DcCaptures)
    requires var lines := Split(text, '\n');
      && k < |lines| && DcReport(lines[k]) == Some(c)
      && forall j | k < j < |lines| :: DcReport(lines[j]).None?
    ensures var h := ParseWorksheetHeader(text);
      h.dcNumber == c.dcNumber && h.dcName == c.dcName
  {
    ParseHeaderReported(text);
    LastReportAt(Split(text, '\n'), DcReport, k);
  }

  /** The date fields are those of the last line whose date pattern matches. */
  lemma LastDateLineWins(text: string, k: nat, c: DateCaptures)
    requires var lines := Split(text, '\n');
      && k < |lines| && DateReport(lines[k]) == Some(c)
      && forall j | k < j < |lines| :: DateReport(lines[j]).None?
    ensures var h := ParseWorksheetHeader(text);
      h.date == c.date && h.time == c.time
  {
    ParseHeaderReported(text);
    LastReportAt(Split(text, '\n'), DateReport, k);
  }
}
