/** Worked examples of the header patterns and of `parseWorksheetHeader`'s
    loop step. */
module HeaderScenarios {
  import opened Wrappers
  import opened Text
  import opened Backtrack
  import opened HeaderPatterns
  import opened WorksheetHeader

  // ---------------------------------------------------------------------------
  // A DC line whose name ends in spaces: `DC#: 12 ACME  `.

  const DcSample: string := "DC#: 12 ACME  "

  lemma DcSampleRuns()
    ensures StartsAt(DcSample, 0, DcMarker)
    ensures SpanEnd(DcSample, 4, Space) == 5 && SpanEnd(DcSample, 5, Digit) == 7
    ensures SpanEnd(DcSample, 7, Space) == 8 && SpanEnd(DcSample, 8, Dot) == 14
  {
  }

  lemma DcSampleSpans()
    ensures DcAt(DcSample, 0) == Some(DcSpans(5, 7, 8, 14))
  {
    DcSampleRuns();
    assert NameToLineEnd(DcSample)(8) == Some((14, ()));
  }

  /** The DC name keeps the spaces it ends with: it is not trimmed. */
  lemma DcNameKeepsTrailingSpaces()
    ensures MatchDc(DcSample) == Some(DcCaptures("12", "ACME  "))
  {
    DcSampleSpans();
    assert FirstFrom(DcAtFn(DcSample), 0, |DcSample|) == Some((0, DcSpans(5, 7, 8, 14)));
    assert DcSample[5..7] == "12";
    assert DcSample[8..14] == "ACME  ";
  }

  // ---------------------------------------------------------------------------
  // A store line with padded location: `Store Number: 42  MAIN ST  Order Number: 7`.

  const StoreHalf: string := "Store Number: 42  MAIN ST  "
  const OrderHalf: string := "Order Number: 7"
  const StoreSample: string := StoreHalf + OrderHalf

  lemma StoreHalves()
    ensures |StoreHalf| == 27 && |OrderHalf| == 15 && |StoreSample| == 42
    ensures forall i | 0 <= i < 27 :: StoreSample[i] == StoreHalf[i]
    ensures forall i | 27 <= i < 42 :: StoreSample[i] == OrderHalf[i - 27]
  {
  }

  lemma StoreSampleChars()
    ensures StoreSample[13] == ' ' && StoreSample[14] == '4' && StoreSample[15] == '2'
    ensures StoreSample[16] == ' ' && StoreSample[17] == ' ' && StoreSample[18] == 'M'
  {
    StoreHalves();
  }

  lemma StoreSampleOneLine()
    ensures forall i | 0 <= i < |StoreSample| :: !IsLineTerminator(StoreSample[i])
  {
    StoreHalves();
    assert forall i | 0 <= i < 27 :: !IsLineTerminator(StoreHalf[i]);
    assert forall i | 0 <= i < 15 :: !IsLineTerminator(OrderHalf[i]);
  }

  lemma StoreSampleStart()
    ensures MarkedRun(StoreSample, 0, StoreMarker, Digit) == Some((14, 16))
    ensures SpanEnd(StoreSample, 16, Space) == 18 && SpanEnd(StoreSample, 18, Dot) == 42
  {
    var t := StoreSample;
    StoreHalves();
    assert t[..13] == StoreHalf[..13] == StoreMarker;
    StoreSampleChars();
    SpanEndOfRun(t, 13, 14, Space);
    SpanEndOfRun(t, 14, 16, Digit);
    SpanEndOfRun(t, 16, 18, Space);
    StoreSampleOneLine();
    SpanEndOfRun(t, 18, 42, Dot);
  }

  lemma OrderPart()
    ensures OrderRest(StoreSample)(27) == Some((41, 42))
  {
    StoreHalves();
    assert StoreSample[27..40] == OrderHalf[..13] == OrderMarker;
    assert SpanEnd(StoreSample, 40, Space) == 41;
    assert SpanEnd(StoreSample, 41, Digit) == 42;
  }

  lemma LocationHasNoO()
    ensures forall i | 18 <= i < 27 :: StoreSample[i] != 'O'
  {
    StoreHalves();
    assert forall i | 18 <= i < 27 :: StoreHalf[i] != 'O';
  }

  lemma NotOrderAt(t: string, e: nat)
    requires e < |t| && t[e] != 'O'
    ensures MarkedRun(t, e, OrderMarker, Digit).None?
  {
  }

  /** The lazy location group stops at the first `Order Number:`. */
  lemma LocationPart()
    ensures Lazy(StoreSample, 18, 0, false, OrderRest(StoreSample)) == Some((27, (41, 42)))
  {
    StoreSampleStart();
    OrderPart();
    LocationHasNoO();
    forall e: nat | 18 <= e < 27 ensures OrderRest(StoreSample)(e).None? {
      NotOrderAt(StoreSample, e);
    }
    FirstFromAt(OrderRest(StoreSample), 18, 42, 27);
  }

  lemma StoreSampleSpans()
    ensures StoreAt(StoreSample, 0) == Some(StoreSpans(14, 16, 18, 27, 41, 42))
  {
    StoreSampleStart();
    LocationPart();
    assert LocationThenOrder(StoreSample)(18) == Some((27, (41, 42)));
  }

  lemma StoreSampleSlices()
    ensures StoreSample[14..16] == "42" && StoreSample[18..27] == "MAIN ST  " && StoreSample[41..42] == "7"
  {
    StoreHalves();
    assert StoreSample[14..16] == StoreHalf[14..16];
    assert StoreSample[18..27] == StoreHalf[18..];
  }

  lemma StoreSampleCaptures()
    ensures MatchStore(StoreSample) == Some(StoreCaptures("42", "MAIN ST  ", "7"))
  {
    StoreSampleSpans();
    assert FirstFrom(StoreAtFn(StoreSample), 0, |StoreSample|) == Some((0, StoreSpans(14, 16, 18, 27, 41, 42)));
    StoreSampleSlices();
  }

  lemma TrimMainSt()
    ensures Trim("MAIN ST  ") == "MAIN ST"
  {
    var s := "MAIN ST  ";
    assert SpanEnd(s, 0, Space) == 0;
    assert TrimmedEnd(s, 0, 9) == 7;
  }

  /** A store line sets the three store fields, the location trimmed, and
      nothing else. */
  lemma StoreLineSetsStoreFields()
    ensures HeaderStep(Blank, StoreSample) == Blank.(storeNumber := "42", location := "MAIN ST", orderNumber := "7")
  {
    StoreLineHasStore();
    StoreSampleCaptures();
    TrimMainSt();
  }

  lemma StoreLineHasStore()
    ensures Contains(StoreSample, StoreMarker)
  {
    StoreHalves();
    assert StartsAt(StoreSample, 0, StoreMarker) by {
      assert StoreSample[..13] == StoreHalf[..13];
    }
    ContainsIff(StoreSample, StoreMarker);
  }

  // ---------------------------------------------------------------------------
  // A date line with text between the date and the time:
  // `Date: 01/02/24 X Time: 10:30`.

  const DateSample: string := "Date: 01/02/24 X Time: 10:30"

  lemma DateSampleStart()
    ensures |DateSample| == 28
    ensures MarkedRun(DateSample, 0, DateMarker, DateChar) == Some((6, 14))
    ensures SpanEnd(DateSample, 14, Space) == 15 && Reach(DateSample, 15, false) == 28
  {
    var t := DateSample;
    assert t[..5] == DateMarker;
    SpanEndOfRun(t, 5, 6, Space);
    SpanEndOfRun(t, 6, 14, DateChar);
    SpanEndOfRun(t, 14, 15, Space);
    DateSampleOneLine();
  }

  lemma DateSampleOneLine()
    ensures Reach(DateSample, 15, false) == 28
  {
    assert forall i | 15 <= i < 28 :: !IsLineTerminator(DateSample[i]);
    SpanEndOfRun(DateSample, 15, 28, Dot);
  }

  lemma TimePart()
    ensures TimeRest(DateSample)(17) == Some((23, 28))
  {
    var t := DateSample;
    assert t[17..22] == TimeMarker;
    SpanEndOfRun(t, 22, 23, Space);
    SpanEndOfRun(t, 23, 28, TimeChar);
  }

  lemma NoTAfterTime()
    ensures forall i | 17 < i < 28 :: DateSample[i] != 'T'
  {
  }

  lemma TimeStartsWithT(t: string, e: nat)
    ensures StartsAt(t, e, TimeMarker) ==> e < |t| && t[e] == 'T'
  {
    if StartsAt(t, e, TimeMarker) {
      assert t[e] == t[e..e + 5][0];
    }
  }

  /** No `Time:` starts after the one at 17. */
  lemma NoLaterTime()
    ensures forall e: nat | 17 < e <= 28 :: TimeRest(DateSample)(e).None?
  {
    NoTAfterTime();
    forall e: nat | 17 < e <= 28 ensures TimeRest(DateSample)(e).None? {
      TimeStartsWithT(DateSample, e);
    }
  }

  /** The greedy `.*` backs off from the end of the line to the `Time:` at 17. */
  lemma SkipPart()
    ensures AnyThenTime(DateSample)(15) == Some((17, (23, 28)))
  {
    DateSampleStart();
    TimePart();
    NoLaterTime();
    var r := Greedy(DateSample, 15, false, TimeRest(DateSample));
    assert r.Some? && r.value.0 == 17;
  }

  lemma DateSampleSpans()
    ensures DateAt(DateSample, 0) == Some(DateSpans(6, 14, 15, 17, 23, 28))
  {
    DateSampleStart();
    SkipPart();
    assert WsPlusThen(DateSample, 14, AnyThenTime(DateSample)) == Some((15, (17, (23, 28))));
  }

  /** The date line gives the date and the time, with the text between them
      skipped. */
  lemma DateSampleCaptures()
    ensures MatchDate(DateSample) == Some(DateCaptures("01/02/24", "10:30"))
  {
    DateSampleSpans();
    assert FirstFrom(DateAtFn(DateSample), 0, |DateSample|) == Some((0, DateSpans(6, 14, 15, 17, 23, 28)));
    DateSampleSlices();
  }

  lemma DateSampleSlices()
    ensures DateSample[6..14] == "01/02/24" && DateSample[23..28] == "10:30"
  {
    forall i | 0 <= i < 8 ensures DateSample[6..14][i] == "01/02/24"[i] {
      assert DateSample[6..14][i] == DateSample[6 + i];
    }
    forall i | 0 <= i < 5 ensures DateSample[23..28][i] == "10:30"[i] {
      assert DateSample[23..28][i] == DateSample[23 + i];
    }
  }

  // ---------------------------------------------------------------------------
  // A whole header: the store line, the DC line and the date line.

  /** A string lacking one of the characters of `p` does not contain `p`. */
  lemma MissingChar(t: string, p: string, j: nat)
    requires j < |p| && forall i | 0 <= i < |t| :: t[i] != p[j]
    ensures !Contains(t, p)
  {
    ContainsIff(t, p);
    forall i: nat ensures !StartsAt(t, i, p) {
      if i + |p| <= |t| {
        assert t[i..i + |p|][j] == t[i + j];
      }
    }
  }

  lemma DateLineNoS()
    ensures forall i | 0 <= i < |DateSample| :: DateSample[i] != 'S' && DateSample[i] != '#'
  {
  }

  lemma DateLineNoStore()
    ensures !Contains(DateSample, StoreMarker)
  {
    DateLineNoS();
    MissingChar(DateSample, StoreMarker, 0);
  }

  lemma DateLineNoDc()
    ensures !Contains(DateSample, DcMarker)
  {
    DateLineNoS();
    MissingChar(DateSample, DcMarker, 2);
  }

  lemma DateLineHasDate()
    ensures Contains(DateSample, DateMarker)
  {
    assert StartsAt(DateSample, 0, DateMarker) by {
      assert DateSample[..5] == DateMarker;
    }
    ContainsIff(DateSample, DateMarker);
  }

  /** The date line holds only the date marker. */
  lemma DateLineMarkers()
    ensures !Contains(DateSample, StoreMarker) && !Contains(DateSample, DcMarker) && Contains(DateSample, DateMarker)
  {
    DateLineNoStore();
    DateLineNoDc();
    DateLineHasDate();
  }

  /** The DC line holds the DC marker and not the store marker. */
  lemma DcLineMarkers()
    ensures !Contains(DcSample, StoreMarker) && Contains(DcSample, DcMarker)
  {
    MissingChar(DcSample, StoreMarker, 0);
    assert StartsAt(DcSample, 0, DcMarker);
    ContainsIff(DcSample, DcMarker);
  }

  const HeaderLines: seq<string> := [StoreSample, DcSample, DateSample]
  const HeaderText: string := Join(HeaderLines, '\n')

  lemma HeaderTextLines()
    ensures Split(HeaderText, '\n') == HeaderLines
  {
    StoreSampleOneLine();
    assert '\n' !in DcSample && '\n' !in DateSample;
    SplitOfJoin(HeaderLines, '\n');
  }

  /** The header after the store line, and after the DC line as well. */
  const AfterStore: HeaderInfo := Blank.(storeNumber := "42", location := "MAIN ST", orderNumber := "7")
  const AfterDc: HeaderInfo := AfterStore.(dcNumber := "12", dcName := "ACME  ")

  lemma DcLineStep()
    ensures HeaderStep(AfterStore, DcSample) == AfterDc
  {
    DcLineMarkers();
    DcNameKeepsTrailingSpaces();
  }

  lemma DateLineStep()
    ensures HeaderStep(AfterDc, DateSample) == AfterDc.(date := "01/02/24", time := "10:30")
  {
    DateLineMarkers();
    DateSampleCaptures();
  }

  lemma FoldFirstTwo()
    ensures HeaderFold(Blank, HeaderLines[..2]) == AfterDc
  {
    var two := HeaderLines[..2];
    assert two[..1] == [StoreSample] && two[1] == DcSample;
    assert [StoreSample][..0] == [];
    StoreLineSetsStoreFields();
    assert HeaderFold(Blank, two[..1]) == AfterStore;
    DcLineStep();
  }

  /** Each line of a three-line header fills its own group of fields. */
  lemma WholeHeaderParsed()
    ensures ParseWorksheetHeader(HeaderText)
      == HeaderInfo("42", "MAIN ST", "7", "12", "ACME  ", "01/02/24", "10:30")
  {
    HeaderTextLines();
    FoldFirstTwo();
    DateLineStep();
    assert HeaderLines[2] == DateSample;
  }
}
