/** The three patterns of the worksheet header, src/components/WorksheetParser.tsx:146,153,159:
      Store Number:\s*(\d+)\s+(.*?)Order Number:\s*(\d+)
      DC#:\s*(\d+)\s+(.*)
      Date:\s*([\d/]+)\s+.*Time:\s*([\d:]+)
    matched the way `String.prototype.match` does: at the leftmost position
    where the pattern occurs, with each quantifier's alternatives tried in the
    engine's order. None of them is anchored, so a match may stop anywhere. */
module HeaderPatterns {
  import opened Wrappers
  import opened Text
  import opened Backtrack

  const StoreMarker: string := "Store Number:"
  const OrderMarker: string := "Order Number:"
  const DcMarker: string := "DC#:"
  const DateMarker: string := "Date:"
  const TimeMarker: string := "Time:"

  /** `marker\s*` at `p` followed by a non-empty run of class `k`, taken whole:
      the start and end of that run. The `\s*` is followed by a character that
      is not whitespace, so it takes the whole whitespace run; the run of `k`
      is either greedy with nothing after it, or followed by `\s+`, so only the
      whole run can succeed. */
  function MarkedRun(t: string, p: nat, marker: string, k: CharClass): (r: Option<(nat, nat)>)
    ensures r.Some? ==> RunStops(t, r.value.1, k)
  {
    if !StartsAt(t, p, marker) then None
    else
      var a := SpanEnd(t, p + |marker|, Space);
      var b := SpanEnd(t, a, k);
      if a < b then Some((a, b)) else None
  }

  /** A run of class `k` that ends at `j` is not followed by another character
      of `k`: a greedy `k+` stops only there. */
  predicate RunStops(t: string, j: nat, k: CharClass) {
    j >= |t| || !InClass(t[j], k)
  }

  /** `t[p..]` starts with `marker`, optional whitespace and a non-empty run of
      class `k` from `a` to `b`. */
  ghost predicate MarkedRunLayout(t: string, p: nat, marker: string, k: CharClass, a: nat, b: nat) {
    StartsAt(t, p, marker) && WsBetween(t, p + |marker|, a) && a < b && ClassBetween(t, a, b, k)
  }

  /** A run of a class that excludes whitespace, found after a marker, is that
      marker's layout; and any layout whose run ends where the class does is
      the one found. */
  lemma MarkedRunExact(t: string, p: nat, marker: string, k: CharClass, a: nat, b: nat)
    requires k != Space && k != Dot
    requires b >= |t| || !InClass(t[b], k)
    ensures MarkedRun(t, p, marker, k) == Some((a, b)) <==> MarkedRunLayout(t, p, marker, k, a, b)
  {
    if MarkedRunLayout(t, p, marker, k, a, b) {
      MarkedRunFound(t, p, marker, k, a, b);
    }
    if MarkedRun(t, p, marker, k) == Some((a, b)) {
      WsRunPrefix(t, p + |marker|, a);
    }
  }

  /** Where the search for `marker\s*(X+)` fails, no layout of it exists. */
  lemma NoMarkedRun(t: string, p: nat, marker: string, k: CharClass, a: nat, b: nat)
    requires k != Space && k != Dot
    requires MarkedRun(t, p, marker, k).None?
    ensures !MarkedRunLayout(t, p, marker, k, a, b)
  {
    if b <= |t| {
      MarkedRunExact(t, p, marker, k, a, SpanEnd(t, b, k));
    }
  }

  lemma MarkedRunFound(t: string, p: nat, marker: string, k: CharClass, a: nat, b: nat)
    requires k != Space && k != Dot
    requires b >= |t| || !InClass(t[b], k)
    requires MarkedRunLayout(t, p, marker, k, a, b)
    ensures MarkedRun(t, p, marker, k) == Some((a, b))
  {
    assert !InClass(t[a], Space) by {
      assert InClass(t[a], k);
    }
    SpanEndOfRun(t, p + |marker|, a, Space);
    SpanEndOfRun(t, a, b, k);
  }

  // ---------------------------------------------------------------------------
  // Store Number:\s*(\d+)\s+(.*?)Order Number:\s*(\d+)

  /** The store-line groups: store number, location (untrimmed), order number. */
  datatype StoreCaptures = StoreCaptures(storeNumber: string, location: string, orderNumber: string)

  /** Where a store match lies: the store number `a..b`, the location `d..e`,
      `Order Number:` at `e`, the order number `f..g`. */
  datatype StoreSpans = StoreSpans(a: nat, b: nat, d: nat, e: nat, f: nat, g: nat)

  function OrderRest(t: string): nat -> Option<(nat, nat)> {
    (e: nat) => MarkedRun(t, e, OrderMarker, Digit)
  }

  /** `(.*?)` followed by the order number: the lazy location group. */
  function LocationThenOrder(t: string): nat -> Option<(nat, (nat, nat))> {
    (d: nat) => if d <= |t| then Lazy(t, d, 0, false, OrderRest(t)) else None
  }

  function StoreAt(t: string, p: nat): Option<StoreSpans> {
    match MarkedRun(t, p, StoreMarker, Digit)
    case None => None
    case Some((a, b)) =>
      match WsPlusThen(t, b, LocationThenOrder(t))
      case None => None
      case Some((d, (e, (f, g)))) => Some(StoreSpans(a, b, d, e, f, g))
  }

  function StoreAtFn(t: string): nat -> Option<StoreSpans> {
    (p: nat) => StoreAt(t, p)
  }

  /** The store pattern occurs at `p` with its pieces where `m` says. */
  ghost predicate StoreLayout(t: string, p: nat, m: StoreSpans) {
    && MarkedRunLayout(t, p, StoreMarker, Digit, m.a, m.b)
    && m.b < m.d && WsBetween(t, m.b, m.d)
    && m.d <= m.e && ClassBetween(t, m.d, m.e, Dot)
    && MarkedRunLayout(t, m.e, OrderMarker, Digit, m.f, m.g)
  }

  /** The engine's choice among the layouts at one position: the `\s+` takes
      the whole whitespace run, the lazy location stops at the first
      `Order Number:` that is followed by a number, and the greedy order
      number takes the whole digit run. */
  ghost predicate StoreChosen(t: string, m: StoreSpans) {
    && (m.d >= |t| || !IsWs(t[m.d]))
    && (forall e: nat, f: nat, g: nat :: m.d <= e < m.e ==> !MarkedRunLayout(t, e, OrderMarker, Digit, f, g))
    && RunStops(t, m.g, Digit)
  }

  /** `m` at `p` is the match the engine reports: the leftmost position where
      the pattern occurs, and the layout chosen there. */
  ghost predicate StoreFirst(t: string, p: nat, m: StoreSpans) {
    && StoreLayout(t, p, m) && StoreChosen(t, m)
    && forall p': nat, m' :: p' < p ==> !StoreLayout(t, p', m')
  }

  function StoreCaptured(t: string, m: StoreSpans): StoreCaptures
    requires m.a <= m.b <= |t| && m.d <= m.e <= |t| && m.f <= m.g <= |t|
  {
    StoreCaptures(t[m.a..m.b], t[m.d..m.e], t[m.f..m.g])
  }

  lemma StoreAtSound(t: string, p: nat)
    requires StoreAt(t, p).Some?
    ensures StoreLayout(t, p, StoreAt(t, p).value)
  {
    var m := StoreAt(t, p).value;
    MarkedRunExact(t, p, StoreMarker, Digit, m.a, m.b);
    assert Lazy(t, m.d, 0, false, OrderRest(t)) == Some((m.e, (m.f, m.g)));
    MarkedRunExact(t, m.e, OrderMarker, Digit, m.f, m.g);
  }

  lemma StoreAtComplete(t: string, p: nat, m: StoreSpans)
    requires StoreLayout(t, p, m)
    ensures StoreAt(t, p).Some?
  {
    MarkedRunExact(t, p, StoreMarker, Digit, m.a, m.b);
    OrderFound(t, m.e, m.f, m.g);
    SpanEndBound(t, m.d, m.e, Dot);
    assert LocationThenOrder(t)(m.d).Some?;
  }

  /** Where the location group can start after a whitespace character, it can
      also start one character later: `Order Number:` does not begin with
      whitespace. */
  lemma LocationLater(t: string, d: nat)
    ensures LocationThenOrder(t)(d).Some? && d < |t| && IsWs(t[d]) ==> LocationThenOrder(t)(d + 1).Some?
  {
    if LocationThenOrder(t)(d).Some? && d < |t| && IsWs(t[d]) {
      var e := LocationThenOrder(t)(d).value.0;
      assert t[e] == OrderMarker[0];
      assert Reach(t, d + 1, false) == Reach(t, d, false);
    }
  }

  lemma StoreAtChosen(t: string, p: nat)
    requires StoreAt(t, p).Some?
    ensures StoreChosen(t, StoreAt(t, p).value)
  {
    var m := StoreAt(t, p).value;
    LocationLater(t, m.d);
    assert Lazy(t, m.d, 0, false, OrderRest(t)) == Some((m.e, (m.f, m.g)));
    forall e: nat, f: nat, g: nat | m.d <= e < m.e ensures !MarkedRunLayout(t, e, OrderMarker, Digit, f, g) {
      assert OrderRest(t)(e).None?;
      NoMarkedRun(t, e, OrderMarker, Digit, f, g);
    }
  }

  lemma OrderFound(t: string, e: nat, f: nat, g: nat)
    requires MarkedRunLayout(t, e, OrderMarker, Digit, f, g)
    ensures OrderRest(t)(e).Some?
  {
    var g' := SpanEnd(t, g, Digit);
    MarkedRunExact(t, e, OrderMarker, Digit, f, g');
  }

  /** At one position there is exactly one layout the engine can choose, so the
      captures `MatchStore` reports are determined by the line. */
  lemma StoreChoiceUnique(t: string, p: nat, m1: StoreSpans, m2: StoreSpans)
    requires StoreLayout(t, p, m1) && StoreChosen(t, m1)
    requires StoreLayout(t, p, m2) && StoreChosen(t, m2)
    ensures m1 == m2
  {
    MarkedRunExact(t, p, StoreMarker, Digit, m1.a, m1.b);
    MarkedRunExact(t, p, StoreMarker, Digit, m2.a, m2.b);
    SpanEndOfRun(t, m1.b, m1.d, Space);
    SpanEndOfRun(t, m2.b, m2.d, Space);
    assert m1.e == m2.e;
    MarkedRunExact(t, m1.e, OrderMarker, Digit, m1.f, m1.g);
    MarkedRunExact(t, m2.e, OrderMarker, Digit, m2.f, m2.g);
  }

  /** The leftmost occurrence of the store pattern, as the search over start
      positions finds it. */
  lemma StoreSearch(t: string)
    ensures FirstFrom(StoreAtFn(t), 0, |t|).None? ==> forall p: nat, m :: !StoreLayout(t, p, m)
    ensures FirstFrom(StoreAtFn(t), 0, |t|).Some? ==>
      var (p, m) := FirstFrom(StoreAtFn(t), 0, |t|).value;
      StoreFirst(t, p, m)
  {
    forall p: nat, m | StoreLayout(t, p, m) ensures p <= |t| && StoreAtFn(t)(p).Some? {
      StoreAtComplete(t, p, m);
    }
    var s := FirstFrom(StoreAtFn(t), 0, |t|);
    if s.Some? {
      assert StoreAt(t, s.value.0) == Some(s.value.1);
      StoreAtSound(t, s.value.0);
      StoreAtChosen(t, s.value.0);
    }
  }

  /** `line.match(/Store Number:.../)`: the groups of the leftmost occurrence,
      with the layout there that the engine tries first. It fails exactly when
      the pattern occurs nowhere; the store and order numbers it reports are
      non-empty digit strings. */
  function MatchStore(t: string): (r: Option<StoreCaptures>)
    ensures r.None? <==> forall p: nat, m :: !StoreLayout(t, p, m)
    ensures r.Some? ==> exists p: nat, m :: StoreFirst(t, p, m) && r.value == StoreCaptured(t, m)
    ensures r.Some? ==> |r.value.storeNumber| >= 1 && AllDigits(r.value.storeNumber)
    ensures r.Some? ==> |r.value.orderNumber| >= 1 && AllDigits(r.value.orderNumber)
  {
    StoreSearch(t);
    match FirstFrom(StoreAtFn(t), 0, |t|)
    case None => None
    case Some((p, m)) =>
      assert StoreLayout(t, p, m);
      var c := StoreCaptured(t, m);
      SliceInClass(t, m.a, m.b, Digit);
      SliceInClass(t, m.f, m.g, Digit);
      Some(c)
  }

  /** A slice of a run of digits is all digits. */
  lemma SliceInClass(t: string, i: nat, j: nat, k: CharClass)
    requires ClassBetween(t, i, j, k)
    ensures forall m | 0 <= m < j - i :: InClass(t[i..j][m], k)
  {
    assert forall m | 0 <= m < j - i :: t[i..j][m] == t[i + m];
  }

  // ---------------------------------------------------------------------------
  // DC#:\s*(\d+)\s+(.*)

  /** The DC-line groups: DC number and DC name (never trimmed). */
  datatype DcCaptures = DcCaptures(dcNumber: string, dcName: string)

  /** Where a DC match lies: the number `a..b`, the name `d..e`. */
  datatype DcSpans = DcSpans(a: nat, b: nat, d: nat, e: nat)

  /** `(.*)` closing the pattern: greedy, and nothing after it can fail. */
  function NameToLineEnd(t: string): nat -> Option<(nat, ())> {
    (d: nat) => if d <= |t| then Greedy(t, d, false, Done()) else None
  }

  function DcAt(t: string, p: nat): Option<DcSpans> {
    match MarkedRun(t, p, DcMarker, Digit)
    case None => None
    case Some((a, b)) =>
      match WsPlusThen(t, b, NameToLineEnd(t))
      case None => None
      case Some((d, (e, _))) => Some(DcSpans(a, b, d, e))
  }

  function DcAtFn(t: string): nat -> Option<DcSpans> {
    (p: nat) => DcAt(t, p)
  }

  /** The DC pattern occurs at `p` with its pieces where `m` says. */
  ghost predicate DcLayout(t: string, p: nat, m: DcSpans) {
    && MarkedRunLayout(t, p, DcMarker, Digit, m.a, m.b)
    && m.b < m.d && WsBetween(t, m.b, m.d)
    && m.d <= m.e && ClassBetween(t, m.d, m.e, Dot)
  }

  /** The engine's choice among the layouts at one position: the `\s+` takes
      the whole whitespace run and the name runs to the end of the line. */
  ghost predicate DcLongest(t: string, m: DcSpans) {
    && m.e <= |t|
    && (m.d >= |t| || !IsWs(t[m.d]))
    && (m.e == |t| || IsLineTerminator(t[m.e]))
  }

  function DcCaptured(t: string, m: DcSpans): DcCaptures
    requires m.a <= m.b <= |t| && m.d <= m.e <= |t|
  {
    DcCaptures(t[m.a..m.b], t[m.d..m.e])
  }

  lemma DcAtSound(t: string, p: nat)
    requires DcAt(t, p).Some?
    ensures DcLayout(t, p, DcAt(t, p).value) && DcLongest(t, DcAt(t, p).value)
  {
    var m := DcAt(t, p).value;
    MarkedRunExact(t, p, DcMarker, Digit, m.a, m.b);
    assert Greedy(t, m.d, false, Done()).Some?;
  }

  lemma DcAtComplete(t: string, p: nat, m: DcSpans)
    requires DcLayout(t, p, m)
    ensures DcAt(t, p).Some?
  {
    MarkedRunExact(t, p, DcMarker, Digit, m.a, m.b);
    assert Greedy(t, m.d, false, Done()).Some? by {
      assert Done()(m.d).Some?;
    }
    assert NameToLineEnd(t)(m.d).Some?;
  }

  lemma DcSearch(t: string)
    ensures FirstFrom(DcAtFn(t), 0, |t|).None? ==> forall p: nat, m :: !DcLayout(t, p, m)
    ensures FirstFrom(DcAtFn(t), 0, |t|).Some? ==>
      var (p, m) := FirstFrom(DcAtFn(t), 0, |t|).value;
      && DcLayout(t, p, m) && DcLongest(t, m)
      && forall p': nat, m' :: p' < p ==> !DcLayout(t, p', m')
  {
    forall p: nat, m | DcLayout(t, p, m) ensures p <= |t| && DcAtFn(t)(p).Some? {
      DcAtComplete(t, p, m);
    }
    var s := FirstFrom(DcAtFn(t), 0, |t|);
    if s.Some? {
      assert DcAt(t, s.value.0) == Some(s.value.1);
      DcAtSound(t, s.value.0);
    }
  }

  /** `line.match(/DC#:.../)`: the groups of the leftmost occurrence, with the
      name taken from the end of the whitespace run to the end of the line. It
      fails exactly when the pattern occurs nowhere. The DC number is a
      non-empty digit string; the name never starts with whitespace but keeps
      any it ends with. */
  function MatchDc(t: string): (r: Option<DcCaptures>)
    ensures r.None? <==> forall p: nat, m :: !DcLayout(t, p, m)
    ensures r.Some? ==> exists p: nat, m ::
      && DcLayout(t, p, m) && DcLongest(t, m) && r.value == DcCaptured(t, m)
      && forall p': nat, m' :: p' < p ==> !DcLayout(t, p', m')
    ensures r.Some? ==> |r.value.dcNumber| >= 1 && AllDigits(r.value.dcNumber)
    ensures r.Some? ==> |r.value.dcName| == 0 || !IsWs(r.value.dcName[0])
  {
    DcSearch(t);
    match FirstFrom(DcAtFn(t), 0, |t|)
    case None => None
    case Some((p, m)) =>
      SliceInClass(t, m.a, m.b, Digit);
      Some(DcCaptured(t, m))
  }

  // ---------------------------------------------------------------------------
  // Date:\s*([\d/]+)\s+.*Time:\s*([\d:]+)

  /** The date-line groups: date and time. */
  datatype DateCaptures = DateCaptures(date: string, time: string)

  /** Where a date match lies: the date `a..b`, the skipped text `d..e`,
      `Time:` at `e`, the time `f..g`. */
  datatype DateSpans = DateSpans(a: nat, b: nat, d: nat, e: nat, f: nat, g: nat)

  function TimeRest(t: string): nat -> Option<(nat, nat)> {
    (e: nat) => MarkedRun(t, e, TimeMarker, TimeChar)
  }

  /** `.*` followed by the time: greedy, so the last `Time:` that can be
      reached is tried first. */
  function AnyThenTime(t: string): nat -> Option<(nat, (nat, nat))> {
    (d: nat) => if d <= |t| then Greedy(t, d, false, TimeRest(t)) else None
  }

  function DateAt(t: string, p: nat): Option<DateSpans> {
    match MarkedRun(t, p, DateMarker, DateChar)
    case None => None
    case Some((a, b)) =>
      match WsPlusThen(t, b, AnyThenTime(t))
      case None => None
      case Some((d, (e, (f, g)))) => Some(DateSpans(a, b, d, e, f, g))
  }

  function DateAtFn(t: string): nat -> Option<DateSpans> {
    (p: nat) => DateAt(t, p)
  }

  /** The date pattern occurs at `p` with its pieces where `m` says. */
  ghost predicate DateLayout(t: string, p: nat, m: DateSpans) {
    && MarkedRunLayout(t, p, DateMarker, DateChar, m.a, m.b)
    && m.b < m.d && WsBetween(t, m.b, m.d)
    && m.d <= m.e && ClassBetween(t, m.d, m.e, Dot)
    && MarkedRunLayout(t, m.e, TimeMarker, TimeChar, m.f, m.g)
  }

  /** The engine's choice among the layouts at one position: the `\s+` takes
      the whole whitespace run, the greedy `.*` stops at the last `Time:` on
      the line that is followed by a time, and the greedy time takes the whole
      run of digits and `:`. */
  ghost predicate DateChosen(t: string, m: DateSpans) {
    && (m.d >= |t| || !IsWs(t[m.d]))
    && (forall e: nat, f: nat, g: nat :: m.e < e && ClassBetween(t, m.d, e, Dot) ==> !MarkedRunLayout(t, e, TimeMarker, TimeChar, f, g))
    && RunStops(t, m.g, TimeChar)
  }

  /** `m` at `p` is the match the engine reports: the leftmost position where
      the pattern occurs, and the layout chosen there. */
  ghost predicate DateFirst(t: string, p: nat, m: DateSpans) {
    && DateLayout(t, p, m) && DateChosen(t, m)
    && forall p': nat, m' :: p' < p ==> !DateLayout(t, p', m')
  }

  function DateCaptured(t: string, m: DateSpans): DateCaptures
    requires m.a <= m.b <= |t| && m.f <= m.g <= |t|
  {
    DateCaptures(t[m.a..m.b], t[m.f..m.g])
  }

  lemma DateAtSound(t: string, p: nat)
    requires DateAt(t, p).Some?
    ensures DateLayout(t, p, DateAt(t, p).value)
  {
    var m := DateAt(t, p).value;
    MarkedRunExact(t, p, DateMarker, DateChar, m.a, m.b);
    assert Greedy(t, m.d, false, TimeRest(t)) == Some((m.e, (m.f, m.g)));
    MarkedRunExact(t, m.e, TimeMarker, TimeChar, m.f, m.g);
  }

  /** Where the skipped text can start at a whitespace character, it can also
      start one character later: `Time:` does not begin with whitespace. */
  lemma SkipLater(t: string, d: nat)
    ensures AnyThenTime(t)(d).Some? && d < |t| && IsWs(t[d]) ==> AnyThenTime(t)(d + 1).Some?
  {
    if AnyThenTime(t)(d).Some? && d < |t| && IsWs(t[d]) {
      var e := AnyThenTime(t)(d).value.0;
      assert t[e] == TimeMarker[0];
      assert Reach(t, d + 1, false) == Reach(t, d, false);
    }
  }

  lemma DateAtChosen(t: string, p: nat)
    requires DateAt(t, p).Some?
    ensures DateChosen(t, DateAt(t, p).value)
  {
    var m := DateAt(t, p).value;
    SkipLater(t, m.d);
    assert Greedy(t, m.d, false, TimeRest(t)) == Some((m.e, (m.f, m.g)));
    forall e: nat, f: nat, g: nat | m.e < e && ClassBetween(t, m.d, e, Dot)
      ensures !MarkedRunLayout(t, e, TimeMarker, TimeChar, f, g)
    {
      SpanEndBound(t, m.d, e, Dot);
      assert TimeRest(t)(e).None?;
      NoMarkedRun(t, e, TimeMarker, TimeChar, f, g);
    }
  }

  lemma TimeFound(t: string, e: nat, f: nat, g: nat)
    requires MarkedRunLayout(t, e, TimeMarker, TimeChar, f, g)
    ensures TimeRest(t)(e).Some?
  {
    var g' := SpanEnd(t, g, TimeChar);
    MarkedRunExact(t, e, TimeMarker, TimeChar, f, g');
  }

  lemma DateAtComplete(t: string, p: nat, m: DateSpans)
    requires DateLayout(t, p, m)
    ensures DateAt(t, p).Some?
  {
    MarkedRunExact(t, p, DateMarker, DateChar, m.a, m.b);
    TimeFound(t, m.e, m.f, m.g);
    SpanEndBound(t, m.d, m.e, Dot);
    assert AnyThenTime(t)(m.d).Some?;
  }

  /** At one position there is exactly one layout the engine can choose, so the
      captures `MatchDate` reports are determined by the line. */
  lemma DateChoiceUnique(t: string, p: nat, m1: DateSpans, m2: DateSpans)
    requires DateLayout(t, p, m1) && DateChosen(t, m1)
    requires DateLayout(t, p, m2) && DateChosen(t, m2)
    ensures m1 == m2
  {
    MarkedRunExact(t, p, DateMarker, DateChar, m1.a, m1.b);
    MarkedRunExact(t, p, DateMarker, DateChar, m2.a, m2.b);
    SpanEndOfRun(t, m1.b, m1.d, Space);
    SpanEndOfRun(t, m2.b, m2.d, Space);
    assert m1.e == m2.e;
    MarkedRunExact(t, m1.e, TimeMarker, TimeChar, m1.f, m1.g);
    MarkedRunExact(t, m2.e, TimeMarker, TimeChar, m2.f, m2.g);
  }

  lemma DateSearch(t: string)
    ensures FirstFrom(DateAtFn(t), 0, |t|).None? ==> forall p: nat, m :: !DateLayout(t, p, m)
    ensures FirstFrom(DateAtFn(t), 0, |t|).Some? ==>
      var (p, m) := FirstFrom(DateAtFn(t), 0, |t|).value;
      DateFirst(t, p, m)
  {
    forall p: nat, m | DateLayout(t, p, m) ensures p <= |t| && DateAtFn(t)(p).Some? {
      DateAtComplete(t, p, m);
    }
    var s := FirstFrom(DateAtFn(t), 0, |t|);
    if s.Some? {
      assert DateAt(t, s.value.0) == Some(s.value.1);
      DateAtSound(t, s.value.0);
      DateAtChosen(t, s.value.0);
    }
  }

  /** `line.match(/Date:.../)`: the groups of the leftmost occurrence, with the
      layout there that the engine tries first. It fails
      exactly when the pattern occurs nowhere; the date is a non-empty run of
      digits and `/`, the time a non-empty run of digits and `:`. */
  function MatchDate(t: string): (r: Option<DateCaptures>)
    ensures r.None? <==> forall p: nat, m :: !DateLayout(t, p, m)
    ensures r.Some? ==> exists p: nat, m :: DateFirst(t, p, m) && r.value == DateCaptured(t, m)
    ensures r.Some? ==> |r.value.date| >= 1 && forall i | 0 <= i < |r.value.date| :: InClass(r.value.date[i], DateChar)
    ensures r.Some? ==> |r.value.time| >= 1 && forall i | 0 <= i < |r.value.time| :: InClass(r.value.time[i], TimeChar)
  {
    DateSearch(t);
    match FirstFrom(DateAtFn(t), 0, |t|)
    case None => None
    case Some((p, m)) =>
      assert DateLayout(t, p, m);
      SliceInClass(t, m.a, m.b, DateChar);
      SliceInClass(t, m.f, m.g, TimeChar);
      Some(DateCaptured(t, m))
  }
}
