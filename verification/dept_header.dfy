/** The department-header pattern of src/components/WorksheetParser.tsx:53,
    `Dept:\s*(\d{3})\s+([^]*?)Sub-Dept:\s*(\d{3})\s+([^]*)`, matched the way
    `String.prototype.match` does: at the leftmost position where it can match,
    with the alternatives of each quantifier tried in the engine's order. */
module DeptHeader {
  import opened Wrappers
  import opened Text
  import opened Backtrack

  /** The four groups of the pattern, untrimmed. */
  datatype DeptCaptures = DeptCaptures(deptNum: string, deptName: string, subDeptNum: string, subDeptName: string)

  /** Where a match lies: dept digits at `a`, the name group `d..e`, `Sub-Dept:`
      at `e`, sub-dept digits at `f`, the sub-dept name group from `g` on. */
  datatype DeptSpans = DeptSpans(a: nat, d: nat, e: nat, f: nat, g: nat)

  /** A department or sub-department code: exactly three digits. */
  predicate IsCode(s: string) {
    |s| == 3 && AllDigits(s)
  }

  predicate ThreeDigitsAt(t: string, a: nat) {
    a + 3 <= |t| && IsDigit(t[a]) && IsDigit(t[a + 1]) && IsDigit(t[a + 2])
  }

  /** `([^]*)` closing the pattern: greedy, and nothing after it can fail. */
  function RestOfLine(t: string): nat -> Option<(nat, ())> {
    (g: nat) => if g <= |t| then Greedy(t, g, true, Done()) else None
  }

  /** `Sub-Dept:\s*(\d{3})\s+([^]*)` tried at `e`, giving the positions of its
      two groups. The `\s*` is followed by a digit, so it can only succeed by
      taking the whole whitespace run. */
  function SubDeptAt(t: string, e: nat): Option<(nat, nat)> {
    if !StartsAt(t, e, "Sub-Dept:") then None
    else
      var f := SpanEnd(t, e + 9, Space);
      if !ThreeDigitsAt(t, f) then None
      else
        match WsPlusThen(t, f + 3, RestOfLine(t))
        case None => None
        case Some((g, _)) => Some((f, g))
  }

  function SubDeptRest(t: string): nat -> Option<(nat, nat)> {
    (e: nat) => SubDeptAt(t, e)
  }

  /** `([^]*?)` followed by the `Sub-Dept:` part: the lazy name group. */
  function NameThenSubDept(t: string): nat -> Option<(nat, (nat, nat))> {
    (d: nat) => if d <= |t| then Lazy(t, d, 0, true, SubDeptRest(t)) else None
  }

  /** The whole pattern tried at `p`. */
  function MatchDeptAt(t: string, p: nat): Option<DeptSpans> {
    if !StartsAt(t, p, "Dept:") then None
    else
      var a := SpanEnd(t, p + 5, Space);
      if !ThreeDigitsAt(t, a) then None
      else
        match WsPlusThen(t, a + 3, NameThenSubDept(t))
        case None => None
        case Some((d, (e, (f, g)))) => Some(DeptSpans(a, d, e, f, g))
  }

  function MatchDeptAtFn(t: string): nat -> Option<DeptSpans> {
    (p: nat) => MatchDeptAt(t, p)
  }

  /** The strings a layout captures. */
  function Captured(t: string, m: DeptSpans): DeptCaptures
    requires m.a + 3 <= |t| && m.d <= m.e <= |t| && m.f + 3 <= |t| && m.g <= |t|
  {
    DeptCaptures(t[m.a..m.a + 3], t[m.d..m.e], t[m.f..m.f + 3], t[m.g..])
  }

  // ---------------------------------------------------------------------------
  // The pattern as a language: where its pieces lie in the line.

  /** The pattern occupies `t[p..]` with its pieces where `m` says. */
  ghost predicate DeptLayout(t: string, p: nat, m: DeptSpans) {
    && StartsAt(t, p, "Dept:") && WsBetween(t, p + 5, m.a)
    && ThreeDigitsAt(t, m.a) && m.a + 3 < m.d && WsBetween(t, m.a + 3, m.d)
    && m.d <= m.e && SubDeptLayout(t, m.e, m.f, m.g)
  }

  ghost predicate SubDeptLayout(t: string, e: nat, f: nat, g: nat) {
    && StartsAt(t, e, "Sub-Dept:") && WsBetween(t, e + 9, f)
    && ThreeDigitsAt(t, f) && f + 3 < g && WsBetween(t, f + 3, g)
  }

  /** The pattern matches at `p` with the groups `c`. */
  ghost predicate DeptShape(t: string, p: nat, c: DeptCaptures) {
    exists m: DeptSpans :: DeptLayout(t, p, m) && c == Captured(t, m)
  }

  /** A whitespace run ending before a digit is the whole run. */
  lemma WsBeforeDigit(t: string, i: nat, a: nat)
    requires ThreeDigitsAt(t, a) && WsBetween(t, i, a)
    ensures SpanEnd(t, i, Space) == a
  {
    SpanEndOfRun(t, i, a, Space);
  }

  lemma SubDeptAtSound(t: string, e: nat)
    requires SubDeptAt(t, e).Some?
    ensures SubDeptLayout(t, e, SubDeptAt(t, e).value.0, SubDeptAt(t, e).value.1)
  {
    var f := SpanEnd(t, e + 9, Space);
    WsRunPrefix(t, e + 9, f);
  }

  lemma SubDeptAtComplete(t: string, e: nat, f: nat, g: nat)
    requires SubDeptLayout(t, e, f, g)
    ensures SubDeptAt(t, e).Some?
  {
    WsBeforeDigit(t, e + 9, f);
    GreedyToEnd(t, g);
    assert RestOfLine(t)(g).Some?;
  }

  /** A match found at `p` is an occurrence of the pattern at `p`. */
  lemma MatchDeptAtSound(t: string, p: nat)
    requires MatchDeptAt(t, p).Some?
    ensures DeptLayout(t, p, MatchDeptAt(t, p).value)
  {
    var a := SpanEnd(t, p + 5, Space);
    WsRunPrefix(t, p + 5, a);
    var m := MatchDeptAt(t, p).value;
    assert SubDeptAt(t, m.e) == Some((m.f, m.g));
    SubDeptAtSound(t, m.e);
  }

  /** Wherever the pattern occurs, the matcher tried at that position finds a
      match. */
  lemma MatchDeptAtComplete(t: string, p: nat, m: DeptSpans)
    requires DeptLayout(t, p, m)
    ensures MatchDeptAt(t, p).Some?
  {
    WsBeforeDigit(t, p + 5, m.a);
    SubDeptAtComplete(t, m.e, m.f, m.g);
    assert SubDeptRest(t)(m.e).Some?;
    assert NameThenSubDept(t)(m.d).Some?;
  }

  /** Every occurrence of the pattern is one the search over start positions
      can find. */
  lemma ShapeFound(t: string, p: nat, c: DeptCaptures)
    requires DeptShape(t, p, c)
    ensures p <= |t| && MatchDeptAtFn(t)(p).Some?
  {
    var m :| DeptLayout(t, p, m) && c == Captured(t, m);
    MatchDeptAtComplete(t, p, m);
  }

  /** `t.match(...)` for the header pattern: the groups of the leftmost match,
      if there is one. It finds the pattern exactly when the pattern occurs in
      the line, and reports an occurrence no other occurrence starts before. */
  function MatchDeptHeader(t: string): (r: Option<DeptCaptures>)
    ensures r.None? ==> forall p: nat, c :: !DeptShape(t, p, c)
    ensures r.Some? ==> exists p: nat ::
      (DeptShape(t, p, r.value) && forall p': nat, c' :: p' < p ==> !DeptShape(t, p', c'))
    ensures r.Some? ==> IsCode(r.value.deptNum) && IsCode(r.value.subDeptNum)
  {
    var s := FirstFrom(MatchDeptAtFn(t), 0, |t|);
    LeftmostOccurrence(t);
    match s
    case None => None
    case Some((p, m)) =>
      MatchDeptAtSound(t, p);
      CapturedCodes(t, p, m);
      Some(Captured(t, m))
  }

  /** Both code groups of an occurrence are three-digit codes. */
  lemma CapturedCodes(t: string, p: nat, m: DeptSpans)
    requires DeptLayout(t, p, m)
    ensures IsCode(Captured(t, m).deptNum) && IsCode(Captured(t, m).subDeptNum)
  {
    var c := Captured(t, m);
    assert forall i | 0 <= i < 3 :: c.deptNum[i] == t[m.a + i];
    assert forall i | 0 <= i < 3 :: c.subDeptNum[i] == t[m.f + i];
  }

  lemma LeftmostOccurrence(t: string)
    ensures FirstFrom(MatchDeptAtFn(t), 0, |t|).None? ==> forall p: nat, c :: !DeptShape(t, p, c)
    ensures FirstFrom(MatchDeptAtFn(t), 0, |t|).Some? ==>
      var (p, m) := FirstFrom(MatchDeptAtFn(t), 0, |t|).value;
      && m.a + 3 <= |t| && m.d <= m.e <= |t| && m.f + 3 <= |t| && m.g <= |t|
      && DeptShape(t, p, Captured(t, m))
      && forall p': nat, c' :: p' < p ==> !DeptShape(t, p', c')
  {
    var s := FirstFrom(MatchDeptAtFn(t), 0, |t|);
    ShapesFound(t);
    if s.Some? {
      var (p, m) := s.value;
      assert MatchDeptAt(t, p) == Some(m);
      MatchDeptAtSound(t, p);
      assert DeptLayout(t, p, m);
    }
  }

  lemma ShapesFound(t: string)
    ensures forall p: nat, c | DeptShape(t, p, c) :: p <= |t| && MatchDeptAtFn(t)(p).Some?
  {
    forall p: nat, c | DeptShape(t, p, c)
      ensures p <= |t| && MatchDeptAtFn(t)(p).Some?
    {
      ShapeFound(t, p, c);
    }
  }
}
