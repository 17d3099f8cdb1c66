/** Properties of the whole line loop of `parseWorksheetData`
    (src/components/WorksheetParser.tsx:22-130), proved over any sequence of
    lines: how it composes, what it drops, where items go, which departments
    and sub-departments it reports, and whose names they carry. */
module WorksheetFacts {
  import opened Wrappers
  import opened Text
  import opened Keyed
  import opened DeptHeader
  import opened Worksheet

  // ---------------------------------------------------------------------------
  // Composition

  /** Running over `a + b` is running over `a`, then over `b`. */
  lemma {:induction false} RunFromAppend(st: ParseState, a: seq<string>, b: seq<string>)
    requires Valid(st)
    ensures RunFrom(st, a + b) == RunFrom(RunFrom(st, a), b)
    decreases |a|
  {
    if |a| == 0 {
      assert a + b == b;
    } else {
      assert (a + b)[1..] == a[1..] + b;
      RunFromAppend(Step(st, a[0]), a[1..], b);
    }
  }

  // ---------------------------------------------------------------------------
  // Lines before the first header

  predicate NoHeader(lines: seq<string>) {
    forall i | 0 <= i < |lines| :: !Classify(lines[i]).Header?
  }

  /** Without a department header nothing is recorded: item lines seen before
      any header are dropped. */
  lemma {:induction false} NoHeaderKeepsStart(lines: seq<string>)
    requires NoHeader(lines)
    ensures RunFrom(Start, lines) == Start
    decreases |lines|
  {
    if |lines| > 0 {
      assert !Classify(lines[0]).Header?;
      StepEffect(Start, lines[0]);
      NoHeaderKeepsStart(lines[1..]);
    }
  }

  /** Lines before the first header do not influence the result at all. */
  lemma HeaderlessPrefixIgnored(pre: seq<string>, rest: seq<string>)
    requires NoHeader(pre)
    ensures RunFrom(Start, pre + rest) == RunFrom(Start, rest)
  {
    RunFromAppend(Start, pre, rest);
    NoHeaderKeepsStart(pre);
  }

  /** A report with no department header parses to no departments; in
      particular an empty report, or one made only of blank and page-furniture
      lines. */
  lemma NoHeaderNoDepartments(text: string)
    requires NoHeader(Split(text, '\n'))
    ensures ParseWorksheetData(text) == []
  {
    NoHeaderKeepsStart(Split(text, '\n'));
  }

  lemma NoiseOnlyNoDepartments(text: string)
    requires forall l | l in Split(text, '\n') :: IsNoise(Trim(l))
    ensures ParseWorksheetData(text) == []
  {
    var lines := Split(text, '\n');
    assert forall i | 0 <= i < |lines| :: lines[i] in lines;
    NoHeaderNoDepartments(text);
  }

  lemma EmptyReport()
    ensures ParseWorksheetData("") == []
  {
    assert Split("", '\n') == [""];
    assert Trim("") == "";
    NoHeaderNoDepartments("");
  }

  /** A line starting with `Dept:` never adds an item, whether or not the
      header pattern matches it. */
  lemma DeptLineAddsNoItem(st: ParseState, line: string)
    requires Valid(st)
    requires !IsNoise(Trim(line)) && StartsAt(Trim(line), 0, "Dept:")
    ensures NoItemsAdded(st.depts, Step(st, line).depts)
  {
    StepEffect(st, line);
  }

  // ---------------------------------------------------------------------------
  // Item order

  /** The items of the item lines among `lines`, in line order. */
  function LineItems(lines: seq<string>): seq<Item> {
    if |lines| == 0 then []
    else
      match Classify(lines[0])
      case ItemLine(it) => [it] + LineItems(lines[1..])
      case _ => LineItems(lines[1..])
  }

  lemma {:induction false} ItemsAppendedCompose(
    a: seq<Department>, b: seq<Department>, c: seq<Department>, cur: Cursor, x: seq<Item>, y: seq<Item>)
    requires ItemsAppended(a, b, cur, x) && ItemsAppended(b, c, cur, y)
    ensures ItemsAppended(a, c, cur, x + y)
  {
    forall i, j | 0 <= i < |a| && 0 <= j < |a[i].subDepartments|
      ensures c[i].subDepartments[j].items ==
        a[i].subDepartments[j].items + (if i == cur.dept && j == cur.sub then x + y else [])
    {
      if i == cur.dept && j == cur.sub {
        assert c[i].subDepartments[j].items == a[i].subDepartments[j].items + x + y;
      }
    }
  }

  lemma ItemsAppendedNone(a: seq<Department>, cur: Cursor)
    ensures ItemsAppended(a, a, cur, [])
  {
  }

  /** Under a cursor, and as long as no header intervenes, every item line's
      item is appended to the current sub-department in line order, and
      nothing else changes. */
  lemma {:induction false} ItemsInLineOrder(st: ParseState, lines: seq<string>)
    requires Valid(st) && st.current.Some?
    requires NoHeader(lines)
    ensures RunFrom(st, lines).current == st.current
    ensures ItemsAppended(st.depts, RunFrom(st, lines).depts, st.current.value, LineItems(lines))
    decreases |lines|
  {
    if |lines| == 0 {
      ItemsAppendedNone(st.depts, st.current.value);
    } else {
      var s1 := Step(st, lines[0]);
      StepEffect(st, lines[0]);
      assert !Classify(lines[0]).Header?;
      assert NoHeader(lines[1..]);
      ItemsInLineOrder(s1, lines[1..]);
      var first := if Classify(lines[0]).ItemLine? then [Classify(lines[0]).item] else [];
      if !Classify(lines[0]).ItemLine? {
        ItemsAppendedNone(st.depts, st.current.value);
      }
      assert ItemsAppended(st.depts, s1.depts, st.current.value, first);
      ItemsAppendedCompose(st.depts, s1.depts, RunFrom(s1, lines[1..]).depts, st.current.value,
        first, LineItems(lines[1..]));
      assert first + LineItems(lines[1..]) == LineItems(lines);
    }
  }

  // ---------------------------------------------------------------------------
  // Which (department, sub-department) pairs are reported

  /** The (department code, sub-department code) pairs a hierarchy holds. */
  ghost function Pairs(ds: seq<Department>): set<(string, string)> {
    set i, j | 0 <= i < |ds| && 0 <= j < |ds[i].subDepartments| ::
      (ds[i].deptNumber, ds[i].subDepartments[j].subDeptNumber)
  }

  /** The pair a line's matched header names, if it is one. */
  function HeaderPair(line: string): set<(string, string)> {
    match Classify(line)
    case Header(c) => {(c.deptNum, c.subDeptNum)}
    case _ => {}
  }

  function HeaderPairs(lines: seq<string>): set<(string, string)> {
    if |lines| == 0 then {} else HeaderPair(lines[0]) + HeaderPairs(lines[1..])
  }

  lemma PairAt(ds: seq<Department>, i: nat, j: nat)
    requires i < |ds| && j < |ds[i].subDepartments|
    ensures (ds[i].deptNumber, ds[i].subDepartments[j].subDeptNumber) in Pairs(ds)
  {
  }

  lemma PairIndex(ds: seq<Department>, p: (string, string)) returns (i: nat, j: nat)
    requires p in Pairs(ds)
    ensures i < |ds| && j < |ds[i].subDepartments|
    ensures p == (ds[i].deptNumber, ds[i].subDepartments[j].subDeptNumber)
  {
    i, j :| 0 <= i < |ds| && 0 <= j < |ds[i].subDepartments|
      && p == (ds[i].deptNumber, ds[i].subDepartments[j].subDeptNumber);
  }

  /** Two hierarchies with the same codes in the same places hold the same
      pairs. */
  lemma SameCodesSamePairs(a: seq<Department>, b: seq<Department>)
    requires |a| == |b|
    requires forall i | 0 <= i < |a| ::
      && a[i].deptNumber == b[i].deptNumber
      && |a[i].subDepartments| == |b[i].subDepartments|
      && forall j | 0 <= j < |a[i].subDepartments| ::
        a[i].subDepartments[j].subDeptNumber == b[i].subDepartments[j].subDeptNumber
    ensures Pairs(a) == Pairs(b)
  {
    forall p | p in Pairs(a) ensures p in Pairs(b) {
      var i, j := PairIndex(a, p);
      PairAt(b, i, j);
    }
    forall p | p in Pairs(b) ensures p in Pairs(a) {
      var i, j := PairIndex(b, p);
      PairAt(a, i, j);
    }
  }

  /** A header adds its pair and no other. */
  lemma EnterPairs(st: ParseState, c: DeptCaptures)
    requires Valid(st) && IsCode(c.deptNum) && IsCode(c.subDeptNum)
    ensures Pairs(Enter(st, c).depts) == Pairs(st.depts) + {(c.deptNum, c.subDeptNum)}
  {
    var r := Enter(st, c);
    var a := st.depts;
    var pair := (c.deptNum, c.subDeptNum);
    var cur := r.current.value;
    PairAt(r.depts, cur.dept, cur.sub);
    forall p | p in Pairs(a) ensures p in Pairs(r.depts) {
      var i, j := PairIndex(a, p);
      assert DeptExtends(a[i], r.depts[i]);
      assert SubExtends(a[i].subDepartments[j], r.depts[i].subDepartments[j]);
      PairAt(r.depts, i, j);
    }
    forall p | p in Pairs(r.depts) ensures p in Pairs(a) || p == pair {
      var i, j := PairIndex(r.depts, p);
      if i < |a| && j < |a[i].subDepartments| {
        assert DeptExtends(a[i], r.depts[i]);
        assert SubExtends(a[i].subDepartments[j], r.depts[i].subDepartments[j]);
        PairAt(a, i, j);
      } else {
        EnterAddsOnlyAtCursor(st, c, i, j);
      }
    }
  }

  /** Anything `Enter` adds is at the cursor it sets. */
  lemma EnterAddsOnlyAtCursor(st: ParseState, c: DeptCaptures, i: nat, j: nat)
    requires Valid(st) && IsCode(c.deptNum) && IsCode(c.subDeptNum)
    requires var r := Enter(st, c); i < |r.depts| && j < |r.depts[i].subDepartments|
    requires !(i < |st.depts| && j < |st.depts[i].subDepartments|)
    ensures var r := Enter(st, c);
      (r.depts[i].deptNumber, r.depts[i].subDepartments[j].subDeptNumber) == (c.deptNum, c.subDeptNum)
  {
  }

  /** One step adds exactly the pair of the header it reads, if any. */
  lemma StepPairs(st: ParseState, line: string)
    requires Valid(st)
    ensures Pairs(Step(st, line).depts) == Pairs(st.depts) + HeaderPair(line)
  {
    var k := Classify(line);
    StepEffect(st, line);
    if k.Header? {
      EnterPairs(st, k.c);
    } else if k.ItemLine? && st.current.Some? {
      var r := Step(st, line);
      assert ItemsAppended(st.depts, r.depts, st.current.value, [k.item]);
      SameCodesSamePairs(st.depts, r.depts);
    }
  }

  /** The loop reports exactly the pairs of the headers it read. */
  lemma {:induction false} RunPairs(st: ParseState, lines: seq<string>)
    requires Valid(st)
    ensures Pairs(RunFrom(st, lines).depts) == Pairs(st.depts) + HeaderPairs(lines)
    decreases |lines|
  {
    if |lines| > 0 {
      StepPairs(st, lines[0]);
      RunPairs(Step(st, lines[0]), lines[1..]);
    }
  }

  /** Sorting neither adds nor loses a pair. */
  lemma FinalizePairs(ds: seq<Department>)
    requires WellFormed(ds)
    ensures Pairs(Finalize(ds)) == Pairs(ds)
  {
    forall p | p in Pairs(ds) ensures p in Pairs(Finalize(ds)) {
      FinalizeKeepsPair(ds, p);
    }
    forall p | p in Pairs(Finalize(ds)) ensures p in Pairs(ds) {
      FinalizeAddsNoPair(ds, p);
    }
  }

  lemma FinalizeKeepsPair(ds: seq<Department>, p: (string, string))
    requires WellFormed(ds) && p in Pairs(ds)
    ensures p in Pairs(Finalize(ds))
  {
    var r := Finalize(ds);
    var i, j := PairIndex(ds, p);
    var k := FinalizeTarget(ds, i);
    var sd := ds[i].subDepartments[j];
    assert sd in multiset(r[k].subDepartments);
    var j' :| 0 <= j' < |r[k].subDepartments| && r[k].subDepartments[j'] == sd;
    PairAt(r, k, j');
  }

  /** Where a department ends up in the sorted result. */
  lemma FinalizeTarget(ds: seq<Department>, i: nat) returns (k: nat)
    requires WellFormed(ds) && i < |ds|
    ensures k < |Finalize(ds)| && Finalize(ds)[k] == SortSubs(ds[i])
  {
    var sorted := SortBy(ds, DeptKey);
    assert ds[i] in multiset(sorted);
    k :| 0 <= k < |sorted| && sorted[k] == ds[i];
    assert Finalize(ds)[k] == SortSubs(sorted[k]);
  }

  lemma FinalizeAddsNoPair(ds: seq<Department>, p: (string, string))
    requires WellFormed(ds) && p in Pairs(Finalize(ds))
    ensures p in Pairs(ds)
  {
    var r := Finalize(ds);
    var k, j := PairIndex(r, p);
    var i := FinalizeSource(ds, k);
    var sd := r[k].subDepartments[j];
    assert sd in multiset(ds[i].subDepartments);
    var j' :| 0 <= j' < |ds[i].subDepartments| && ds[i].subDepartments[j'] == sd;
    PairAt(ds, i, j');
  }

  /** Where a department of the sorted result came from. */
  lemma FinalizeSource(ds: seq<Department>, k: nat) returns (i: nat)
    requires WellFormed(ds) && k < |Finalize(ds)|
    ensures i < |ds| && Finalize(ds)[k] == SortSubs(ds[i])
  {
    var sorted := SortBy(ds, DeptKey);
    assert Finalize(ds)[k] == SortSubs(sorted[k]);
    assert sorted[k] in multiset(ds);
    i :| 0 <= i < |ds| && ds[i] == sorted[k];
  }

  /** The report's departments and sub-departments are exactly those named by
      its matched header lines: none is invented and none is lost. */
  lemma ParsePairs(text: string)
    ensures Pairs(ParseWorksheetData(text)) == HeaderPairs(Split(text, '\n'))
  {
    var lines := Split(text, '\n');
    RunPairs(Start, lines);
    FinalizePairs(RunFrom(Start, lines).depts);
  }

  // ---------------------------------------------------------------------------
  // First sight wins (src/components/WorksheetParser.tsx:58-85)

  /** A header that introduces a department names it; one that introduces a
      sub-department names that. */
  lemma EnterNames(st: ParseState, c: DeptCaptures)
    requires Valid(st) && IsCode(c.deptNum) && IsCode(c.subDeptNum)
    ensures var r := Enter(st, c); var cur := r.current.value;
      && ((forall i | 0 <= i < |st.depts| :: st.depts[i].deptNumber != c.deptNum) ==>
          r.depts[cur.dept].deptName == Trim(c.deptName))
      && ((c.deptNum, c.subDeptNum) !in Pairs(st.depts) ==>
          r.depts[cur.dept].subDepartments[cur.sub].subDeptName == Trim(c.subDeptName))
  {
    match FindBy(st.depts, DeptKey, c.deptNum)
    case None =>
    case Some(i) =>
      match FindBy(st.depts[i].subDepartments, SubKey, c.subDeptNum)
      case None =>
      case Some(j) => PairAt(st.depts, i, j);
  }

  /** The run over `lines`, split at line `k`: the state after `lines[..k]`,
      then `lines[k]`, then the rest of the report. */
  lemma Decompose(lines: seq<string>, k: nat)
    requires k < |lines|
    ensures RunFrom(Start, lines) == RunFrom(Step(RunFrom(Start, lines[..k]), lines[k]), lines[k + 1..])
  {
    var s := RunFrom(Start, lines[..k]);
    var tail := lines[k..];
    RunSplit(Start, lines, k);
    assert tail[0] == lines[k] && tail[1..] == lines[k + 1..];
    RunFromCons(s, tail);
  }

  /** Running over `lines` is running over its first `k` lines, then over the
      rest. */
  lemma RunSplit(st: ParseState, lines: seq<string>, k: nat)
    requires Valid(st) && k <= |lines|
    ensures RunFrom(st, lines) == RunFrom(RunFrom(st, lines[..k]), lines[k..])
  {
    assert lines[..k] + lines[k..] == lines;
    RunFromAppend(st, lines[..k], lines[k..]);
  }

  lemma RunFromCons(st: ParseState, lines: seq<string>)
    requires Valid(st) && |lines| > 0
    ensures RunFrom(st, lines) == RunFrom(Step(st, lines[0]), lines[1..])
  {
  }

  /** A pair set with no pair for department `n`. */
  predicate NoDeptIn(ps: set<(string, string)>, n: string) {
    forall p | p in ps :: p.0 != n
  }

  lemma AbsentDept(ds: seq<Department>, n: string)
    requires WellFormed(ds) && NoDeptIn(Pairs(ds), n)
    ensures forall i | 0 <= i < |ds| :: ds[i].deptNumber != n
  {
    forall i | 0 <= i < |ds| ensures ds[i].deptNumber != n {
      assert ds[i] in ds;
      PairAt(ds, i, 0);
    }
  }

  /** The department a report lists under code `c.deptNum` carries the name
      of the first header line with that code, trimmed: later headers with the
      same code never rename it. */
  lemma FirstDeptNameWins(text: string, k: nat, c: DeptCaptures)
    requires k < |Split(text, '\n')|
    requires Classify(Split(text, '\n')[k]) == Header(c)
    requires NoDeptIn(HeaderPairs(Split(text, '\n')[..k]), c.deptNum)
    ensures exists d | d in ParseWorksheetData(text) :: d.deptNumber == c.deptNum
    ensures forall d | d in ParseWorksheetData(text) && d.deptNumber == c.deptNum ::
      d.deptName == Trim(c.deptName)
  {
    var lines := Split(text, '\n');
    var s0 := RunFrom(Start, lines[..k]);
    RunPairs(Start, lines[..k]);
    AbsentDept(s0.depts, c.deptNum);
    var s1 := Step(s0, lines[k]);
    EnterNames(s0, c);
    var cur := s1.current.value;
    var fin := RunFrom(Start, lines).depts;
    Decompose(lines, k);
    assert Extends(s1.depts, fin);
    assert DeptExtends(s1.depts[cur.dept], fin[cur.dept]);
    FinalName(fin, cur.dept);
  }

  /** After sorting, the department with code `fin[i].deptNumber` is
      `fin[i]` with its sub-departments reordered. */
  lemma FinalName(fin: seq<Department>, i: nat)
    requires WellFormed(fin) && i < |fin|
    ensures SortSubs(fin[i]) in Finalize(fin)
    ensures forall d | d in Finalize(fin) && d.deptNumber == fin[i].deptNumber :: d == SortSubs(fin[i])
  {
    assert fin[i] in fin;
    forall d | d in Finalize(fin) && d.deptNumber == fin[i].deptNumber ensures d == SortSubs(fin[i]) {
      var e :| e in fin && d == SortSubs(e);
      var m :| 0 <= m < |fin| && fin[m] == e;
      assert DeptKey(fin[m]) == DeptKey(fin[i]);
    }
  }

  /** Likewise for sub-departments: the sub-department listed under a
      department and sub-department code pair carries the name of the first
      header line naming that pair, trimmed. */
  lemma FirstSubNameWins(text: string, k: nat, c: DeptCaptures)
    requires k < |Split(text, '\n')|
    requires Classify(Split(text, '\n')[k]) == Header(c)
    requires (c.deptNum, c.subDeptNum) !in HeaderPairs(Split(text, '\n')[..k])
    ensures (c.deptNum, c.subDeptNum) in Pairs(ParseWorksheetData(text))
    ensures forall d, sd | d in ParseWorksheetData(text) && sd in d.subDepartments
      && d.deptNumber == c.deptNum && sd.subDeptNumber == c.subDeptNum ::
      sd.subDeptName == Trim(c.subDeptName)
  {
    var lines := Split(text, '\n');
    var s0 := RunFrom(Start, lines[..k]);
    RunPairs(Start, lines[..k]);
    var s1 := Step(s0, lines[k]);
    EnterNames(s0, c);
    var cur := s1.current.value;
    var fin := RunFrom(Start, lines).depts;
    Decompose(lines, k);
    assert Extends(s1.depts, fin);
    assert DeptExtends(s1.depts[cur.dept], fin[cur.dept]);
    assert SubExtends(s1.depts[cur.dept].subDepartments[cur.sub], fin[cur.dept].subDepartments[cur.sub]);
    FinalName(fin, cur.dept);
    FinalSubName(fin, cur.dept, cur.sub);
    ParsePairs(text);
    RunPairs(Start, lines);
    PairAt(fin, cur.dept, cur.sub);
  }

  lemma FinalSubName(fin: seq<Department>, i: nat, j: nat)
    requires WellFormed(fin) && i < |fin| && j < |fin[i].subDepartments|
    requires forall d | d in Finalize(fin) && d.deptNumber == fin[i].deptNumber :: d == SortSubs(fin[i])
    ensures forall d, sd | d in Finalize(fin) && sd in d.subDepartments
      && d.deptNumber == fin[i].deptNumber && sd.subDeptNumber == fin[i].subDepartments[j].subDeptNumber ::
      sd == fin[i].subDepartments[j]
  {
    assert fin[i] in fin;
    var subs := fin[i].subDepartments;
    assert DistinctKeys(subs, SubKey);
    forall d, sd | d in Finalize(fin) && sd in d.subDepartments
      && d.deptNumber == fin[i].deptNumber && sd.subDeptNumber == subs[j].subDeptNumber
      ensures sd == subs[j]
    {
      SameKeySameSub(subs, SortSubs(fin[i]).subDepartments, sd, j);
    }
  }

  lemma SameKeySameSub(subs: seq<SubDepartment>, sorted: seq<SubDepartment>, sd: SubDepartment, j: nat)
    requires DistinctKeys(subs, SubKey) && multiset(sorted) == multiset(subs)
    requires j < |subs| && sd in sorted && sd.subDeptNumber == subs[j].subDeptNumber
    ensures sd == subs[j]
  {
    assert sd in multiset(sorted);
    var m :| 0 <= m < |subs| && subs[m] == sd;
    assert SubKey(subs[m]) == SubKey(subs[j]);
  }
}
