/** Where the items of `parseWorksheetData` end up
    (src/components/WorksheetParser.tsx:55-113), stated against a reference
    that reads the report directly: an item row belongs to the department and
    sub-department named by the last matched header above it. Item rows above
    every header belong to nothing and are dropped, and the rows under two
    headers naming the same pair are merged in report order. */
module WorksheetItems {
  import opened Wrappers
  import opened Text
  import opened Keyed
  import opened Worksheet
  import opened WorksheetFacts

  /** A (department code, sub-department code) pair. */
  type Pair = (string, string)

  // ---------------------------------------------------------------------------
  // The reference, read off the lines alone

  /** The pair named by the last matched header, once `line` has been read. */
  function NextPair(line: string, cur: Option<Pair>): Option<Pair> {
    match Classify(line)
    case Header(c) => Some((c.deptNum, c.subDeptNum))
    case _ => cur
  }

  /** What `line` contributes to pair `p` when the last header named `cur`. */
  function LineContribution(line: string, cur: Option<Pair>, p: Pair): seq<Item> {
    match Classify(line)
    case ItemLine(it) => if cur == Some(p) then [it] else []
    case _ => []
  }

  /** The items of the item rows of `lines` that lie under a header naming `p`,
      in report order, when the last header before `lines` named `cur`. */
  function ItemsUnder(lines: seq<string>, cur: Option<Pair>, p: Pair): seq<Item>
    decreases |lines|
  {
    if |lines| == 0 then []
    else LineContribution(lines[0], cur, p) + ItemsUnder(lines[1..], NextPair(lines[0], cur), p)
  }

  /** The items a report files under pair `p`. */
  function ItemsFor(lines: seq<string>, p: Pair): seq<Item> {
    ItemsUnder(lines, None, p)
  }

  /** A pair that no header names collects no item. */
  lemma {:induction false} UnnamedPairEmpty(lines: seq<string>, cur: Option<Pair>, p: Pair)
    requires cur != Some(p) && p !in HeaderPairs(lines)
    ensures ItemsUnder(lines, cur, p) == []
    decreases |lines|
  {
    if |lines| > 0 {
      assert HeaderPairs(lines) == HeaderPair(lines[0]) + HeaderPairs(lines[1..]);
      UnnamedPairEmpty(lines[1..], NextPair(lines[0], cur), p);
    }
  }

  // ---------------------------------------------------------------------------
  // The same question asked of a parse state

  /** The items the hierarchy holds under pair `p`: those of the
      sub-department with that pair, or none when there is no such
      sub-department. */
  function ItemsAt(ds: seq<Department>, p: Pair): seq<Item> {
    match FindBy(ds, DeptKey, p.0)
    case None => []
    case Some(i) =>
      match FindBy(ds[i].subDepartments, SubKey, p.1)
      case None => []
      case Some(j) => ds[i].subDepartments[j].items
  }

  function PairOf(ds: seq<Department>, i: nat, j: nat): Pair
    requires i < |ds| && j < |ds[i].subDepartments|
  {
    (ds[i].deptNumber, ds[i].subDepartments[j].subDeptNumber)
  }

  /** The pair the cursor points at, if it is set. */
  function CursorPair(st: ParseState): Option<Pair> {
    match st.current
    case None => None
    case Some(c) => if CursorIn(st.depts, c) then Some(PairOf(st.depts, c.dept, c.sub)) else None
  }

  /** In a well-formed hierarchy a pair names at most one sub-department. */
  lemma PairUnique(ds: seq<Department>, i: nat, j: nat, i': nat, j': nat)
    requires WellFormed(ds)
    requires i < |ds| && j < |ds[i].subDepartments| && i' < |ds| && j' < |ds[i'].subDepartments|
    requires PairOf(ds, i, j) == PairOf(ds, i', j')
    ensures i == i' && j == j'
  {
    assert DeptKey(ds[i]) == DeptKey(ds[i']);
    assert ds[i] in ds;
    assert SubKey(ds[i].subDepartments[j]) == SubKey(ds[i].subDepartments[j']);
  }

  /** `ItemsAt` finds the sub-department a pair names, and nothing for a pair
      the hierarchy does not hold. */
  lemma ItemsAtIs(ds: seq<Department>, p: Pair)
    requires WellFormed(ds)
    ensures p !in Pairs(ds) ==> ItemsAt(ds, p) == []
    ensures forall i, j | 0 <= i < |ds| && 0 <= j < |ds[i].subDepartments| && PairOf(ds, i, j) == p ::
      ItemsAt(ds, p) == ds[i].subDepartments[j].items
  {
    match FindBy(ds, DeptKey, p.0)
    case None =>
    case Some(i) =>
      match FindBy(ds[i].subDepartments, SubKey, p.1)
      case None =>
        forall i', j' | 0 <= i' < |ds| && 0 <= j' < |ds[i'].subDepartments| && PairOf(ds, i', j') == p
          ensures i' == i
        {
          assert DeptKey(ds[i']) == DeptKey(ds[i]);
        }
      case Some(j) =>
        PairAt(ds, i, j);
        forall i', j' | 0 <= i' < |ds| && 0 <= j' < |ds[i'].subDepartments| && PairOf(ds, i', j') == p
          ensures i' == i && j' == j
        {
          PairUnique(ds, i, j, i', j');
        }
  }

  lemma ItemsAtEmpty(p: Pair)
    ensures ItemsAt([], p) == []
  {
  }

  // ---------------------------------------------------------------------------
  // One step, then the whole loop

  /** A pair held before a hierarchy grew is held at the same place after. */
  lemma ExtendsKeepsPair(a: seq<Department>, b: seq<Department>, i: nat, j: nat)
    requires Extends(a, b) && i < |a| && j < |a[i].subDepartments|
    ensures j < |b[i].subDepartments| && PairOf(b, i, j) == PairOf(a, i, j)
    ensures b[i].subDepartments[j].items[..|a[i].subDepartments[j].items|] == a[i].subDepartments[j].items
  {
    assert DeptExtends(a[i], b[i]);
    assert SubExtends(a[i].subDepartments[j], b[i].subDepartments[j]);
  }

  /** When `b` extends `a`, a pair of `a` sits in `b` only at its old place. */
  lemma OldPairOldPlace(a: seq<Department>, b: seq<Department>, i: nat, j: nat)
    requires WellFormed(b) && Extends(a, b) && i < |b| && j < |b[i].subDepartments|
    ensures PairOf(b, i, j) in Pairs(a) ==> i < |a| && j < |a[i].subDepartments|
  {
    var p := PairOf(b, i, j);
    if p in Pairs(a) {
      var i', j' := PairIndex(a, p);
      ExtendsKeepsPair(a, b, i', j');
      PairUnique(b, i, j, i', j');
    }
  }

  /** A header adds no item anywhere. */
  lemma NoItemsAddedSameItems(a: seq<Department>, b: seq<Department>, p: Pair)
    requires WellFormed(a) && WellFormed(b) && Extends(a, b) && NoItemsAdded(a, b)
    ensures ItemsAt(b, p) == ItemsAt(a, p)
  {
    ItemsAtIs(a, p);
    ItemsAtIs(b, p);
    if p in Pairs(b) {
      var i, j := PairIndex(b, p);
      OldPairOldPlace(a, b, i, j);
      if i < |a| && j < |a[i].subDepartments| {
        ExtendsKeepsPair(a, b, i, j);
      }
    } else if p in Pairs(a) {
      var i, j := PairIndex(a, p);
      ExtendsKeepsPair(a, b, i, j);
      PairAt(b, i, j);
    }
  }

  /** An item appended at the cursor lands under the cursor's pair and under
      no other. */
  lemma AppendedSameItems(a: seq<Department>, b: seq<Department>, c: Cursor, its: seq<Item>, p: Pair)
    requires WellFormed(a) && WellFormed(b) && CursorIn(a, c) && ItemsAppended(a, b, c, its)
    ensures ItemsAt(b, p) == ItemsAt(a, p) + (if p == PairOf(a, c.dept, c.sub) then its else [])
  {
    ItemsAtIs(a, p);
    ItemsAtIs(b, p);
    SameCodesSamePairs(a, b);
    PairAt(a, c.dept, c.sub);
    if p in Pairs(a) {
      var i, j := PairIndex(a, p);
      assert PairOf(b, i, j) == p;
      if p == PairOf(a, c.dept, c.sub) {
        PairUnique(a, i, j, c.dept, c.sub);
      }
    }
  }

  /** One line moves the cursor's pair as `NextPair` says. */
  lemma StepCursorPair(st: ParseState, line: string)
    requires Valid(st)
    ensures CursorPair(Step(st, line)) == NextPair(line, CursorPair(st))
  {
    var r := Step(st, line);
    StepEffect(st, line);
    if !Classify(line).Header? && Classify(line).ItemLine? && st.current.Some? {
      var cur := st.current.value;
      assert ItemsAppended(st.depts, r.depts, cur, [Classify(line).item]);
      assert PairOf(r.depts, cur.dept, cur.sub) == PairOf(st.depts, cur.dept, cur.sub);
    }
  }

  /** One line adds to pair `p` what `LineContribution` says. */
  lemma StepItems(st: ParseState, line: string, p: Pair)
    requires Valid(st)
    ensures ItemsAt(Step(st, line).depts, p) == ItemsAt(st.depts, p) + LineContribution(line, CursorPair(st), p)
  {
    var r := Step(st, line);
    var k := Classify(line);
    StepEffect(st, line);
    if k.Header? {
      NoItemsAddedSameItems(st.depts, r.depts, p);
    } else if k.ItemLine? && st.current.Some? {
      var cur := st.current.value;
      AppendedSameItems(st.depts, r.depts, cur, [k.item], p);
    }
    if !(k.ItemLine? && CursorPair(st) == Some(p)) {
      assert LineContribution(line, CursorPair(st), p) == [];
      ConcatEmpty(ItemsAt(st.depts, p));
    }
  }

  /** The loop adds to each pair exactly the reference's items for it. */
  lemma {:induction false} RunItems(st: ParseState, lines: seq<string>, p: Pair)
    requires Valid(st)
    ensures ItemsAt(RunFrom(st, lines).depts, p) == ItemsAt(st.depts, p) + ItemsUnder(lines, CursorPair(st), p)
    decreases |lines|
  {
    if |lines| == 0 {
      assert ItemsAt(st.depts, p) + [] == ItemsAt(st.depts, p);
    } else {
      var s1 := Step(st, lines[0]);
      RunFromCons(st, lines);
      StepItems(st, lines[0], p);
      StepCursorPair(st, lines[0]);
      RunItems(s1, lines[1..], p);
      var x := ItemsAt(st.depts, p);
      var y := LineContribution(lines[0], CursorPair(st), p);
      var z := ItemsUnder(lines[1..], CursorPair(s1), p);
      assert ItemsUnder(lines, CursorPair(st), p) == y + z;
      assert ItemsAt(RunFrom(st, lines).depts, p) == (x + y) + z;
      ConcatAssoc(x, y, z);
    }
  }

  lemma ConcatEmpty(x: seq<Item>)
    ensures x + [] == x && [] + x == x
  {
  }

  lemma ConcatAssoc(x: seq<Item>, y: seq<Item>, z: seq<Item>)
    ensures (x + y) + z == x + (y + z)
  {
  }

  /** A sub-department of the sorted result holds what its pair held before
      sorting. */
  lemma FinalizeItemsAt(ds: seq<Department>, d: Department, sd: SubDepartment)
    requires WellFormed(ds) && d in Finalize(ds) && sd in d.subDepartments
    ensures sd.items == ItemsAt(ds, (d.deptNumber, sd.subDeptNumber))
  {
    var i, j := FinalizeOrigin(ds, d, sd);
    ItemsAtIs(ds, (d.deptNumber, sd.subDeptNumber));
  }

  /** Where a sub-department of the sorted result sat before sorting. */
  lemma FinalizeOrigin(ds: seq<Department>, d: Department, sd: SubDepartment) returns (i: nat, j: nat)
    requires WellFormed(ds) && d in Finalize(ds) && sd in d.subDepartments
    ensures i < |ds| && j < |ds[i].subDepartments| && ds[i].subDepartments[j] == sd
    ensures PairOf(ds, i, j) == (d.deptNumber, sd.subDeptNumber)
  {
    var e :| e in ds && d == SortSubs(e);
    assert sd in multiset(e.subDepartments) by {
      assert sd in multiset(SortSubs(e).subDepartments);
    }
    i :| 0 <= i < |ds| && ds[i] == e;
    j :| 0 <= j < |e.subDepartments| && e.subDepartments[j] == sd;
  }

  /** Every sub-department of the parsed report holds exactly the items of the
      item rows under headers naming its pair, in report order. */
  lemma ParseItems(text: string)
    ensures forall d, sd | d in ParseWorksheetData(text) && sd in d.subDepartments ::
      sd.items == ItemsFor(Split(text, '\n'), (d.deptNumber, sd.subDeptNumber))
  {
    var lines := Split(text, '\n');
    forall d, sd | d in ParseWorksheetData(text) && sd in d.subDepartments
      ensures sd.items == ItemsFor(lines, (d.deptNumber, sd.subDeptNumber))
    {
      var p := (d.deptNumber, sd.subDeptNumber);
      FinalizeItemsAt(RunFrom(Start, lines).depts, d, sd);
      RunItems(Start, lines, p);
      ItemsAtEmpty(p);
      assert [] + ItemsFor(lines, p) == ItemsFor(lines, p);
    }
  }
}
