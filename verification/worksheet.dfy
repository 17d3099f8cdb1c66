/** `parseWorksheetData` of src/components/WorksheetParser.tsx: one pass over
    the report's lines that builds the department / sub-department / item
    hierarchy, followed by a sort of departments and sub-departments by code.

    The JavaScript keeps a `Map` from department code to department object and
    two references, the current department and sub-department, through which
    items are pushed. Here the departments are a sequence in first-seen order
    (the `Map`'s iteration order) and the references are indices into it. */
module Worksheet {
  import opened Wrappers
  import opened Text
  import opened Order
  import opened Keyed
  import opened DeptHeader
  import opened ItemRow
  import opened Icons

  // ---------------------------------------------------------------------------
  // Records (src/components/WorksheetParser.tsx:1-20)

  datatype Item = Item(sku: string, description: string, quantity: nat, icons: seq<string>, cartonQty: nat)

  datatype SubDepartment = SubDepartment(subDeptNumber: string, subDeptName: string, items: seq<Item>)

  datatype Department = Department(
    deptNumber: string,
    deptName: string,
    subDepartments: seq<SubDepartment>,
    isExpanded: bool)

  function DeptKey(d: Department): string { d.deptNumber }

  function SubKey(s: SubDepartment): string { s.subDeptNumber }

  /** What every item the parser builds looks like: a 6-digit SKU, a trimmed
      description, a quantity below 1000, a carton quantity below 10000 and an
      icon list that is `[""]` or single icon letters. */
  ghost predicate ValidItem(it: Item) {
    && |it.sku| == 6 && AllDigits(it.sku)
    && IsTrimmed(it.description)
    && it.quantity < 1000 && it.cartonQty < 10000
    && ValidIcons(it.icons)
  }

  ghost predicate GoodSub(sd: SubDepartment) {
    && IsCode(sd.subDeptNumber) && IsTrimmed(sd.subDeptName)
    && forall it | it in sd.items :: ValidItem(it)
  }

  ghost predicate GoodDept(d: Department) {
    && IsCode(d.deptNumber) && IsTrimmed(d.deptName) && !d.isExpanded
    && |d.subDepartments| >= 1
    && DistinctKeys(d.subDepartments, SubKey)
    && forall sd | sd in d.subDepartments :: GoodSub(sd)
  }

  /** The shape of every hierarchy the parser builds: distinct 3-digit
      department codes, each department with at least one sub-department,
      distinct 3-digit sub-department codes within a department, trimmed names,
      and valid items. */
  ghost predicate WellFormed(ds: seq<Department>) {
    && DistinctKeys(ds, DeptKey)
    && forall d | d in ds :: GoodDept(d)
  }

  // ---------------------------------------------------------------------------
  // Noise filter (src/components/WorksheetParser.tsx:37-47)

  /** A trimmed line the parser skips: empty, or containing one of the report's
      page-furniture markers. */
  predicate IsNoise(t: string) {
    || |t| == 0
    || Contains(t, "----")
    || Contains(t, "Page:")
    || Contains(t, "=\"")
    || Contains(t, "MERCHANDISE SKUs")
    || Contains(t, "Store Number:")
    || Contains(t, "Merch Code")
    || Contains(t, "Sku/Description")
    || Contains(t, "under 14 days supply")
    || Contains(t, "OPR241")
  }

  // ---------------------------------------------------------------------------
  // Items (src/components/WorksheetParser.tsx:95-105)

  /** The zero-padded SKU keeps the captured digits at its end and their
      numeric value. */
  lemma PaddedSku(s: string)
    requires 3 <= |s| <= 6 && AllDigits(s)
    ensures var p := PadStart(s, 6, '0');
      && |p| == 6 && AllDigits(p) && p[6 - |s|..] == s
      && (forall i | 0 <= i < 6 - |s| :: p[i] == '0')
      && DecimalValue(p) == DecimalValue(s)
  {
    var p := PadStart(s, 6, '0');
    var z := p[..6 - |s|];
    assert p == z + s;
    DecimalValueLeadingZeros(z, s);
  }

  lemma Pow10Small(k: nat)
    requires k <= 4
    ensures Pow10(k) <= Pow10(4) && (k <= 3 ==> Pow10(k) <= 1000)
  {
  }

  /** The item a matched row describes. */
  function BuildItem(c: RowCaptures): (it: Item)
    requires ValidRowCaptures(c)
    ensures ValidItem(it)
    ensures it.sku[6 - |c.sku|..] == c.sku && forall i | 0 <= i < 6 - |c.sku| :: it.sku[i] == '0'
    ensures DecimalValue(it.sku) == DecimalValue(c.sku)
    ensures it.quantity == DecimalValue(c.quantity) && it.cartonQty == DecimalValue(c.carton)
    ensures it.description == Trim(c.description)
    ensures c.icons.None? ==> it.icons == [""]
    ensures c.icons.Some? ==>
      && |it.icons| >= 1
      && (forall k | 0 <= k < |it.icons| :: |it.icons[k]| == 1 && IsIcon(it.icons[k][0]))
      && Concat(it.icons) == LettersFrom(c.icons.value, 0)
  {
    PaddedSku(c.sku);
    Pow10Small(|c.quantity|);
    Pow10Small(|c.carton|);
    IconsValid(c.icons);
    Item(PadStart(c.sku, 6, '0'), Trim(c.description), DecimalValue(c.quantity),
         IconsOf(c.icons), DecimalValue(c.carton))
  }

  // ---------------------------------------------------------------------------
  // Line classification (src/components/WorksheetParser.tsx:34-113)

  /** What one line is to the parser, decided on the trimmed line in the order
      the source tests it. */
  datatype LineKind =
    | Noise
    | Header(c: DeptCaptures)
    | BadHeader
    | ItemLine(item: Item)
    | Other

  /** The kind is decided by the trimmed line: noise first, then a line
      starting `Dept:` is a header exactly when the header pattern occurs in
      it (and carries the groups `t.match` reports); `ClassifyMatches` states
      the item-line case. */
  function Classify(line: string): (k: LineKind)
    ensures k.Noise? <==> IsNoise(Trim(line))
    ensures k.Header? || k.BadHeader? <==> !IsNoise(Trim(line)) && StartsAt(Trim(line), 0, "Dept:")
    ensures k.Header? ==> MatchDeptHeader(Trim(line)) == Some(k.c)
    ensures k.Header? ==> IsCode(k.c.deptNum) && IsCode(k.c.subDeptNum)
    ensures k.BadHeader? ==> forall p: nat, c :: !DeptShape(Trim(line), p, c)
    ensures k.ItemLine? ==> ValidItem(k.item)
  {
    var t := Trim(line);
    if IsNoise(t) then Noise
    else if StartsAt(t, 0, "Dept:") then
      match MatchDeptHeader(t)
      case None => BadHeader
      case Some(c) => Header(c)
    else
      match MatchItemRow(t)
      case None => Other
      case Some(c) => ItemLine(BuildItem(c))
  }

  /** The item-line half of the classification, against the item pattern's
      grammar: a line that is neither noise nor a `Dept:` line is an item line
      exactly when the pattern admits a parse of it, and its item is built
      from the groups of the parse the search finds. */
  lemma ClassifyMatches(line: string)
    ensures var t := Trim(line); var k := Classify(line);
      && (k.ItemLine? <==> !IsNoise(t) && !StartsAt(t, 0, "Dept:") && exists y :: RowLayout(t, y))
      && (k.ItemLine? ==> exists x ::
            && MatchRowSpans(t) == Some(x) && RowLayout(t, x)
            && ValidRowCaptures(RowCaptured(t, x))
            && k.item == BuildItem(RowCaptured(t, x)))
  {
    var t := Trim(line);
    if !IsNoise(t) && !StartsAt(t, 0, "Dept:") && MatchItemRow(t).Some? {
      var x := MatchRowSpans(t).value;
      MatchItemRowIs(t, x);
      RowCapturesValid(t, x);
    }
  }

  // ---------------------------------------------------------------------------
  // Parse state

  /** The current department and sub-department, as indices. */
  datatype Cursor = Cursor(dept: nat, sub: nat)

  datatype ParseState = ParseState(depts: seq<Department>, current: Option<Cursor>)

  const Start := ParseState([], None)

  predicate CursorIn(ds: seq<Department>, c: Cursor) {
    c.dept < |ds| && c.sub < |ds[c.dept].subDepartments|
  }

  /** The loop invariant: a well-formed hierarchy, and a cursor that is set
      exactly when some header has been seen and then points into it. */
  ghost predicate Valid(st: ParseState) {
    && WellFormed(st.depts)
    && (st.current.None? <==> |st.depts| == 0)
    && (st.current.Some? ==> CursorIn(st.depts, st.current.value))
  }

  /** `b` grew from `a` without renaming, reordering or dropping anything:
      every department and sub-department of `a` keeps its place, code and
      name, and every item list of `a` is a prefix of its counterpart. */
  ghost predicate Extends(a: seq<Department>, b: seq<Department>) {
    |a| <= |b| && forall i | 0 <= i < |a| :: DeptExtends(a[i], b[i])
  }

  ghost predicate DeptExtends(x: Department, y: Department) {
    && y.deptNumber == x.deptNumber && y.deptName == x.deptName && y.isExpanded == x.isExpanded
    && |x.subDepartments| <= |y.subDepartments|
    && forall j | 0 <= j < |x.subDepartments| :: SubExtends(x.subDepartments[j], y.subDepartments[j])
  }

  ghost predicate SubExtends(x: SubDepartment, y: SubDepartment) {
    y.subDeptNumber == x.subDeptNumber && y.subDeptName == x.subDeptName && x.items <= y.items
  }

  /** Item lists of `a` are unchanged in `b` and the sub-departments `b` adds
      are empty. */
  ghost predicate NoItemsAdded(a: seq<Department>, b: seq<Department>) {
    forall i, j | 0 <= i < |b| && 0 <= j < |b[i].subDepartments| ::
      b[i].subDepartments[j].items ==
        (if i < |a| && j < |a[i].subDepartments| then a[i].subDepartments[j].items else [])
  }

  /** `b` is `a` with `its` appended to the item list at `c` and nothing else
      changed. */
  ghost predicate ItemsAppended(a: seq<Department>, b: seq<Department>, c: Cursor, its: seq<Item>) {
    && |b| == |a|
    && forall i | 0 <= i < |a| ::
      && b[i].deptNumber == a[i].deptNumber && b[i].deptName == a[i].deptName
      && b[i].isExpanded == a[i].isExpanded
      && |b[i].subDepartments| == |a[i].subDepartments|
      && forall j | 0 <= j < |a[i].subDepartments| ::
        && b[i].subDepartments[j].subDeptNumber == a[i].subDepartments[j].subDeptNumber
        && b[i].subDepartments[j].subDeptName == a[i].subDepartments[j].subDeptName
        && b[i].subDepartments[j].items ==
           a[i].subDepartments[j].items + (if i == c.dept && j == c.sub then its else [])
  }

  lemma ExtendsReflexive(a: seq<Department>)
    ensures Extends(a, a)
  {
  }

  lemma ExtendsTransitive(a: seq<Department>, b: seq<Department>, c: seq<Department>)
    requires Extends(a, b) && Extends(b, c)
    ensures Extends(a, c)
  {
    forall i | 0 <= i < |a| ensures DeptExtends(a[i], c[i]) {
      assert DeptExtends(a[i], b[i]) && DeptExtends(b[i], c[i]);
      forall j | 0 <= j < |a[i].subDepartments|
        ensures SubExtends(a[i].subDepartments[j], c[i].subDepartments[j])
      {
        assert SubExtends(b[i].subDepartments[j], c[i].subDepartments[j]);
      }
    }
  }

  // ---------------------------------------------------------------------------
  // Department headers (src/components/WorksheetParser.tsx:55-85)

  /** A new department for a header, holding the header's sub-department. */
  function NewDept(c: DeptCaptures): Department {
    Department(c.deptNum, Trim(c.deptName), [NewSub(c)], false)
  }

  function NewSub(c: DeptCaptures): SubDepartment {
    SubDepartment(c.subDeptNum, Trim(c.subDeptName), [])
  }

  /** Find or create the header's department, then find or create its
      sub-department inside it, and make them current. Whatever was seen
      first keeps its name. */
  function Enter(st: ParseState, c: DeptCaptures): (r: ParseState)
    requires Valid(st) && IsCode(c.deptNum) && IsCode(c.subDeptNum)
    ensures Valid(r)
    ensures Extends(st.depts, r.depts) && NoItemsAdded(st.depts, r.depts)
    ensures r.current.Some?
    ensures r.depts[r.current.value.dept].deptNumber == c.deptNum
    ensures r.depts[r.current.value.dept].subDepartments[r.current.value.sub].subDeptNumber == c.subDeptNum
    ensures (exists i | 0 <= i < |st.depts| :: st.depts[i].deptNumber == c.deptNum) ==> |r.depts| == |st.depts|
    ensures (forall i | 0 <= i < |st.depts| :: st.depts[i].deptNumber != c.deptNum) ==>
      r.depts == st.depts + [NewDept(c)]
  {
    match FindBy(st.depts, DeptKey, c.deptNum)
    case None =>
      EnterNewDept(st, c);
      ParseState(st.depts + [NewDept(c)], Some(Cursor(|st.depts|, 0)))
    case Some(i) =>
      var subs := st.depts[i].subDepartments;
      match FindBy(subs, SubKey, c.subDeptNum)
      case Some(j) =>
        ExtendsReflexive(st.depts);
        ParseState(st.depts, Some(Cursor(i, j)))
      case None =>
        var d := st.depts[i].(subDepartments := subs + [NewSub(c)]);
        EnterNewSub(st, c, i);
        ParseState(st.depts[i := d], Some(Cursor(i, |subs|)))
  }

  lemma EnterNewDept(st: ParseState, c: DeptCaptures)
    requires Valid(st) && IsCode(c.deptNum) && IsCode(c.subDeptNum)
    requires forall i | 0 <= i < |st.depts| :: st.depts[i].deptNumber != c.deptNum
    ensures var ds := st.depts + [NewDept(c)];
      && WellFormed(ds) && Extends(st.depts, ds) && NoItemsAdded(st.depts, ds)
  {
    var ds := st.depts + [NewDept(c)];
    assert GoodDept(NewDept(c));
    forall d | d in ds ensures GoodDept(d) {
      if d != NewDept(c) {
        assert d in st.depts;
      }
    }
  }

  lemma EnterNewSub(st: ParseState, c: DeptCaptures, i: nat)
    requires Valid(st) && IsCode(c.deptNum) && IsCode(c.subDeptNum)
    requires i < |st.depts| && st.depts[i].deptNumber == c.deptNum
    requires forall j | 0 <= j < |st.depts[i].subDepartments| ::
      st.depts[i].subDepartments[j].subDeptNumber != c.subDeptNum
    ensures var subs := st.depts[i].subDepartments;
      var ds := st.depts[i := st.depts[i].(subDepartments := subs + [NewSub(c)])];
      && WellFormed(ds) && Extends(st.depts, ds) && NoItemsAdded(st.depts, ds)
  {
    var subs := st.depts[i].subDepartments;
    var d := st.depts[i].(subDepartments := subs + [NewSub(c)]);
    var ds := st.depts[i := d];
    assert st.depts[i] in st.depts;
    assert GoodDept(d) by {
      forall sd | sd in d.subDepartments ensures GoodSub(sd) {
        if sd != NewSub(c) {
          assert sd in subs;
        }
      }
    }
    forall e | e in ds ensures GoodDept(e) {
      var k :| 0 <= k < |ds| && ds[k] == e;
      if k != i {
        assert st.depts[k] in st.depts;
      }
    }
    assert DistinctKeys(ds, DeptKey) by {
      forall a, b | 0 <= a < b < |ds| ensures DeptKey(ds[a]) != DeptKey(ds[b]) {
        assert DeptKey(ds[a]) == DeptKey(st.depts[a]) && DeptKey(ds[b]) == DeptKey(st.depts[b]);
      }
    }
  }

  // ---------------------------------------------------------------------------
  // Items (src/components/WorksheetParser.tsx:107)

  /** Push `it` onto the current sub-department's items. */
  function AddItem(st: ParseState, it: Item): (r: ParseState)
    requires Valid(st) && st.current.Some? && ValidItem(it)
    ensures Valid(r)
    ensures r.current == st.current
    ensures Extends(st.depts, r.depts)
    ensures ItemsAppended(st.depts, r.depts, st.current.value, [it])
  {
    var c := st.current.value;
    var d := st.depts[c.dept];
    var sd := d.subDepartments[c.sub];
    var d' := d.(subDepartments := d.subDepartments[c.sub := sd.(items := sd.items + [it])]);
    AddItemKeepsShape(st, it);
    st.(depts := st.depts[c.dept := d'])
  }

  lemma AddItemKeepsShape(st: ParseState, it: Item)
    requires Valid(st) && st.current.Some? && ValidItem(it)
    ensures var c := st.current.value;
      var d := st.depts[c.dept];
      var sd := d.subDepartments[c.sub];
      var d' := d.(subDepartments := d.subDepartments[c.sub := sd.(items := sd.items + [it])]);
      var ds := st.depts[c.dept := d'];
      && WellFormed(ds) && Extends(st.depts, ds)
  {
    var c := st.current.value;
    var d := st.depts[c.dept];
    var sd := d.subDepartments[c.sub];
    var sd' := sd.(items := sd.items + [it]);
    var d' := d.(subDepartments := d.subDepartments[c.sub := sd']);
    var ds := st.depts[c.dept := d'];
    assert d in st.depts;
    assert sd in d.subDepartments;
    assert GoodSub(sd');
    assert GoodDept(d') by {
      forall x | x in d'.subDepartments ensures GoodSub(x) {
        var k :| 0 <= k < |d'.subDepartments| && d'.subDepartments[k] == x;
        if k != c.sub {
          assert d.subDepartments[k] in d.subDepartments;
        }
      }
      assert DistinctKeys(d'.subDepartments, SubKey) by {
        forall a, b | 0 <= a < b < |d'.subDepartments|
          ensures SubKey(d'.subDepartments[a]) != SubKey(d'.subDepartments[b])
        {
          assert SubKey(d'.subDepartments[a]) == SubKey(d.subDepartments[a]);
          assert SubKey(d'.subDepartments[b]) == SubKey(d.subDepartments[b]);
        }
      }
    }
    forall e | e in ds ensures GoodDept(e) {
      var k :| 0 <= k < |ds| && ds[k] == e;
      if k != c.dept {
        assert st.depts[k] in st.depts;
      }
    }
    assert DistinctKeys(ds, DeptKey) by {
      forall a, b | 0 <= a < b < |ds| ensures DeptKey(ds[a]) != DeptKey(ds[b]) {
        assert DeptKey(ds[a]) == DeptKey(st.depts[a]) && DeptKey(ds[b]) == DeptKey(st.depts[b]);
      }
    }
  }

  // ---------------------------------------------------------------------------
  // The line loop (src/components/WorksheetParser.tsx:29-114)

  /** One iteration of the loop: it keeps the invariant and only ever extends
      the hierarchy. */
  function Step(st: ParseState, line: string): (r: ParseState)
    requires Valid(st)
    ensures Valid(r)
    ensures Extends(st.depts, r.depts)
  {
    match Classify(line)
    case Header(c) => Enter(st, c)
    case ItemLine(it) => if st.current.Some? then AddItem(st, it) else st
    case _ => ExtendsReflexive(st.depts); st
  }

  /** What one line does: a header line moves the cursor (creating what it
      names) and adds no item; an item line seen under a cursor appends its
      item there and nothing else; every other line, including an item line
      before any header, leaves the state as it was. */
  lemma StepEffect(st: ParseState, line: string)
    requires Valid(st)
    ensures var r := Step(st, line);
      && (Classify(line).Header? ==> NoItemsAdded(st.depts, r.depts) && r.current.Some?)
      && (!Classify(line).Header? ==> r.current == st.current)
      && (Classify(line).ItemLine? && st.current.Some? ==>
          ItemsAppended(st.depts, r.depts, st.current.value, [Classify(line).item]))
      && (!Classify(line).Header? && !(Classify(line).ItemLine? && st.current.Some?) ==> r == st)
  {
  }

  /** The loop over `lines` from state `st`. */
  function RunFrom(st: ParseState, lines: seq<string>): (r: ParseState)
    requires Valid(st)
    ensures Valid(r)
    ensures Extends(st.depts, r.depts)
    decreases |lines|
  {
    if |lines| == 0 then ExtendsReflexive(st.depts); st
    else
      var s1 := Step(st, lines[0]);
      var r := RunFrom(s1, lines[1..]);
      ExtendsTransitive(st.depts, s1.depts, r.depts);
      r
  }

  // ---------------------------------------------------------------------------
  // Sorting (src/components/WorksheetParser.tsx:116-125)

  /** `dept.subDepartments.sort(...)` by sub-department code. */
  function SortSubs(d: Department): (r: Department)
    ensures r.deptNumber == d.deptNumber && r.deptName == d.deptName && r.isExpanded == d.isExpanded
    ensures multiset(r.subDepartments) == multiset(d.subDepartments)
    ensures SortedBy(r.subDepartments, SubKey)
    ensures GoodDept(d) ==> GoodDept(r)
  {
    var r := d.(subDepartments := SortBy(d.subDepartments, SubKey));
    SortSubsGood(d, r);
    r
  }

  lemma SortSubsGood(d: Department, r: Department)
    requires r == d.(subDepartments := SortBy(d.subDepartments, SubKey))
    ensures GoodDept(d) ==> GoodDept(r)
  {
    if GoodDept(d) {
      assert |multiset(r.subDepartments)| == |multiset(d.subDepartments)|;
      forall sd | sd in r.subDepartments ensures GoodSub(sd) {
        assert sd in multiset(r.subDepartments);
      }
    }
  }

  /** Departments sorted by code, then each department's sub-departments
      sorted by code. Every department of `ds` is in the result with its
      sub-departments reordered, and nothing else is. */
  function Finalize(ds: seq<Department>): (r: seq<Department>)
    requires WellFormed(ds)
    ensures WellFormed(r)
    ensures SortedBy(r, DeptKey)
    ensures forall i | 0 <= i < |r| :: SortedBy(r[i].subDepartments, SubKey)
    ensures |r| == |ds|
    ensures forall d | d in ds :: SortSubs(d) in r
    ensures forall e | e in r :: exists d | d in ds :: e == SortSubs(d)
  {
    var sorted := SortBy(ds, DeptKey);
    var r := seq(|sorted|, i requires 0 <= i < |sorted| => SortSubs(sorted[i]));
    FinalizeFacts(ds, sorted, r);
    r
  }

  lemma FinalizeFacts(ds: seq<Department>, sorted: seq<Department>, r: seq<Department>)
    requires WellFormed(ds) && sorted == SortBy(ds, DeptKey)
    requires |r| == |sorted| && forall i | 0 <= i < |r| :: r[i] == SortSubs(sorted[i])
    ensures WellFormed(r)
    ensures SortedBy(r, DeptKey)
    ensures |r| == |ds|
    ensures forall d | d in ds :: SortSubs(d) in r
    ensures forall e | e in r :: exists d | d in ds :: e == SortSubs(d)
  {
    assert |multiset(sorted)| == |multiset(ds)|;
    SortedInDs(ds, sorted);
    FinalizeShape(sorted, r);
    forall d | d in ds ensures SortSubs(d) in r {
      FinalizeHas(ds, sorted, r, d);
    }
    FinalizeFrom(ds, sorted, r);
  }

  lemma FinalizeFrom(ds: seq<Department>, sorted: seq<Department>, r: seq<Department>)
    requires forall i | 0 <= i < |sorted| :: sorted[i] in ds
    requires |r| == |sorted| && forall i | 0 <= i < |r| :: r[i] == SortSubs(sorted[i])
    ensures forall e | e in r :: exists d | d in ds :: e == SortSubs(d)
  {
    forall e | e in r ensures exists d | d in ds :: e == SortSubs(d) {
      var k :| 0 <= k < |r| && r[k] == e;
      assert sorted[k] in ds;
    }
  }

  lemma FinalizeHas(ds: seq<Department>, sorted: seq<Department>, r: seq<Department>, d: Department)
    requires multiset(sorted) == multiset(ds) && d in ds
    requires |r| == |sorted| && forall i | 0 <= i < |r| :: r[i] == SortSubs(sorted[i])
    ensures SortSubs(d) in r
  {
    assert d in multiset(sorted);
    var k :| 0 <= k < |sorted| && sorted[k] == d;
    assert r[k] == SortSubs(d);
  }

  lemma SortedInDs(ds: seq<Department>, sorted: seq<Department>)
    requires multiset(sorted) == multiset(ds)
    ensures forall i | 0 <= i < |sorted| :: sorted[i] in ds
  {
    forall i | 0 <= i < |sorted| ensures sorted[i] in ds {
      assert sorted[i] in multiset(sorted);
    }
  }

  lemma FinalizeShape(sorted: seq<Department>, r: seq<Department>)
    requires DistinctKeys(sorted, DeptKey) && SortedBy(sorted, DeptKey)
    requires forall d | d in sorted :: GoodDept(d)
    requires |r| == |sorted| && forall i | 0 <= i < |r| :: r[i] == SortSubs(sorted[i])
    ensures WellFormed(r) && SortedBy(r, DeptKey)
  {
    assert forall i | 0 <= i < |r| :: DeptKey(r[i]) == DeptKey(sorted[i]);
    forall e | e in r ensures GoodDept(e) {
      var k :| 0 <= k < |r| && r[k] == e;
      assert sorted[k] in sorted;
    }
  }

  /** `parseWorksheetData`: split the report into lines, run the loop from the
      empty state, then sort. */
  function ParseWorksheetData(text: string): (r: seq<Department>)
    ensures WellFormed(r)
    ensures SortedBy(r, DeptKey)
    ensures forall i | 0 <= i < |r| :: SortedBy(r[i].subDepartments, SubKey)
  {
    Finalize(RunFrom(Start, Split(text, '\n')).depts)
  }
}
