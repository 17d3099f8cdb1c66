/** Worked examples: single report lines run through the model, each stating
    what the parser produces for it. */
module Scenarios {
  import opened Wrappers
  import opened Text
  import opened Backtrack
  import opened DeptHeader
  import opened ItemRow
  import opened Keyed
  import opened Worksheet

  // ---------------------------------------------------------------------------
  // An item row with a short SKU and no icons: `123 WIDGET 5 2`.

  const Row: string := "123 WIDGET 5 2"

  lemma RowRuns()
    ensures SpanEnd(Row, 10, Space) == 11 && SpanEnd(Row, 11, Digit) == 12
    ensures SpanEnd(Row, 12, Space) == 13 && SpanEnd(Row, 13, Digit) == 14
  {
  }

  /** The tail after `WIDGET`: no icons, quantity `5`, cartons `2`. */
  lemma RowTail()
    ensures TailAt(Row, 10) == Some(TailSpans(None, 11, 12, 13, 14))
  {
    RowRuns();
    assert TrailerOk(Row, 14);
  }

  lemma NoEarlierTail()
    ensures forall r: nat :: 5 <= r < 10 ==> TailFn(Row)(r).None?
  {
    forall r: nat | 5 <= r < 10 ensures TailAt(Row, r).None? {
      assert IsUpper(Row[r]);
    }
  }

  /** The lazy description stops at the first place the tail fits. */
  lemma RowDescription()
    ensures Lazy(Row, 4, 1, false, TailFn(Row)) == Some((10, TailSpans(None, 11, 12, 13, 14)))
  {
    RowTail();
    assert SpanEnd(Row, 4, Dot) == 14;
    NoEarlierTail();
    FirstFromAt(TailFn(Row), 5, 14, 10);
  }

  lemma RowSpansExample()
    ensures MatchRowSpans(Row) == Some(RowSpans(3, 4, 10, TailSpans(None, 11, 12, 13, 14)))
  {
    assert SpanEnd(Row, 0, Digit) == 3;
    assert SpanEnd(Row, 3, Space) == 4;
    RowDescription();
    assert DescThenTail(Row)(4) == Some((10, TailSpans(None, 11, 12, 13, 14)));
  }

  lemma RowSlices()
    ensures Row[..3] == "123" && Row[4..10] == "WIDGET" && Row[11..12] == "5" && Row[13..14] == "2"
  {
    assert Row[..3] == "123" by {
      assert forall i | 0 <= i < 3 :: Row[..3][i] == "123"[i];
    }
    assert Row[4..10] == "WIDGET" by {
      assert forall i | 0 <= i < 6 :: Row[4..10][i] == "WIDGET"[i];
    }
    assert Row[11..12] == [Row[11]];
    assert Row[13..14] == [Row[13]];
  }

  /** The item pattern's groups for the row; the icon group does not take part. */
  lemma RowCapturesExample()
    ensures MatchItemRow(Row) == Some(RowCaptures("123", "WIDGET", None, "5", "2"))
  {
    var x := RowSpans(3, 4, 10, TailSpans(None, 11, 12, 13, 14));
    RowSpansExample();
    MatchItemRowIs(Row, x);
    RowSlices();
    assert RowCaptured(Row, x) == RowCaptures(Row[..3], Row[4..10], None, Row[11..12], Row[13..14]);
  }

  lemma SmallDecimals()
    ensures DecimalValue("5") == 5 && DecimalValue("2") == 2
  {
    assert "5"[..0] == "" && "2"[..0] == "";
  }

  /** The SKU is padded to `000123` and the absent icon group gives `[""]`. */
  lemma ShortSkuPadded()
    ensures ValidRowCaptures(RowCaptures("123", "WIDGET", None, "5", "2"))
    ensures BuildItem(RowCaptures("123", "WIDGET", None, "5", "2")) == Item("000123", "WIDGET", 5, [""], 2)
  {
    var c := RowCaptures("123", "WIDGET", None, "5", "2");
    assert AllDigits(c.sku) && AllDigits(c.quantity) && AllDigits(c.carton);
    assert Repeat('0', 3) == "000";
    assert PadStart("123", 6, '0') == "000123";
    TrimOfTrimmed("WIDGET");
    SmallDecimals();
  }

  lemma RowTrimmed()
    ensures Trim(Row) == Row
  {
    assert !IsWs(Row[0]) && !IsWs(Row[13]);
    TrimOfTrimmed(Row);
  }

  /** A non-empty line with none of the characters that start or occur in
      the noise markers is not noise. */
  lemma PlainLineNotNoise(t: string)
    requires |t| > 0 && '-' !in t && 'P' !in t && '=' !in t && 'M' !in t && 'S' !in t && 'u' !in t && 'O' !in t
    ensures !IsNoise(t)
  {
    MissingCharNotContained(t, "----", '-');
    MissingCharNotContained(t, "Page:", 'P');
    MissingCharNotContained(t, "=\"", '=');
    MissingCharNotContained(t, "MERCHANDISE SKUs", 'M');
    MissingCharNotContained(t, "Store Number:", 'S');
    MissingCharNotContained(t, "Merch Code", 'M');
    MissingCharNotContained(t, "Sku/Description", 'S');
    MissingCharNotContained(t, "under 14 days supply", 'u');
    MissingCharNotContained(t, "OPR241", 'O');
  }

  /** The row is not page furniture. */
  lemma RowNotNoise()
    ensures Trim(Row) == Row && !IsNoise(Row) && !StartsAt(Row, 0, "Dept:")
  {
    RowTrimmed();
    RowChars();
    PlainLineNotNoise(Row);
    assert Row[0] != "Dept:"[0];
  }

  lemma RowChars()
    ensures '-' !in Row && 'P' !in Row && '=' !in Row && 'M' !in Row && 'S' !in Row && 'u' !in Row && 'O' !in Row
    ensures '\n' !in Row
  {
    assert forall i | 0 <= i < |Row| ::
      Row[i] != '-' && Row[i] != 'P' && Row[i] != '=' && Row[i] != 'M' && Row[i] != 'S'
      && Row[i] != 'u' && Row[i] != 'O' && Row[i] != '\n';
  }

  /** The whole line classification: an item line with SKU `000123`. */
  lemma RowClassified()
    ensures Classify(Row) == ItemLine(Item("000123", "WIDGET", 5, [""], 2))
  {
    RowNotNoise();
    RowCapturesExample();
    ShortSkuPadded();
  }

  // ---------------------------------------------------------------------------
  // A department header: `Dept: 010 GROCERY Sub-Dept: 020 CANNED GOODS`.

  const DeptHalf: string := "Dept: 010 GROCERY "
  const SubHalf: string := "Sub-Dept: 020 CANNED GOODS"
  const HeaderLine: string := DeptHalf + SubHalf

  lemma Halves()
    ensures |DeptHalf| == 18 && |SubHalf| == 26 && |HeaderLine| == 44
    ensures HeaderLine[..18] == DeptHalf && HeaderLine[18..] == SubHalf
    ensures forall i | 0 <= i < 18 :: HeaderLine[i] == DeptHalf[i]
    ensures forall i | 18 <= i < 44 :: HeaderLine[i] == SubHalf[i - 18]
  {
  }

  lemma SubDeptPart()
    ensures SubDeptAt(HeaderLine, 18) == Some((28, 32))
  {
    SubDeptOpening();
    SubDeptClosing();
  }

  lemma SubDeptOpening()
    ensures StartsAt(HeaderLine, 18, "Sub-Dept:") && SpanEnd(HeaderLine, 27, Space) == 28
    ensures ThreeDigitsAt(HeaderLine, 28)
  {
    SubDeptMarker();
    SubCodeChars();
  }

  /** The characters around the sub-department code. */
  lemma SubCodeChars()
    ensures HeaderLine[27] == ' ' && HeaderLine[28] == '0' && HeaderLine[29] == '2' && HeaderLine[30] == '0'
    ensures HeaderLine[31] == ' ' && HeaderLine[32] == 'C'
  {
    Halves();
  }

  lemma SubDeptMarker()
    ensures StartsAt(HeaderLine, 18, "Sub-Dept:")
  {
    var t := HeaderLine;
    Halves();
    assert SubHalf[..9] == "Sub-Dept:";
    assert t[18..27] == SubHalf[..9];
  }

  lemma SubDeptClosing()
    ensures WsPlusThen(HeaderLine, 31, RestOfLine(HeaderLine)) == Some((32, (44, ())))
  {
    var t := HeaderLine;
    SubCodeChars();
    assert SpanEnd(t, 31, Space) == 32;
    GreedyToEnd(t, 32);
    assert RestOfLine(t)(32) == Some((44, ()));
  }

  lemma NoEarlierSubDept()
    ensures forall e: nat :: 10 <= e < 18 ==> SubDeptRest(HeaderLine)(e).None?
  {
    NameHasNoS();
    forall e: nat | 10 <= e < 18 ensures SubDeptAt(HeaderLine, e).None? {
      NotSubDeptAt(HeaderLine, e);
    }
  }

  lemma NameHasNoS()
    ensures forall i | 10 <= i < 18 :: HeaderLine[i] != 'S'
  {
    Halves();
    assert forall i | 10 <= i < 18 :: DeptHalf[i] != 'S';
  }

  lemma NotSubDeptAt(t: string, e: nat)
    requires e < |t| && t[e] != 'S'
    ensures SubDeptAt(t, e).None?
  {
  }

  lemma DeptNamePart()
    ensures Lazy(HeaderLine, 10, 0, true, SubDeptRest(HeaderLine)) == Some((18, (28, 32)))
  {
    SubDeptPart();
    NoEarlierSubDept();
    FirstFromAt(SubDeptRest(HeaderLine), 10, 44, 18);
  }

  lemma HeaderSpans()
    ensures MatchDeptAt(HeaderLine, 0) == Some(DeptSpans(6, 10, 18, 28, 32))
  {
    var t := HeaderLine;
    Halves();
    assert DeptHalf[..5] == "Dept:";
    assert t[..5] == DeptHalf[..5];
    assert SpanEnd(t, 5, Space) == 6;
    assert ThreeDigitsAt(t, 6);
    assert SpanEnd(t, 9, Space) == 10;
    DeptNamePart();
    assert NameThenSubDept(t)(10) == Some((18, (28, 32)));
  }

  lemma HeaderSlices()
    ensures HeaderLine[6..9] == "010" && HeaderLine[10..18] == "GROCERY "
    ensures HeaderLine[28..31] == "020" && HeaderLine[32..] == "CANNED GOODS"
  {
    Halves();
    assert HeaderLine[6..9] == DeptHalf[6..9];
    assert HeaderLine[10..18] == DeptHalf[10..];
    assert HeaderLine[28..31] == SubHalf[10..13];
    assert HeaderLine[32..] == SubHalf[14..];
  }

  lemma HeaderCaptures()
    ensures MatchDeptHeader(HeaderLine) == Some(DeptCaptures("010", "GROCERY ", "020", "CANNED GOODS"))
  {
    var t := HeaderLine;
    HeaderSpans();
    assert FirstFrom(MatchDeptAtFn(t), 0, |t|) == Some((0, DeptSpans(6, 10, 18, 28, 32)));
    HeaderSlices();
  }

  /** The header line is not page furniture: its only `-` is followed by `D`. */
  lemma HeaderNotNoise()
    ensures Trim(HeaderLine) == HeaderLine && !IsNoise(HeaderLine) && StartsAt(HeaderLine, 0, "Dept:")
  {
    HeaderTrimmed();
    HeaderChars();
    PlainNotNoise(HeaderLine);
  }

  lemma HeaderTrimmed()
    ensures Trim(HeaderLine) == HeaderLine && StartsAt(HeaderLine, 0, "Dept:")
  {
    var t := HeaderLine;
    Halves();
    assert DeptHalf[..5] == "Dept:";
    assert t[..5] == DeptHalf[..5];
    assert !IsWs(t[0]) && !IsWs(t[43]);
    TrimOfTrimmed(t);
  }

  /** A line made of plain characters with no two dashes in a row is not
      page furniture. */
  lemma PlainNotNoise(t: string)
    requires |t| > 0 && forall i | 0 <= i < |t| :: Plain(t[i])
    requires forall i | 0 <= i < |t| - 1 :: !(t[i] == '-' && t[i + 1] == '-')
    ensures !IsNoise(t)
  {
    NoDashPair(t);
    PlainMissing(t, 'P');
    PlainMissing(t, '=');
    PlainMissing(t, 'M');
    PlainMissing(t, 'm');
    PlainMissing(t, '/');
    PlainMissing(t, 'y');
    MissingCharNotContained(t, "Page:", 'P');
    MissingCharNotContained(t, "=\"", '=');
    MissingCharNotContained(t, "MERCHANDISE SKUs", 'M');
    MissingCharNotContained(t, "Store Number:", 'm');
    MissingCharNotContained(t, "Merch Code", 'M');
    MissingCharNotContained(t, "Sku/Description", '/');
    MissingCharNotContained(t, "under 14 days supply", 'y');
    MissingCharNotContained(t, "OPR241", 'P');
  }

  /** None of the characters the checks below rely on occurs in a half. */
  predicate Plain(c: char) {
    c != 'P' && c != '=' && c != 'M' && c != 'm' && c != '/' && c != 'y' && c != '\n'
  }

  lemma DeptHalfChars()
    ensures forall i | 0 <= i < 18 :: Plain(DeptHalf[i]) && DeptHalf[i] != '-'
  {
  }

  lemma SubHalfChars()
    ensures forall i | 0 <= i < 26 :: Plain(SubHalf[i])
    ensures forall i | 0 <= i < 25 :: !(SubHalf[i] == '-' && SubHalf[i + 1] == '-')
  {
  }

  lemma HeaderChars()
    ensures forall i | 0 <= i < |HeaderLine| :: Plain(HeaderLine[i])
    ensures forall i | 0 <= i < |HeaderLine| - 1 :: !(HeaderLine[i] == '-' && HeaderLine[i + 1] == '-')
  {
    Halves();
    DeptHalfChars();
    SubHalfChars();
  }

  lemma PlainMissing(t: string, c: char)
    requires forall i | 0 <= i < |t| :: Plain(t[i])
    requires !Plain(c)
    ensures c !in t
  {
  }

  /** A line with no two adjacent dashes holds no `----`. */
  lemma NoDashPair(t: string)
    requires forall i | 0 <= i < |t| - 1 :: !(t[i] == '-' && t[i + 1] == '-')
    ensures !Contains(t, "----")
  {
    ContainsIff(t, "----");
    forall i: nat | i + 4 <= |t| ensures !StartsAt(t, i, "----") {
      assert t[i..i + 4][0] == t[i] && t[i..i + 4][1] == t[i + 1];
    }
  }

  /** The header line opens department `010` with sub-department `020`. */
  lemma HeaderClassified()
    ensures Classify(HeaderLine) == Header(DeptCaptures("010", "GROCERY ", "020", "CANNED GOODS"))
  {
    HeaderNotNoise();
    HeaderCaptures();
  }

  // ---------------------------------------------------------------------------
  // The two lines together: a report holding the header line and then the row.

  const Report: string := HeaderLine + "\n" + Row

  lemma ReportLines()
    ensures Split(Report, '\n') == [HeaderLine, Row]
  {
    HeaderChars();
    PlainMissing(HeaderLine, '\n');
    RowChars();
    SplitFirstPiece(HeaderLine, '\n', Row);
    SplitNoSep(Row, '\n');
  }

  lemma TrimGrocery()
    ensures Trim("GROCERY ") == "GROCERY" && Trim("CANNED GOODS") == "CANNED GOODS"
  {
    var s := "GROCERY ";
    assert SpanEnd(s, 0, Space) == 0;
    assert TrimmedEnd(s, 0, 8) == 7;
    TrimOfTrimmed("CANNED GOODS");
  }

  const Canned: SubDepartment := SubDepartment("020", "CANNED GOODS", [])

  const Widget: Item := Item("000123", "WIDGET", 5, [""], 2)

  /** The state after the header line. */
  const Opened: ParseState := ParseState([Department("010", "GROCERY", [Canned], false)], Some(Cursor(0, 0)))

  /** The state after the row. */
  const Filled: ParseState :=
    ParseState([Department("010", "GROCERY", [Canned.(items := [Widget])], false)], Some(Cursor(0, 0)))

  /** The header line, first in the report, creates its department and
      sub-department and points the cursor at them. */
  lemma HeaderOpens()
    ensures Step(Start, HeaderLine) == Opened
  {
    HeaderClassified();
    TrimGrocery();
  }

  lemma OpenedValid()
    ensures Valid(Opened)
  {
    HeaderOpens();
  }

  /** The row, read under that cursor, is an item for it. */
  lemma RowStep()
    ensures Valid(Opened) && ValidItem(Widget) && Step(Opened, Row) == AddItem(Opened, Widget)
  {
    OpenedValid();
    RowClassified();
  }

  /** An item read while the only sub-department of the only department is
      current is appended there. */
  lemma AddToOnly(st: ParseState, it: Item)
    requires Valid(st) && ValidItem(it) && st.current == Some(Cursor(0, 0))
    requires |st.depts| == 1 && |st.depts[0].subDepartments| == 1
    ensures var sd := st.depts[0].subDepartments[0];
      AddItem(st, it) == st.(depts := [st.depts[0].(subDepartments := [sd.(items := sd.items + [it])])])
  {
    var sd := st.depts[0].subDepartments[0];
    var b := AddItem(st, it).depts;
    assert b[0].subDepartments[0] == sd.(items := sd.items + [it]);
    assert b[0].subDepartments == [sd.(items := sd.items + [it])];
  }

  /** The row lands in that sub-department. */
  lemma RowLands()
    ensures Valid(Opened) && Step(Opened, Row) == Filled
  {
    RowStep();
    AddToOnly(Opened, Widget);
    assert [] + [Widget] == [Widget];
  }

  /** The loop over two lines is two steps. */
  lemma RunTwo(st: ParseState, a: string, b: string)
    requires Valid(st)
    ensures Valid(Step(st, a)) && RunFrom(st, [a, b]) == Step(Step(st, a), b)
  {
    var s1 := Step(st, a);
    var s2 := Step(s1, b);
    assert RunFrom(s2, []) == s2;
    assert [b][1..] == [];
    assert RunFrom(s1, [b]) == s2;
    assert [a, b][1..] == [b];
  }

  lemma ReportRun()
    ensures Valid(Filled) && RunFrom(Start, Split(Report, '\n')) == Filled
  {
    ReportLines();
    RunTwo(Start, HeaderLine, Row);
    HeaderOpens();
    RowLands();
  }

  /** The whole parse of the two-line report: one department holding one
      sub-department holding the one item. */
  lemma ReportParsed()
    ensures ParseWorksheetData(Report)
         == [Department("010", "GROCERY", [SubDepartment("020", "CANNED GOODS", [Widget])], false)]
  {
    ReportRun();
    assert Filled.depts == [Filled.depts[0]];
    SingleDeptFinal(Filled.depts[0]);
  }

  /** Sorting a single department with a single sub-department changes
      nothing. */
  lemma SingleDeptFinal(d: Department)
    requires WellFormed([d]) && |d.subDepartments| == 1
    ensures Finalize([d]) == [d]
  {
    var r := Finalize([d]);
    assert SortSubs(d) in r;
    var e := SortSubs(d);
    assert |multiset(e.subDepartments)| == 1;
    assert d.subDepartments[0] in multiset(e.subDepartments);
    assert e.subDepartments == d.subDepartments;
  }
}
