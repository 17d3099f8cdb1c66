/** A worked example with every group of the item pattern taking part:
    `123456 CANNED BEANS U M 12 4`, a six-digit SKU, a two-word description,
    two icons, quantity 12 and 4 cartons. */
module BeanScenario {
  import opened Wrappers
  import opened Text
  import opened Backtrack
  import opened ItemRow
  import opened Icons
  import opened Worksheet
  import opened Scenarios

  const Bean: string := "123456 CANNED BEANS U M 12 4"

  /** The spans the tail after the description is made of: the icon group
      `20..23` (`U M`), the quantity `24..26` and the carton quantity
      `27..28`. */
  const BeanTail: TailSpans := TailSpans(Some((20, 23)), 24, 26, 27, 28)

  lemma BeanIconChain()
    ensures IsIcon(Bean[20]) && IconChainEnd(Bean, 20) == 23
  {
    assert SpanEnd(Bean, 21, Space) == 22;
    assert SpanEnd(Bean, 23, Space) == 24;
    assert IconChainEnd(Bean, 22) == 23;
  }

  lemma BeanCounts()
    ensures CountsAt(Bean, 23) == Some((24, 26, 27, 28))
  {
    assert SpanEnd(Bean, 23, Space) == 24;
    assert SpanEnd(Bean, 24, Digit) == 26;
    assert SpanEnd(Bean, 26, Space) == 27;
    assert SpanEnd(Bean, 27, Digit) == 28;
    assert TrailerOk(Bean, 28);
  }

  /** The tail after `CANNED BEANS`: the icon group takes `U M`, then the two
      counts follow. */
  lemma BeanTailAt()
    ensures TailAt(Bean, 19) == Some(BeanTail)
  {
    assert SpanEnd(Bean, 19, Space) == 20;
    BeanIconChain();
    BeanCounts();
  }

  /** The space between `CANNED` and `BEANS` does not start a tail: `B` is
      neither an icon letter nor a digit. */
  lemma NoTailInsideName()
    ensures TailAt(Bean, 13).None?
  {
    assert SpanEnd(Bean, 13, Space) == 14;
    assert !IsIcon(Bean[14]);
    assert SpanEnd(Bean, 14, Digit) == 14;
  }

  lemma NoEarlierBeanTail()
    ensures forall r: nat :: 8 <= r < 19 ==> TailFn(Bean)(r).None?
  {
    forall r: nat | 8 <= r < 19 ensures TailAt(Bean, r).None? {
      if r == 13 {
        NoTailInsideName();
      } else {
        assert IsUpper(Bean[r]);
      }
    }
  }

  /** The lazy description stops at the first place the tail fits, which is
      after the whole name. */
  lemma BeanDescription()
    ensures Lazy(Bean, 7, 1, false, TailFn(Bean)) == Some((19, BeanTail))
  {
    BeanTailAt();
    BeanReach();
    NoEarlierBeanTail();
    FirstFromAt(TailFn(Bean), 8, 28, 19);
  }

  /** Digits, capitals and spaces: the row holds no line terminator. */
  lemma BeanAlphabet()
    ensures forall i | 0 <= i < |Bean| :: IsDigit(Bean[i]) || IsUpper(Bean[i]) || Bean[i] == ' '
  {
    forall i | 0 <= i < |Bean| ensures IsDigit(Bean[i]) || IsUpper(Bean[i]) || Bean[i] == ' ' {
    }
  }

  lemma BeanReach()
    ensures SpanEnd(Bean, 7, Dot) == 28
  {
    BeanAlphabet();
    SpanEndOfRun(Bean, 7, 28, Dot);
  }

  lemma BeanSku()
    ensures SpanEnd(Bean, 0, Digit) == 6 && SpanEnd(Bean, 6, Space) == 7
  {
    assert forall m | 0 <= m < 6 :: IsDigit(Bean[m]);
    assert !IsDigit(Bean[6]);
    SpanEndOfRun(Bean, 0, 6, Digit);
    BeanGap();
  }

  lemma BeanGap()
    ensures SpanEnd(Bean, 6, Space) == 7
  {
    assert IsWs(Bean[6]) && !IsWs(Bean[7]);
    SpanEndOfRun(Bean, 6, 7, Space);
  }

  lemma BeanSpans()
    ensures MatchRowSpans(Bean) == Some(RowSpans(6, 7, 19, BeanTail))
  {
    BeanSku();
    BeanDescription();
    assert DescThenTail(Bean)(7) == Some((19, BeanTail));
  }

  lemma BeanSlices()
    ensures Bean[..6] == "123456" && Bean[7..19] == "CANNED BEANS"
    ensures Bean[20..23] == "U M" && Bean[24..26] == "12" && Bean[27..28] == "4"
  {
    SkuSlice();
    NameSlice();
    Three(Bean, 20, 'U', ' ', 'M');
    assert Bean[24..26] == [Bean[24], Bean[25]];
    assert Bean[27..28] == [Bean[27]];
  }

  lemma SkuSlice()
    ensures Bean[..6] == "123456"
  {
    Three(Bean, 0, '1', '2', '3');
    Three(Bean, 3, '4', '5', '6');
    assert Bean[..6] == Bean[0..3] + Bean[3..6];
  }

  lemma NameSlice()
    ensures Bean[7..19] == "CANNED BEANS"
  {
    CannedSlice();
    BeansSlice();
    assert Bean[7..19] == Bean[7..13] + Bean[13..19];
  }

  lemma CannedSlice()
    ensures Bean[7..13] == "CANNED"
  {
    Three(Bean, 7, 'C', 'A', 'N');
    Three(Bean, 10, 'N', 'E', 'D');
    assert Bean[7..13] == Bean[7..10] + Bean[10..13];
  }

  lemma BeansSlice()
    ensures Bean[13..19] == " BEANS"
  {
    Three(Bean, 13, ' ', 'B', 'E');
    Three(Bean, 16, 'A', 'N', 'S');
    assert Bean[13..19] == Bean[13..16] + Bean[16..19];
  }

  /** Three characters read one at a time are the slice they make up. */
  lemma Three(t: string, i: nat, a: char, b: char, c: char)
    requires i + 3 <= |t| && t[i] == a && t[i + 1] == b && t[i + 2] == c
    ensures t[i..i + 3] == [a, b, c]
  {
  }

  const BeanGroups: RowCaptures := RowCaptures("123456", "CANNED BEANS", Some("U M"), "12", "4")

  /** The item pattern's groups for the row; all five take part. */
  lemma BeanCaptures()
    ensures MatchItemRow(Bean) == Some(BeanGroups)
  {
    var x := RowSpans(6, 7, 19, BeanTail);
    BeanSpans();
    MatchItemRowIs(Bean, x);
    BeanSlices();
    assert RowCaptured(Bean, x) == RowCaptures(Bean[..6], Bean[7..19], Some(Bean[20..23]), Bean[24..26], Bean[27..28]);
  }

  /** `'U M'.split(/\s+/)` is `["U", "M"]`, and both pass the filter. */
  lemma BeanIcons()
    ensures IconsOf(Some("U M")) == ["U", "M"]
  {
    var g := "U M";
    assert SpanEnd(g, 1, Space) == 2;
    SplitNextLetter(g, 0, 2);
    SplitLastLetter(g, 2);
    assert SplitWs(g) == ["U", "M"];
    assert IconRunBetween(g, 0, 3);
    SplitIconRun(g, 0);
  }

  lemma BeanCounted()
    ensures DecimalValue("12") == 12 && DecimalValue("4") == 4
  {
    assert "12"[..1] == "1" && "1"[..0] == "" && "4"[..0] == "";
  }

  const Beans: Item := Item("123456", "CANNED BEANS", 12, ["U", "M"], 4)

  lemma BeanGroupsValid()
    ensures ValidRowCaptures(BeanGroups)
  {
    assert AllDigits("123456") && AllDigits("12") && AllDigits("4");
    assert IconRunBetween("U M", 0, 3);
  }

  /** A six-digit SKU needs no padding, and the icons are the two letters. */
  lemma BeanItem()
    ensures ValidRowCaptures(BeanGroups)
    ensures BuildItem(BeanGroups) == Beans
  {
    BeanGroupsValid();
    var it := BuildItem(BeanGroups);
    assert it.sku == "123456";
    assert it.description == "CANNED BEANS" by {
      TrimOfTrimmed("CANNED BEANS");
    }
    assert it.quantity == 12 && it.cartonQty == 4 by {
      BeanCounted();
    }
    assert it.icons == ["U", "M"] by {
      BeanIcons();
    }
  }

  /** A non-empty line with none of the characters `-`, `P`, `=`, `H`, `:`,
      `h`, `/`, `u` and `O` holds none of the noise markers. */
  lemma UnmarkedLineNotNoise(t: string)
    requires |t| > 0 && '-' !in t && 'P' !in t && '=' !in t && 'H' !in t && ':' !in t
    requires 'h' !in t && '/' !in t && 'u' !in t && 'O' !in t
    ensures !IsNoise(t)
  {
    MissingCharNotContained(t, "----", '-');
    MissingCharNotContained(t, "Page:", 'P');
    MissingCharNotContained(t, "=\"", '=');
    MissingCharNotContained(t, "MERCHANDISE SKUs", 'H');
    MissingCharNotContained(t, "Store Number:", ':');
    MissingCharNotContained(t, "Merch Code", 'h');
    MissingCharNotContained(t, "Sku/Description", '/');
    MissingCharNotContained(t, "under 14 days supply", 'u');
    MissingCharNotContained(t, "OPR241", 'O');
  }

  lemma BeanChars()
    ensures '-' !in Bean && 'P' !in Bean && '=' !in Bean && 'H' !in Bean && ':' !in Bean
    ensures 'h' !in Bean && '/' !in Bean && 'u' !in Bean && 'O' !in Bean && '\n' !in Bean
  {
    BeanAlphabet();
    forall i | 0 <= i < |Bean|
      ensures Bean[i] != '-' && Bean[i] != 'P' && Bean[i] != '=' && Bean[i] != 'H' && Bean[i] != ':'
      ensures Bean[i] != 'h' && Bean[i] != '/' && Bean[i] != 'u' && Bean[i] != 'O' && Bean[i] != '\n'
    {
    }
  }

  lemma BeanNotNoise()
    ensures Trim(Bean) == Bean && !IsNoise(Bean) && !StartsAt(Bean, 0, "Dept:")
  {
    assert !IsWs(Bean[0]) && !IsWs(Bean[27]);
    TrimOfTrimmed(Bean);
    BeanChars();
    UnmarkedLineNotNoise(Bean);
    assert Bean[0] != "Dept:"[0];
  }

  /** The whole line classification: an item line for SKU `123456` with icons
      `U` and `M`. */
  lemma BeanClassified()
    ensures Classify(Bean) == ItemLine(Item("123456", "CANNED BEANS", 12, ["U", "M"], 4))
  {
    BeanNotNoise();
    BeanCaptures();
    BeanItem();
  }

  // ---------------------------------------------------------------------------
  // The header line of `Scenarios` followed by this row.

  const BeanReport: string := HeaderLine + "\n" + Bean

  lemma BeanReportLines()
    ensures Split(BeanReport, '\n') == [HeaderLine, Bean]
  {
    HeaderChars();
    PlainMissing(HeaderLine, '\n');
    BeanChars();
    SplitFirstPiece(HeaderLine, '\n', Bean);
    SplitNoSep(Bean, '\n');
  }

  lemma BeanLands()
    ensures Valid(Opened)
    ensures Step(Opened, Bean) ==
      ParseState([Department("010", "GROCERY", [Canned.(items := [Beans])], false)], Some(Cursor(0, 0)))
  {
    OpenedValid();
    BeanClassified();
    AddToOnly(Opened, Beans);
    assert [] + [Beans] == [Beans];
  }

  /** The whole parse of the two-line report: one department holding one
      sub-department holding the canned beans. */
  lemma BeanReportParsed()
    ensures ParseWorksheetData(BeanReport)
         == [Department("010", "GROCERY", [SubDepartment("020", "CANNED GOODS", [Beans])], false)]
  {
    var filled := ParseState([Department("010", "GROCERY", [Canned.(items := [Beans])], false)], Some(Cursor(0, 0)));
    BeanReportLines();
    RunTwo(Start, HeaderLine, Bean);
    HeaderOpens();
    BeanLands();
    assert filled.depts == [filled.depts[0]];
    SingleDeptFinal(filled.depts[0]);
  }
}
