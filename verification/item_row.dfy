/** The item-row pattern of src/components/WorksheetParser.tsx:92,
      ^(\d{3,6})\s+(.+?)(?:\s+([UMTPRO](?:\s+[UMTPRO])*)?)?\s+(\d{1,3})\s+(\d{1,4})
       (?:\s+(?:SZ|DO|[A-Z]{2}(?:\s+[A-Z]{2})*)?)?\s*(?:_{2,}|")?$
    matched the way `String.prototype.match` does. Everything after the lazy
    description is a "tail" whose parse is unique, so it is computed directly
    (`TailAt`) and shown equal to the tail grammar (`TailAtExact`); the
    `\s+` before the description and the description itself are searched in
    the engine's order (`MatchRowSpans`). */
module ItemRow {
  import opened Wrappers
  import opened Text
  import opened Backtrack

  /** The icon alphabet `[UMTPRO]`. */
  predicate IsIcon(c: char) {
    c == 'U' || c == 'M' || c == 'T' || c == 'P' || c == 'R' || c == 'O'
  }

  /** `t[s..e]` is `[UMTPRO](?:\s+[UMTPRO])*`: icon letters and whitespace,
      starting and ending with a letter, no two letters adjacent. */
  ghost predicate IconRunBetween(t: string, s: nat, e: nat) {
    && s < e <= |t| && IsIcon(t[s]) && IsIcon(t[e - 1])
    && (forall k | s <= k < e :: IsIcon(t[k]) || IsWs(t[k]))
    && (forall k | s <= k < e - 1 :: IsIcon(t[k]) ==> IsWs(t[k + 1]))
  }

  /** The optional decoration and end anchor,
      `(?:\s+(?:SZ|DO|[A-Z]{2}(?:\s+[A-Z]{2})*)?)?\s*(?:_{2,}|")?$`, from `j`.
      `SZ` and `DO` are two-letter capitals already, so the language is that of
      `(?:\s+[A-Z]{2})*\s*(?:_{2,}|")?$`, checked one pair at a time. */
  predicate TrailerOk(t: string, j: nat)
    requires j <= |t|
    decreases |t| - j
  {
    var w := SpanEnd(t, j, Space);
    || MarkThenEnd(t, w)
    || (w > j && w + 2 <= |t| && IsUpper(t[w]) && IsUpper(t[w + 1]) && TrailerOk(t, w + 2))
  }

  /** `(?:_{2,}|")?$` at `w`. */
  predicate MarkThenEnd(t: string, w: nat)
    requires w <= |t|
  {
    || w == |t|
    || (w + 1 == |t| && t[w] == '"')
    || (w + 2 <= |t| && forall k | w <= k < |t| :: t[k] == '_')
  }

  /** End of the greedy icon group started by the letter at `j`: each further
      round needs a whitespace run and then one more icon letter. */
  function IconChainEnd(t: string, j: nat): (e: nat)
    requires j < |t| && IsIcon(t[j])
    ensures j < e <= |t|
    decreases |t| - j
  {
    var w := SpanEnd(t, j + 1, Space);
    if w > j + 1 && w < |t| && IsIcon(t[w]) then IconChainEnd(t, w) else j + 1
  }

  /** `\s+(\d{1,3})\s+(\d{1,4})` and the trailer, from `i`: the spans of the
      quantity and the carton quantity. Each `\s+` is followed by a digit and
      each digit group by something that is not a digit, so every run is taken
      whole or the row fails. */
  function CountsAt(t: string, i: nat): Option<(nat, nat, nat, nat)>
    requires i <= |t|
  {
    if !(i < |t| && IsWs(t[i])) then None
    else
      var a := SpanEnd(t, i, Space);
      var b := SpanEnd(t, a, Digit);
      if !(a < b <= a + 3 && b < |t| && IsWs(t[b])) then None
      else
        var c := SpanEnd(t, b, Space);
        var d := SpanEnd(t, c, Digit);
        if !(c < d <= c + 4 && TrailerOk(t, d)) then None
        else Some((a, b, c, d))
  }

  /** Where the tail's pieces lie: the icon group (absent when it did not take
      part), the quantity `a..b`, the carton quantity `c..d`. */
  datatype TailSpans = TailSpans(icons: Option<(nat, nat)>, a: nat, b: nat, c: nat, d: nat)

  /** The tail after the description, tried at `r`:
      `(?:\s+([UMTPRO](?:\s+[UMTPRO])*)?)?\s+(\d{1,3})\s+(\d{1,4})` and the
      trailer. The first non-space character decides it: an icon letter
      starts the icon group, which must then take the whole chain; a digit
      starts the quantity, and the icon group does not take part. */
  function TailAt(t: string, r: nat): Option<TailSpans> {
    if !(r < |t| && IsWs(t[r])) then None
    else
      var s := SpanEnd(t, r, Space);
      if s < |t| && IsIcon(t[s]) then
        var e := IconChainEnd(t, s);
        match CountsAt(t, e)
        case None => None
        case Some((a, b, c, d)) => Some(TailSpans(Some((s, e)), a, b, c, d))
      else
        match CountsAt(t, r)
        case None => None
        case Some((a, b, c, d)) => Some(TailSpans(None, a, b, c, d))
  }

  /** The tail grammar as a language: the tail occupies `t[r..]` with its
      pieces where `m` says. */
  ghost predicate TailLayout(t: string, r: nat, m: TailSpans) {
    && (match m.icons
        case Some((s, e)) =>
          r < s && WsBetween(t, r, s) && IconRunBetween(t, s, e) && e < m.a && WsBetween(t, e, m.a)
        case None =>
          r < m.a && WsBetween(t, r, m.a))
    && m.a < m.b <= m.a + 3 && ClassBetween(t, m.a, m.b, Digit)
    && m.b < m.c && WsBetween(t, m.b, m.c)
    && m.c < m.d <= m.c + 4 && ClassBetween(t, m.c, m.d, Digit)
    && TrailerOk(t, m.d)
  }

  /** The trailer never starts with a digit. */
  lemma TrailerNotDigit(t: string, j: nat)
    requires j <= |t| && TrailerOk(t, j)
    ensures j == |t| || !IsDigit(t[j])
  {
    var w := SpanEnd(t, j, Space);
    if j < w {
      assert InClass(t[j], Space);
    }
  }

  /** The chain computed from `s` is an icon run. */
  lemma {:induction false} IconChainSound(t: string, j: nat)
    requires j < |t| && IsIcon(t[j])
    ensures IconRunBetween(t, j, IconChainEnd(t, j))
    decreases |t| - j
  {
    var w := SpanEnd(t, j + 1, Space);
    if w > j + 1 && w < |t| && IsIcon(t[w]) {
      IconChainSound(t, w);
      IconRunExtend(t, j, w, IconChainEnd(t, w));
    }
  }

  /** A letter, whitespace, then an icon run, is an icon run. */
  lemma IconRunExtend(t: string, j: nat, w: nat, e: nat)
    requires j < |t| && IsIcon(t[j]) && j + 1 < w && WsBetween(t, j + 1, w)
    requires IconRunBetween(t, w, e)
    ensures IconRunBetween(t, j, e)
  {
    forall k | j <= k < e - 1 && IsIcon(t[k]) ensures IsWs(t[k + 1]) {
      if k == j {
        assert InClass(t[j + 1], Space);
      }
    }
    forall k | j <= k < e ensures IsIcon(t[k]) || IsWs(t[k]) {
      if j < k < w {
        assert InClass(t[k], Space);
      }
    }
  }

  /** An icon run followed by whitespace and a digit is exactly the chain the
      greedy icon group takes. */
  lemma {:induction false} IconChainComplete(t: string, j: nat, e: nat)
    requires IconRunBetween(t, j, e)
    requires e < |t| && IsWs(t[e])
    requires var a := SpanEnd(t, e, Space); a < |t| && IsDigit(t[a])
    ensures IconChainEnd(t, j) == e
    decreases e - j
  {
    if j + 1 == e {
      assert SpanEnd(t, j + 1, Space) == SpanEnd(t, e, Space);
    } else {
      var n := NextInRun(t, j, e);
      IconChainComplete(t, n, e);
    }
  }

  /** After a letter that does not end an icon run, the whitespace run leads to
      the next letter, and the run goes on from there. */
  lemma NextInRun(t: string, j: nat, e: nat) returns (n: nat)
    requires IconRunBetween(t, j, e) && j + 1 < e
    ensures j + 1 < n < e && n == SpanEnd(t, j + 1, Space) && IsIcon(t[n])
    ensures WsBetween(t, j + 1, n) && IconRunBetween(t, n, e)
  {
    assert IsWs(t[j + 1]);
    n := NextLetter(t, j + 1, e);
    SpanEndOfRun(t, j + 1, n, Space);
  }

  /** Inside an icon run, the whitespace after a letter ends at the next letter. */
  lemma NextLetter(t: string, i: nat, e: nat) returns (n: nat)
    requires i < e <= |t| && IsIcon(t[e - 1])
    requires forall k | i <= k < e :: IsIcon(t[k]) || IsWs(t[k])
    ensures i <= n < e && IsIcon(t[n]) && WsBetween(t, i, n)
    decreases e - i
  {
    if IsIcon(t[i]) {
      n := i;
    } else {
      n := NextLetter(t, i + 1, e);
    }
  }

  /** The counts group as a language from `i`. */
  ghost predicate CountsLayout(t: string, i: nat, a: nat, b: nat, c: nat, d: nat) {
    && i < a && WsBetween(t, i, a)
    && a < b <= a + 3 && ClassBetween(t, a, b, Digit)
    && b < c && WsBetween(t, b, c)
    && c < d <= c + 4 && ClassBetween(t, c, d, Digit)
    && TrailerOk(t, d)
  }

  lemma CountsAtSound(t: string, i: nat)
    requires i <= |t| && CountsAt(t, i).Some?
    ensures var (a, b, c, d) := CountsAt(t, i).value; CountsLayout(t, i, a, b, c, d)
  {
  }

  lemma CountsAtComplete(t: string, i: nat, a: nat, b: nat, c: nat, d: nat)
    requires CountsLayout(t, i, a, b, c, d)
    ensures CountsAt(t, i) == Some((a, b, c, d))
  {
    assert !InClass(t[a], Space);
    SpanEndOfRun(t, i, a, Space);
    assert !InClass(t[b], Digit);
    SpanEndOfRun(t, a, b, Digit);
    assert !InClass(t[c], Space);
    SpanEndOfRun(t, b, c, Space);
    TrailerNotDigit(t, d);
    SpanEndOfRun(t, c, d, Digit);
  }

  lemma TailAtSound(t: string, r: nat)
    requires TailAt(t, r).Some?
    ensures TailLayout(t, r, TailAt(t, r).value)
  {
    var s := SpanEnd(t, r, Space);
    if s < |t| && IsIcon(t[s]) {
      var e := IconChainEnd(t, s);
      IconChainSound(t, s);
      CountsAtSound(t, e);
    } else {
      CountsAtSound(t, r);
    }
  }

  lemma TailAtComplete(t: string, r: nat, m: TailSpans)
    requires TailLayout(t, r, m)
    ensures TailAt(t, r) == Some(m)
  {
    if m.icons.Some? {
      TailWithIcons(t, r, m);
    } else {
      TailWithoutIcons(t, r, m);
    }
  }

  lemma TailWithIcons(t: string, r: nat, m: TailSpans)
    requires TailLayout(t, r, m) && m.icons.Some?
    ensures TailAt(t, r) == Some(m)
  {
    var (s, e) := m.icons.value;
    CountsAtComplete(t, e, m.a, m.b, m.c, m.d);
    assert !InClass(t[s], Space);
    SpanEndOfRun(t, r, s, Space);
    assert !InClass(t[m.a], Space);
    SpanEndOfRun(t, e, m.a, Space);
    IconChainComplete(t, s, e);
  }

  lemma TailWithoutIcons(t: string, r: nat, m: TailSpans)
    requires TailLayout(t, r, m) && m.icons.None?
    ensures TailAt(t, r) == Some(m)
  {
    CountsAtComplete(t, r, m.a, m.b, m.c, m.d);
    assert !InClass(t[m.a], Space);
    SpanEndOfRun(t, r, m.a, Space);
  }

  /** The tail matcher is exact: it succeeds with `m` precisely when the tail
      grammar places its pieces as `m` says, so the grammar admits at most one
      parse of a tail and the engine's choice among parses never matters. */
  lemma TailAtExact(t: string, r: nat, m: TailSpans)
    ensures TailLayout(t, r, m) <==> TailAt(t, r) == Some(m)
  {
    if TailLayout(t, r, m) {
      TailAtComplete(t, r, m);
    }
    if TailAt(t, r) == Some(m) {
      TailAtSound(t, r);
    }
  }

  // ---------------------------------------------------------------------------
  // The whole row.

  /** The groups of the item pattern: SKU, description, icons (absent when the
      optional group did not take part), quantity and carton quantity. */
  datatype RowCaptures = RowCaptures(sku: string, description: string, icons: Option<string>, quantity: string, carton: string)

  /** Where a row match lies: the SKU `0..l`, the description `d..r`, the tail
      from `r`. */
  datatype RowSpans = RowSpans(l: nat, d: nat, r: nat, tail: TailSpans)

  function TailFn(t: string): nat -> Option<TailSpans> {
    (r: nat) => TailAt(t, r)
  }

  /** `(.+?)` followed by the tail: the lazy description group. */
  function DescThenTail(t: string): nat -> Option<(nat, TailSpans)> {
    (d: nat) => if d <= |t| then Lazy(t, d, 1, false, TailFn(t)) else None
  }

  /** `^(\d{3,6})\s+(.+?)` and the tail. The SKU group is followed by
      whitespace, so it takes the whole leading digit run, which must have 3 to
      6 digits; the `\s+` after it is tried longest first, and the description
      shortest first. */
  function MatchRowSpans(t: string): Option<RowSpans> {
    var l := SpanEnd(t, 0, Digit);
    if !(3 <= l <= 6) then None
    else
      match WsPlusThen(t, l, DescThenTail(t))
      case None => None
      case Some((d, (r, m))) => Some(RowSpans(l, d, r, m))
  }

  /** The row pattern as a language: the row occupies all of `t` with its
      pieces where `x` says. */
  ghost predicate RowLayout(t: string, x: RowSpans) {
    && 3 <= x.l <= 6 && ClassBetween(t, 0, x.l, Digit)
    && x.l < x.d && WsBetween(t, x.l, x.d)
    && x.d < x.r && ClassBetween(t, x.d, x.r, Dot)
    && TailLayout(t, x.r, x.tail)
  }

  /** Any parse of the row can be reached by the search. */
  lemma RowLayoutReachable(t: string, y: RowSpans)
    requires RowLayout(t, y)
    ensures y.l == SpanEnd(t, 0, Digit)
    ensures y.r <= Reach(t, y.d, false) && TailFn(t)(y.r) == Some(y.tail)
    ensures DescThenTail(t)(y.d).Some?
  {
    assert !InClass(t[y.l], Digit);
    SpanEndOfRun(t, 0, y.l, Digit);
    SpanEndBound(t, y.d, y.r, Dot);
    TailAtComplete(t, y.r, y.tail);
  }

  lemma MatchRowSound(t: string)
    requires MatchRowSpans(t).Some?
    ensures RowLayout(t, MatchRowSpans(t).value)
  {
    var x := MatchRowSpans(t).value;
    assert Lazy(t, x.d, 1, false, TailFn(t)) == Some((x.r, x.tail));
    assert TailAt(t, x.r) == Some(x.tail);
    TailAtSound(t, x.r);
  }

  /** The row search reports a parse exactly when the row grammar admits one,
      and the one it reports is the one the engine prefers: the description
      starts as late as any parse allows (the longest `\s+`), and among parses
      with that start it ends as early as possible (the lazy `.+?`). */
  lemma MatchRowSpec(t: string)
    ensures MatchRowSpans(t).None? ==> forall y :: !RowLayout(t, y)
    ensures MatchRowSpans(t).Some? ==>
      var x := MatchRowSpans(t).value;
      && RowLayout(t, x)
      && (forall y | RowLayout(t, y) :: y.l == x.l && y.d <= x.d)
      && (forall y | RowLayout(t, y) && y.d == x.d :: x.r <= y.r)
  {
    forall y | RowLayout(t, y) ensures MatchRowSpans(t).Some? {
      RowLayoutFound(t, y);
    }
    if MatchRowSpans(t).Some? {
      MatchRowSound(t);
      forall y | RowLayout(t, y) ensures y.l == MatchRowSpans(t).value.l && y.d <= MatchRowSpans(t).value.d {
        LatestStart(t, y);
      }
      forall y | RowLayout(t, y) && y.d == MatchRowSpans(t).value.d ensures MatchRowSpans(t).value.r <= y.r {
        EarliestEnd(t, y);
      }
    }
  }

  lemma RowLayoutFound(t: string, y: RowSpans)
    requires RowLayout(t, y)
    ensures MatchRowSpans(t).Some?
  {
    RowLayoutReachable(t, y);
  }

  lemma LatestStart(t: string, y: RowSpans)
    requires RowLayout(t, y) && MatchRowSpans(t).Some?
    ensures y.l == MatchRowSpans(t).value.l && y.d <= MatchRowSpans(t).value.d
  {
    RowLayoutReachable(t, y);
  }

  lemma EarliestEnd(t: string, y: RowSpans)
    requires RowLayout(t, y) && MatchRowSpans(t).Some? && y.d == MatchRowSpans(t).value.d
    ensures MatchRowSpans(t).value.r <= y.r
  {
    RowLayoutReachable(t, y);
    var x := MatchRowSpans(t).value;
    assert Lazy(t, x.d, 1, false, TailFn(t)) == Some((x.r, x.tail));
  }

  /** The strings a row match captures. */
  function RowCaptured(t: string, x: RowSpans): RowCaptures
    requires RowLayout(t, x)
  {
    var m := x.tail;
    RowCaptures(
      t[..x.l], t[x.d..x.r],
      match m.icons case Some((s, e)) => Some(t[s..e]) case None => None,
      t[m.a..m.b], t[m.c..m.d])
  }

  /** `t.match(...)` for the item pattern: the groups of the preferred parse. */
  function MatchItemRow(t: string): (r: Option<RowCaptures>)
    ensures r.Some? ==> ValidRowCaptures(r.value)
    ensures r.None? <==> forall y :: !RowLayout(t, y)
  {
    MatchRowSpec(t);
    match MatchRowSpans(t)
    case None => None
    case Some(x) => 
      RowCapturesValid(t, x);
      Some(RowCaptured(t, x))
  }

  /** The groups `t.match(...)` reports are those of the parse the search finds. */
  lemma MatchItemRowIs(t: string, x: RowSpans)
    requires MatchRowSpans(t) == Some(x)
    ensures RowLayout(t, x) && MatchItemRow(t) == Some(RowCaptured(t, x))
  {
    MatchRowSound(t);
  }

  /** What every successful item match captures: a 3-6 digit SKU, a non-empty
      description, an icon group made of single icon letters separated by
      whitespace, a 1-3 digit quantity and a 1-4 digit carton quantity. */
  ghost predicate ValidRowCaptures(c: RowCaptures) {
    && 3 <= |c.sku| <= 6 && AllDigits(c.sku)
    && |c.description| >= 1
    && (c.icons.Some? ==> IconRunBetween(c.icons.value, 0, |c.icons.value|))
    && 1 <= |c.quantity| <= 3 && AllDigits(c.quantity)
    && 1 <= |c.carton| <= 4 && AllDigits(c.carton)
  }

  lemma RowCapturesValid(t: string, x: RowSpans)
    requires RowLayout(t, x)
    ensures ValidRowCaptures(RowCaptured(t, x))
  {
    DigitSlice(t, 0, x.l);
    DigitSlice(t, x.tail.a, x.tail.b);
    DigitSlice(t, x.tail.c, x.tail.d);
    if x.tail.icons.Some? {
      var (s, e) := x.tail.icons.value;
      IconRunSlice(t, s, e);
    }
  }

  lemma DigitSlice(t: string, i: nat, j: nat)
    requires ClassBetween(t, i, j, Digit)
    ensures AllDigits(t[i..j])
  {
    var w := t[i..j];
    assert forall k | 0 <= k < |w| :: w[k] == t[i + k];
  }

  lemma IconRunSlice(t: string, s: nat, e: nat)
    requires IconRunBetween(t, s, e)
    ensures IconRunBetween(t[s..e], 0, e - s)
  {
    var w := t[s..e];
    assert forall k | 0 <= k < |w| :: w[k] == t[s + k];
  }
}
