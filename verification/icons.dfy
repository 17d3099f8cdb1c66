/** The icon list of an item, src/components/WorksheetParser.tsx:95:
    `(group || '').split(/\s+/).filter(char => 'UMTPRO'.includes(char))`. */
module Icons {
  import opened Wrappers
  import opened Text
  import opened ItemRow

  const IconAlphabet: string := "UMTPRO"

  /** The pieces `'UMTPRO'.includes(piece)` accepts, in order. */
  function KeepIconPieces(pieces: seq<string>): (r: seq<string>)
    ensures forall i | 0 <= i < |r| :: Contains(IconAlphabet, r[i]) && r[i] in pieces
    ensures |r| <= |pieces|
  {
    if |pieces| == 0 then []
    else (if Contains(IconAlphabet, pieces[0]) then [pieces[0]] else []) + KeepIconPieces(pieces[1..])
  }

  /** The icons of an item whose icon group captured `group`; when the group
      did not take part, `''.split(/\s+/)` is `[""]` and `""` passes the filter. */
  function IconsOf(group: Option<string>): (icons: seq<string>)
    ensures forall i | 0 <= i < |icons| :: Contains(IconAlphabet, icons[i])
    ensures group.None? ==> icons == [""]
  {
    KeepIconPieces(SplitWs(group.GetOr("")))
  }

  /** The icon list of an item: `[""]` when the icon group was absent,
      otherwise one or more single icon letters. */
  ghost predicate ValidIcons(icons: seq<string>) {
    || icons == [""]
    || (|icons| >= 1 && forall i | 0 <= i < |icons| :: |icons[i]| == 1 && IsIcon(icons[i][0]))
  }

  /** The non-whitespace characters of `g[i..]`, in order. */
  function LettersFrom(g: string, i: nat): string
    decreases |g| - i
  {
    if i >= |g| then "" else (if IsWs(g[i]) then "" else [g[i]]) + LettersFrom(g, i + 1)
  }

  function Concat(pieces: seq<string>): string {
    if |pieces| == 0 then "" else pieces[0] + Concat(pieces[1..])
  }

  lemma {:induction false} LettersSkipWs(g: string, i: nat, n: nat)
    requires WsBetween(g, i, n)
    ensures LettersFrom(g, i) == LettersFrom(g, n)
    decreases n - i
  {
    if i < n {
      LettersSkipWs(g, i + 1, n);
    }
  }

  lemma IconInAlphabet(c: char)
    requires IsIcon(c)
    ensures Contains(IconAlphabet, [c])
  {
    var k: nat := if c == 'U' then 0 else if c == 'M' then 1 else if c == 'T' then 2
      else if c == 'P' then 3 else if c == 'R' then 4 else 5;
    assert StartsAt(IconAlphabet, k, [c]);
    ContainsIff(IconAlphabet, [c]);
  }

  /** Splitting an icon run from the letter at `i` gives its letters one by one. */
  lemma {:induction false} SplitIconRun(g: string, i: nat)
    requires IconRunBetween(g, i, |g|)
    ensures var p := SplitWsFrom(g, i);
      && (forall k | 0 <= k < |p| :: |p[k]| == 1 && IsIcon(p[k][0]))
      && Concat(p) == LettersFrom(g, i)
      && KeepIconPieces(p) == p
    decreases |g| - i
  {
    IconInAlphabet(g[i]);
    if i + 1 == |g| {
      SplitLastLetter(g, i);
    } else {
      var n := NextInRun(g, i, |g|);
      SplitNextLetter(g, i, n);
      SplitIconRun(g, n);
      LettersSkipWs(g, i + 1, n);
      ConsLetter(g[i], SplitWsFrom(g, n));
    }
  }

  /** One more icon letter in front of a list of icon letters. */
  lemma ConsLetter(c: char, q: seq<string>)
    requires IsIcon(c) && Contains(IconAlphabet, [c])
    requires forall k | 0 <= k < |q| :: |q[k]| == 1 && IsIcon(q[k][0])
    requires KeepIconPieces(q) == q
    ensures var p := [[c]] + q;
      && (forall k | 0 <= k < |p| :: |p[k]| == 1 && IsIcon(p[k][0]))
      && Concat(p) == [c] + Concat(q)
      && KeepIconPieces(p) == p
  {
    var p := [[c]] + q;
    assert p[1..] == q;
  }

  /** A letter that is not followed by another non-whitespace character ends
      the first piece. */
  lemma LetterPiece(g: string, i: nat)
    requires i < |g| && !IsWs(g[i]) && (i + 1 == |g| || IsWs(g[i + 1]))
    ensures NonWsEnd(g, i) == i + 1 && g[i..i + 1] == [g[i]]
  {
    assert NonWsEnd(g, i + 1) == i + 1;
  }

  lemma SplitLastLetter(g: string, i: nat)
    requires i + 1 == |g| && !IsWs(g[i])
    ensures SplitWsFrom(g, i) == [[g[i]]]
  {
    LetterPiece(g, i);
    assert g[i..] == [g[i]];
  }

  lemma SplitNextLetter(g: string, i: nat, n: nat)
    requires i + 1 < |g| && !IsWs(g[i]) && IsWs(g[i + 1]) && n == SpanEnd(g, i + 1, Space)
    ensures SplitWsFrom(g, i) == [[g[i]]] + SplitWsFrom(g, n)
  {
    LetterPiece(g, i);
  }

  /** When the icon group took part, the icons are its letters, one per entry,
      in the order they appear. */
  lemma IconsOfRun(g: string)
    requires IconRunBetween(g, 0, |g|)
    ensures var icons := IconsOf(Some(g));
      && |icons| >= 1
      && (forall k | 0 <= k < |icons| :: |icons[k]| == 1 && IsIcon(icons[k][0]))
      && Concat(icons) == LettersFrom(g, 0)
  {
    SplitIconRun(g, 0);
  }

  /** Whatever the icon group captured, the icon list is `[""]` or single icon
      letters; in the second case they are the group's letters in order. */
  lemma IconsValid(group: Option<string>)
    requires group.Some? ==> IconRunBetween(group.value, 0, |group.value|)
    ensures ValidIcons(IconsOf(group))
    ensures group.Some? ==> var icons := IconsOf(group);
      && |icons| >= 1
      && (forall k | 0 <= k < |icons| :: |icons[k]| == 1 && IsIcon(icons[k][0]))
      && Concat(icons) == LettersFrom(group.value, 0)
  {
    if group.Some? {
      IconsOfRun(group.value);
    }
  }
}
