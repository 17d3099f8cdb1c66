/** Characters and strings as the parser's JavaScript sees them: the `\s`, `\d`
    and `.` classes of its regular expressions, `trim`, `includes`, `split`,
    `padStart` and `parseInt`. Strings are sequences of code points. */
module Text {
  import opened Wrappers

  /** ECMAScript WhiteSpace and LineTerminator code points: the class `\s`
      matches and the set `String.prototype.trim` strips. */
  predicate IsWs(c: char) {
    || c == ' ' || c == '\t' || c == '\n' || c == '\r' || c == '\U{000B}' || c == '\U{000C}'
    || c == '\U{00A0}' || c == '\U{1680}' || ('\U{2000}' <= c <= '\U{200A}')
    || c == '\U{2028}' || c == '\U{2029}' || c == '\U{202F}' || c == '\U{205F}'
    || c == '\U{3000}' || c == '\U{FEFF}'
  }

  /** The code points a `.` in a regular expression without the `s` flag refuses. */
  predicate IsLineTerminator(c: char) {
    c == '\n' || c == '\r' || c == '\U{2028}' || c == '\U{2029}'
  }

  predicate IsDigit(c: char) { '0' <= c <= '9' }

  predicate IsUpper(c: char) { 'A' <= c <= 'Z' }

  predicate AllWs(s: string) { forall i | 0 <= i < |s| :: IsWs(s[i]) }

  predicate AllDigits(s: string) { forall i | 0 <= i < |s| :: IsDigit(s[i]) }

  /** The single-character classes the parser's patterns repeat. */
  datatype CharClass = Space | Digit | DateChar | TimeChar | Dot

  predicate InClass(c: char, k: CharClass) {
    match k
    case Space => IsWs(c)
    case Digit => IsDigit(c)
    case DateChar => IsDigit(c) || c == '/'
    case TimeChar => IsDigit(c) || c == ':'
    case Dot => !IsLineTerminator(c)
  }

  /** Every character of `t[i..j]` is in class `k`. */
  predicate ClassBetween(t: string, i: nat, j: nat, k: CharClass) {
    i <= j <= |t| && forall m | i <= m < j :: InClass(t[m], k)
  }

  predicate WsBetween(t: string, i: nat, j: nat) {
    ClassBetween(t, i, j, Space)
  }

  /** End of the longest run of `k` characters starting at `i`: where a greedy
      `k*` stops. */
  function SpanEnd(t: string, i: nat, k: CharClass): (j: nat)
    requires i <= |t|
    ensures i <= j <= |t|
    ensures forall m | i <= m < j :: InClass(t[m], k)
    ensures j == |t| || !InClass(t[j], k)
    decreases |t| - i
  {
    if i < |t| && InClass(t[i], k) then SpanEnd(t, i + 1, k) else i
  }

  /** A run of class `k` that is followed by something outside `k` (or by the
      end) ends where `SpanEnd` says. */
  lemma SpanEndOfRun(t: string, i: nat, j: nat, k: CharClass)
    requires i <= j <= |t|
    requires forall m | i <= m < j :: InClass(t[m], k)
    requires j == |t| || !InClass(t[j], k)
    ensures SpanEnd(t, i, k) == j
    decreases j - i
  {
    if i < j {
      SpanEndOfRun(t, i + 1, j, k);
    }
  }

  /** A slice of class `k` starting at `i` lies within the longest run. */
  lemma SpanEndBound(t: string, i: nat, j: nat, k: CharClass)
    requires ClassBetween(t, i, j, k)
    ensures j <= SpanEnd(t, i, k)
  {
  }

  /** `p` occurs in `t` at index `i`. */
  predicate StartsAt(t: string, i: nat, p: string) {
    i + |p| <= |t| && t[i..i + |p|] == p
  }

  /** Index of the first occurrence of `p` in `t` at or after `i`. */
  function IndexOf(t: string, p: string, i: nat): (r: Option<nat>)
    ensures r.Some? ==> i <= r.value && StartsAt(t, r.value, p)
    ensures r.Some? ==> forall j | i <= j < r.value :: !StartsAt(t, j, p)
    ensures r.None? ==> forall j | i <= j :: !StartsAt(t, j, p)
    decreases |t| - i
  {
    if i + |p| > |t| then None
    else if t[i..i + |p|] == p then Some(i)
    else IndexOf(t, p, i + 1)
  }

  /** `String.prototype.includes`. */
  predicate Contains(t: string, p: string) {
    IndexOf(t, p, 0).Some?
  }

  /** `includes` holds exactly when `p` occurs somewhere in `t`. */
  lemma ContainsIff(t: string, p: string)
    ensures Contains(t, p) <==> exists i: nat :: StartsAt(t, i, p)
  {
    var r := IndexOf(t, p, 0);
    if r.Some? {
      assert StartsAt(t, r.value, p);
    }
  }

  /** A string lacking one of the characters of `p` does not contain `p`. */
  lemma MissingCharNotContained(t: string, p: string, c: char)
    requires c in p && c !in t
    ensures !Contains(t, p)
  {
    ContainsIff(t, p);
  }

  /** Start of the trailing whitespace of `s[lo..j]`. */
  function TrimmedEnd(s: string, lo: nat, j: nat): (k: nat)
    requires lo <= j <= |s|
    ensures lo <= k <= j
    ensures forall m | k <= m < j :: IsWs(s[m])
    ensures k == lo || !IsWs(s[k - 1])
    decreases j
  {
    if j > lo && IsWs(s[j - 1]) then TrimmedEnd(s, lo, j - 1) else j
  }

  /** No whitespace at either end. */
  predicate IsTrimmed(s: string) {
    |s| == 0 || (!IsWs(s[0]) && !IsWs(s[|s| - 1]))
  }

  /** `String.prototype.trim`: the slice of `s` left once the whitespace at both
      ends is stripped. */
  function Trim(s: string): (r: string)
    ensures exists i, j :: 0 <= i <= j <= |s| && r == s[i..j] && AllWs(s[..i]) && AllWs(s[j..])
    ensures IsTrimmed(r)
  {
    var i := SpanEnd(s, 0, Space);
    var j := TrimmedEnd(s, i, |s|);
    assert AllWs(s[..i]);
    assert AllWs(s[j..]);
    s[i..j]
  }

  /** A string with no whitespace at either end is its own trim. */
  lemma TrimOfTrimmed(s: string)
    requires IsTrimmed(s)
    ensures Trim(s) == s
  {
    var i := SpanEnd(s, 0, Space);
    if |s| > 0 {
      assert i == 0;
      assert TrimmedEnd(s, 0, |s|) == |s|;
    }
  }

  /** Trimming is idempotent. */
  lemma TrimIdempotent(s: string)
    ensures Trim(Trim(s)) == Trim(s)
  {
    TrimOfTrimmed(Trim(s));
  }

  /** Joins `parts` with `sep` between neighbours: the inverse of `Split`. */
  function Join(parts: seq<string>, sep: char): string
    requires |parts| >= 1
  {
    if |parts| == 1 then parts[0] else parts[0] + [sep] + Join(parts[1..], sep)
  }

  /** `String.prototype.split` on a one-character separator: the pieces between
      separators, never fewer than one. */
  function Split(s: string, sep: char): (r: seq<string>)
    ensures |r| >= 1
    ensures forall i | 0 <= i < |r| :: sep !in r[i]
    ensures Join(r, sep) == s
  {
    if |s| == 0 then [""]
    else
      var rest := Split(s[1..], sep);
      if s[0] == sep then
        assert s == [sep] + s[1..];
        [""] + rest
      else
        var r := [[s[0]] + rest[0]] + rest[1..];
        assert r[1..] == rest[1..];
        assert s == [s[0]] + s[1..];
        r
  }

  /** A piece without the separator splits to itself. */
  lemma {:induction false} SplitNoSep(a: string, sep: char)
    requires sep !in a
    ensures Split(a, sep) == [a]
  {
    if |a| > 0 {
      SplitNoSep(a[1..], sep);
      assert [a[0]] + a[1..] == a;
    }
  }

  /** Splitting stops at the first separator. */
  lemma {:induction false} SplitFirstPiece(a: string, sep: char, rest: string)
    requires sep !in a
    ensures Split(a + [sep] + rest, sep) == [a] + Split(rest, sep)
  {
    var s := a + [sep] + rest;
    if |a| == 0 {
      assert s[1..] == rest;
    } else {
      assert s[1..] == a[1..] + [sep] + rest;
      SplitFirstPiece(a[1..], sep, rest);
      assert [a[0]] + a[1..] == a;
    }
  }

  /** `split` undoes `join` when no piece holds the separator. */
  lemma {:induction false} SplitOfJoin(parts: seq<string>, sep: char)
    requires |parts| >= 1 && forall i | 0 <= i < |parts| :: sep !in parts[i]
    ensures Split(Join(parts, sep), sep) == parts
  {
    if |parts| == 1 {
      SplitNoSep(parts[0], sep);
    } else {
      SplitOfJoin(parts[1..], sep);
      SplitFirstPiece(parts[0], sep, Join(parts[1..], sep));
      assert [parts[0]] + parts[1..] == parts;
    }
  }

  /** `s.split(/\s+/)`: the pieces between maximal whitespace runs, starting at
      `i`. A leading run yields a leading `""`, a trailing run a trailing `""`,
      and the empty string the single piece `""`. */
  function SplitWsFrom(s: string, i: nat): (r: seq<string>)
    requires i <= |s|
    ensures |r| >= 1
    ensures forall k | 0 <= k < |r| :: AllNonWs(r[k])
    decreases |s| - i
  {
    var j := NonWsEnd(s, i);
    if j == |s| then [s[i..]]
    else
      var k := SpanEnd(s, j, Space);
      [s[i..j]] + SplitWsFrom(s, k)
  }

  predicate AllNonWs(s: string) { forall i | 0 <= i < |s| :: !IsWs(s[i]) }

  /** First whitespace at or after `i` (or the end). */
  function NonWsEnd(s: string, i: nat): (j: nat)
    requires i <= |s|
    ensures i <= j <= |s|
    ensures forall m | i <= m < j :: !IsWs(s[m])
    ensures j == |s| || IsWs(s[j])
    decreases |s| - i
  {
    if i < |s| && !IsWs(s[i]) then NonWsEnd(s, i + 1) else i
  }

  function SplitWs(s: string): seq<string> {
    SplitWsFrom(s, 0)
  }

  /** `k` copies of `c`. */
  function Repeat(c: char, k: nat): (r: string)
    ensures |r| == k && forall i | 0 <= i < k :: r[i] == c
  {
    if k == 0 then "" else [c] + Repeat(c, k - 1)
  }

  /** `s.padStart(n, fill)` with a one-character `fill`: `s` behind as many
      copies of `fill` as bring it to length `n`, or `s` itself when it is
      that long already. */
  function PadStart(s: string, n: nat, fill: char): (r: string)
    ensures |r| == if |s| >= n then |s| else n
    ensures r[|r| - |s|..] == s
    ensures forall i | 0 <= i < |r| - |s| :: r[i] == fill
  {
    if |s| >= n then s
    else
      var pad := Repeat(fill, n - |s|);
      assert (pad + s)[n - |s|..] == s;
      pad + s
  }

  function Pow10(k: nat): nat {
    if k == 0 then 1 else 10 * Pow10(k - 1)
  }

  /** `parseInt` of a string of decimal digits. */
  function DecimalValue(s: string): (v: nat)
    requires AllDigits(s)
    ensures v < Pow10(|s|)
  {
    if |s| == 0 then 0
    else DecimalValue(s[..|s| - 1]) * 10 + (s[|s| - 1] as int - '0' as int)
  }

  /** Leading zeros do not change a decimal value. */
  lemma {:induction false} DecimalValueLeadingZeros(z: string, s: string)
    requires forall i | 0 <= i < |z| :: z[i] == '0'
    requires AllDigits(s)
    ensures AllDigits(z + s)
    ensures DecimalValue(z + s) == DecimalValue(s)
    decreases |s|
  {
    if |s| == 0 {
      assert z + s == z;
      AllZerosValue(z);
    } else {
      var zs := z + s;
      assert zs[..|zs| - 1] == z + s[..|s| - 1];
      DecimalValueLeadingZeros(z, s[..|s| - 1]);
    }
  }

  lemma {:induction false} AllZerosValue(z: string)
    requires forall i | 0 <= i < |z| :: z[i] == '0'
    ensures AllDigits(z) && DecimalValue(z) == 0
  {
    if |z| > 0 {
      AllZerosValue(z[..|z| - 1]);
    }
  }
}
