/** The order in which a backtracking regular-expression engine (JavaScript's)
    tries the alternatives of a quantifier, written as searches over positions.
    A matcher built from these returns the first match in that order, which is
    the match `String.prototype.match` reports. */
module Backtrack {
  import opened Wrappers
  import opened Text

  /** The first index `j` in `lo..hi` at which `f` succeeds, with its value. */
  function FirstFrom<A>(f: nat -> Option<A>, lo: nat, hi: int): (r: Option<(nat, A)>)
    ensures r.Some? ==> lo <= r.value.0 <= hi && f(r.value.0) == Some(r.value.1)
    ensures r.Some? ==> forall j: nat :: lo <= j < r.value.0 ==> f(j).None?
    ensures r.None? ==> forall j: nat :: lo <= j <= hi ==> f(j).None?
    decreases hi - lo
  {
    if hi < lo then None
    else
      match f(lo)
      case Some(a) => Some((lo, a))
      case None => FirstFrom(f, lo + 1, hi)
  }

  /** The first success is the one before which everything fails. */
  lemma FirstFromAt<A>(f: nat -> Option<A>, lo: nat, hi: int, j: nat)
    requires lo <= j <= hi && f(j).Some?
    requires forall i: nat :: lo <= i < j ==> f(i).None?
    ensures FirstFrom(f, lo, hi) == Some((j, f(j).value))
  {
    var r := FirstFrom(f, lo, hi);
    assert r.Some? && r.value.0 == j;
  }

  /** How far a group starting at `d0` may extend: to the end for `[^]`
      (`dotAll`), to the first line terminator for `.`. */
  function Reach(t: string, d0: nat, dotAll: bool): (hi: nat)
    requires d0 <= |t|
    ensures d0 <= hi <= |t|
    ensures dotAll ==> hi == |t|
    ensures !dotAll ==> forall m | d0 <= m < hi :: !IsLineTerminator(t[m])
    ensures !dotAll ==> hi == |t| || IsLineTerminator(t[hi])
  {
    if dotAll then |t| else SpanEnd(t, d0, Dot)
  }

  /** A lazy group (`.*?` when `minLen` is 0, `.+?` when it is 1) starting at
      `d0` and followed by `rest`: its end is tried from shortest to longest. */
  function Lazy<A>(t: string, d0: nat, minLen: nat, dotAll: bool, rest: nat -> Option<A>): (r: Option<(nat, A)>)
    requires d0 <= |t|
    ensures r.Some? ==> d0 + minLen <= r.value.0 <= Reach(t, d0, dotAll) && rest(r.value.0) == Some(r.value.1)
    ensures r.Some? ==> forall e: nat :: d0 + minLen <= e < r.value.0 ==> rest(e).None?
    ensures r.None? ==> forall e: nat :: d0 + minLen <= e <= Reach(t, d0, dotAll) ==> rest(e).None?
  {
    FirstFrom(rest, d0 + minLen, Reach(t, d0, dotAll))
  }

  /** The last index `j` in `lo..hi` at which `f` succeeds, with its value:
      the order in which a greedy quantifier tries its lengths. */
  function LastFrom<A>(f: nat -> Option<A>, lo: nat, hi: int): (r: Option<(nat, A)>)
    ensures r.Some? ==> lo <= r.value.0 <= hi && f(r.value.0) == Some(r.value.1)
    ensures r.Some? ==> forall j: nat :: r.value.0 < j <= hi ==> f(j).None?
    ensures r.None? ==> forall j: nat :: lo <= j <= hi ==> f(j).None?
    decreases hi - lo
  {
    if hi < lo then None
    else
      match f(hi)
      case Some(a) => Some((hi, a))
      case None => LastFrom(f, lo, hi - 1)
  }

  /** A greedy group (`.*`, or `[^]*` when `dotAll`) starting at `d0` and
      followed by `rest`: its end is tried from longest to shortest. */
  function Greedy<A>(t: string, d0: nat, dotAll: bool, rest: nat -> Option<A>): (r: Option<(nat, A)>)
    requires d0 <= |t|
    ensures r.Some? ==> d0 <= r.value.0 <= Reach(t, d0, dotAll) && rest(r.value.0) == Some(r.value.1)
    ensures r.Some? ==> forall e: nat :: r.value.0 < e <= Reach(t, d0, dotAll) ==> rest(e).None?
    ensures r.None? ==> forall e: nat :: d0 <= e <= Reach(t, d0, dotAll) ==> rest(e).None?
  {
    LastFrom(rest, d0, Reach(t, d0, dotAll))
  }

  /** Every prefix of the longest whitespace run is whitespace. */
  lemma WsRunPrefix(t: string, b: nat, d: nat)
    requires b <= |t| && b <= d <= SpanEnd(t, b, Space)
    ensures WsBetween(t, b, d)
  {
  }

  /** `\s+` at `b` followed by `group`, the sub-pattern that starts where the
      `\s+` stops: the run is tried from longest to a single character. */
  function WsPlusThen<A>(t: string, b: nat, group: nat -> Option<A>): (r: Option<(nat, A)>)
    requires b <= |t|
    ensures r.Some? ==> b < r.value.0 <= |t| && WsBetween(t, b, r.value.0) && group(r.value.0) == Some(r.value.1)
    ensures r.Some? ==> forall d: nat :: r.value.0 < d <= |t| && WsBetween(t, b, d) ==> group(d).None?
    ensures r.None? ==> forall d: nat :: b < d <= |t| && WsBetween(t, b, d) ==> group(d).None?
  {
    if !(b < |t| && IsWs(t[b])) then
      None
    else
      var q := SpanEnd(t, b, Space);
      var s := LastFrom(group, b + 1, q);
      WsRunBound(t, b);
      if s.Some? then WsRunPrefix(t, b, s.value.0); s else s
  }

  /** Any whitespace stretch from `b` lies within the longest run. */
  lemma WsRunBound(t: string, b: nat)
    requires b <= |t|
    ensures forall d: nat :: b < d <= |t| && WsBetween(t, b, d) ==> d <= SpanEnd(t, b, Space)
  {
    forall d: nat | b < d <= |t| && WsBetween(t, b, d) ensures d <= SpanEnd(t, b, Space) {
      SpanEndBound(t, b, d, Space);
    }
  }

  /** The end of a pattern that has no `$`: whatever follows is accepted. */
  function Done(): nat -> Option<()> {
    (e: nat) => Some(())
  }

  /** A greedy `[^]*` closing the pattern takes everything that is left. */
  lemma GreedyToEnd(t: string, g: nat)
    requires g <= |t|
    ensures Greedy(t, g, true, Done()) == Some((|t|, ()))
  {
    assert Done()(|t|) == Some(());
  }
}
