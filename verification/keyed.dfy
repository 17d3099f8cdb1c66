/** Sequences of records identified by a string key: lookup of the first
    record with a key (`Map.has`/`get`, `Array.some`/`find`), and the stable
    sort `Array.prototype.sort` performs with a `localeCompare` comparator. */
module Keyed {
  import opened Wrappers
  import opened Order

  /** No two records share a key. */
  ghost predicate DistinctKeys<T>(s: seq<T>, key: T -> string) {
    forall i, j | 0 <= i < j < |s| :: key(s[i]) != key(s[j])
  }

  /** Keys never decrease along the sequence. */
  ghost predicate SortedBy<T>(s: seq<T>, key: T -> string) {
    forall i, j | 0 <= i < j < |s| :: LexLe(key(s[i]), key(s[j]))
  }

  /** Index of the first record whose key is `k`. */
  function FindBy<T>(s: seq<T>, key: T -> string, k: string): (r: Option<nat>)
    ensures r.Some? ==> r.value < |s| && key(s[r.value]) == k
    ensures r.Some? ==> forall i | 0 <= i < r.value :: key(s[i]) != k
    ensures r.None? ==> forall i | 0 <= i < |s| :: key(s[i]) != k
  {
    if |s| == 0 then None
    else if key(s[0]) == k then Some(0)
    else
      match FindBy(s[1..], key, k)
      case None => None
      case Some(i) => Some(i + 1)
  }

  /** Inserts `x` into a sorted sequence before the first record whose key is
      not smaller, so records with equal keys keep their relative order. */
  function InsertBy<T>(x: T, s: seq<T>, key: T -> string): (r: seq<T>)
    requires SortedBy(s, key)
    ensures multiset(r) == multiset(s) + multiset{x}
    ensures SortedBy(r, key)
    ensures DistinctKeys(s, key) && (forall y | y in s :: key(y) != key(x)) ==> DistinctKeys(r, key)
  {
    if |s| == 0 then [x]
    else if LexLe(key(x), key(s[0])) then
      InsertFront(x, s, key);
      [x] + s
    else
      var rest := InsertBy(x, s[1..], key);
      InsertLater(x, s, key, rest);
      [s[0]] + rest
  }

  lemma InsertFront<T>(x: T, s: seq<T>, key: T -> string)
    requires SortedBy(s, key) && |s| > 0 && LexLe(key(x), key(s[0]))
    ensures SortedBy([x] + s, key)
  {
    forall j | 0 <= j < |s| ensures LexLe(key(x), key(s[j])) {
      if j > 0 { LexLeTransitive(key(x), key(s[0]), key(s[j])); }
    }
  }

  /** The element at index `k` of `s[1..]` is at index `k + 1` of `s`. */
  lemma InTail<T>(s: seq<T>, z: T) returns (k: nat)
    requires |s| > 0 && z in s[1..]
    ensures 1 <= k < |s| && s[k] == z
  {
    var i :| 0 <= i < |s[1..]| && s[1..][i] == z;
    k := i + 1;
  }

  /** Every record of `rest` is `x` or comes from `s[1..]`. */
  lemma FromTailOrX<T>(x: T, s: seq<T>, rest: seq<T>, z: T)
    requires |s| > 0 && multiset(rest) == multiset(s[1..]) + multiset{x}
    requires z in rest
    ensures z == x || z in s[1..]
  {
    assert z in multiset(rest);
  }

  /** A record placed before a sorted sequence whose keys are all at least its
      own keeps it sorted. */
  lemma ConsSorted<T>(y: T, rest: seq<T>, key: T -> string)
    requires SortedBy(rest, key)
    requires forall z | z in rest :: LexLe(key(y), key(z))
    ensures SortedBy([y] + rest, key)
  {
    var r := [y] + rest;
    forall i, j | 0 <= i < j < |r| ensures LexLe(key(r[i]), key(r[j])) {
      assert r[j] == rest[j - 1];
      if i > 0 {
        assert r[i] == rest[i - 1];
      }
    }
  }

  lemma ConsDistinct<T>(y: T, rest: seq<T>, key: T -> string)
    requires DistinctKeys(rest, key)
    requires forall z | z in rest :: key(y) != key(z)
    ensures DistinctKeys([y] + rest, key)
  {
    var r := [y] + rest;
    forall i, j | 0 <= i < j < |r| ensures key(r[i]) != key(r[j]) {
      assert r[j] == rest[j - 1];
      if i > 0 {
        assert r[i] == rest[i - 1];
      }
    }
  }

  lemma InsertLater<T>(x: T, s: seq<T>, key: T -> string, rest: seq<T>)
    requires SortedBy(s, key) && |s| > 0 && !LexLe(key(x), key(s[0]))
    requires multiset(rest) == multiset(s[1..]) + multiset{x}
    requires SortedBy(rest, key)
    requires DistinctKeys(s[1..], key) && (forall y | y in s[1..] :: key(y) != key(x)) ==> DistinctKeys(rest, key)
    ensures multiset([s[0]] + rest) == multiset(s) + multiset{x}
    ensures SortedBy([s[0]] + rest, key)
    ensures DistinctKeys(s, key) && (forall y | y in s :: key(y) != key(x)) ==> DistinctKeys([s[0]] + rest, key)
  {
    LexLeTotal(key(x), key(s[0]));
    assert s == [s[0]] + s[1..];
    forall z | z in rest ensures LexLe(key(s[0]), key(z)) {
      FromTailOrX(x, s, rest, z);
      if z != x {
        var k := InTail(s, z);
      }
    }
    ConsSorted(s[0], rest, key);
    if DistinctKeys(s, key) && (forall y | y in s :: key(y) != key(x)) {
      forall z | z in rest ensures key(s[0]) != key(z) {
        FromTailOrX(x, s, rest, z);
        if z != x {
          var k := InTail(s, z);
        }
      }
      assert DistinctKeys(s[1..], key);
      ConsDistinct(s[0], rest, key);
    }
  }

  /** `s.sort((a, b) => key(a).localeCompare(key(b)))`: a stable insertion
      sort. The result is a permutation of `s` in key order, and keys that were
      distinct stay distinct. */
  function SortBy<T>(s: seq<T>, key: T -> string): (r: seq<T>)
    ensures multiset(r) == multiset(s)
    ensures SortedBy(r, key)
    ensures DistinctKeys(s, key) ==> DistinctKeys(r, key)
  {
    if |s| == 0 then []
    else
      var rest := SortBy(s[1..], key);
      SortStep(s, key, rest);
      InsertBy(s[0], rest, key)
  }

  lemma SortStep<T>(s: seq<T>, key: T -> string, rest: seq<T>)
    requires |s| > 0 && multiset(rest) == multiset(s[1..])
    requires DistinctKeys(s[1..], key) ==> DistinctKeys(rest, key)
    ensures multiset(rest) + multiset{s[0]} == multiset(s)
    ensures DistinctKeys(s, key) ==> DistinctKeys(rest, key) && forall y | y in rest :: key(y) != key(s[0])
  {
    assert s == [s[0]] + s[1..];
    if DistinctKeys(s, key) {
      forall y | y in rest ensures key(y) != key(s[0]) {
        assert y in multiset(rest);
        var k := InTail(s, y);
      }
    }
  }
}
