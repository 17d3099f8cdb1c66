/** The order the parser sorts department and sub-department codes by.
    `a.localeCompare(b)` on two strings of ASCII digits orders them code point
    by code point, so it is modelled as plain lexicographic order; for codes of
    equal width that is also their numeric order (`LexLeIsNumeric`). */
module Order {
  import opened Text

  /** `a` sorts no later than `b`: `a` is a prefix of `b`, or the first
      difference has the smaller character in `a`. */
  predicate LexLe(a: string, b: string)
    decreases |a|
  {
    |a| == 0 || (|b| > 0 && (a[0] < b[0] || (a[0] == b[0] && LexLe(a[1..], b[1..]))))
  }

  lemma {:induction false} LexLeReflexive(a: string)
    ensures LexLe(a, a)
    decreases |a|
  {
    if |a| > 0 {
      LexLeReflexive(a[1..]);
    }
  }

  lemma {:induction false} LexLeTotal(a: string, b: string)
    ensures LexLe(a, b) || LexLe(b, a)
    decreases |a|
  {
    if |a| > 0 && |b| > 0 && a[0] == b[0] {
      LexLeTotal(a[1..], b[1..]);
    }
  }

  lemma {:induction false} LexLeTransitive(a: string, b: string, c: string)
    requires LexLe(a, b) && LexLe(b, c)
    ensures LexLe(a, c)
    decreases |a|
  {
    if |a| > 0 && a[0] == b[0] && b[0] == c[0] {
      LexLeTransitive(a[1..], b[1..], c[1..]);
    }
  }

  lemma {:induction false} LexLeAntisymmetric(a: string, b: string)
    requires LexLe(a, b) && LexLe(b, a)
    ensures a == b
    decreases |a|
  {
    if |a| > 0 {
      LexLeAntisymmetric(a[1..], b[1..]);
      assert a == [a[0]] + a[1..] && b == [b[0]] + b[1..];
    }
  }

  /** The value of a digit string read from its first digit. */
  lemma {:induction false} DecimalValueFront(s: string)
    requires |s| >= 1 && AllDigits(s)
    ensures DecimalValue(s) == (s[0] as int - '0' as int) * Pow10(|s| - 1) + DecimalValue(s[1..])
    decreases |s|
  {
    var d0 := s[0] as int - '0' as int;
    if |s| > 1 {
      var init := s[..|s| - 1];
      var tail := s[1..];
      var last := s[|s| - 1] as int - '0' as int;
      DecimalValueFront(init);
      assert init[1..] == tail[..|tail| - 1];
      assert init[0] == s[0];
      assert tail[|tail| - 1] == s[|s| - 1];
      var p := Pow10(|s| - 2);
      var w := DecimalValue(init[1..]);
      assert DecimalValue(init) == d0 * p + w;
      assert DecimalValue(s) == DecimalValue(init) * 10 + last;
      assert DecimalValue(tail) == w * 10 + last;
      assert Pow10(|s| - 1) == 10 * p;
      Regroup(d0, p, w, last);
    } else {
      assert s[1..] == [];
      assert s[..0] == [];
    }
  }

  lemma Regroup(d0: int, p: int, w: int, last: int)
    ensures (d0 * p + w) * 10 + last == d0 * (10 * p) + (w * 10 + last)
  {
  }

  lemma {:induction false} MulMonotone(a: nat, b: nat, p: nat)
    requires a <= b
    ensures a * p <= b * p
    decreases b - a
  {
    if a < b {
      MulMonotone(a, b - 1, p);
      assert b * p == (b - 1) * p + p;
    }
  }

  /** A leading digit outweighs everything after it. */
  lemma LeadingDigitDominates(x: nat, y: nat, p: nat, u: nat, v: nat)
    requires x < y && u < p && v < p
    ensures x * p + u < y * p + v
  {
    MulMonotone(x + 1, y, p);
    assert (x + 1) * p == x * p + p;
  }

  /** For digit strings of equal width, lexicographic order is numeric order. */
  lemma {:induction false} LexLeIsNumeric(a: string, b: string)
    requires |a| == |b| && AllDigits(a) && AllDigits(b)
    ensures LexLe(a, b) <==> DecimalValue(a) <= DecimalValue(b)
    decreases |a|
  {
    if |a| > 0 {
      DecimalValueFront(a);
      DecimalValueFront(b);
      var x: nat := a[0] as int - '0' as int;
      var y: nat := b[0] as int - '0' as int;
      var p := Pow10(|a| - 1);
      var u := DecimalValue(a[1..]);
      var v := DecimalValue(b[1..]);
      if x < y {
        LeadingDigitDominates(x, y, p, u, v);
      } else if y < x {
        LeadingDigitDominates(y, x, p, v, u);
      } else {
        LexLeIsNumeric(a[1..], b[1..]);
      }
    }
  }
}
