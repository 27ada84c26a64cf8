/** Numbers written as digits, most significant digit first, and the lexicographic order of
    digit strings. Table keys (base 256) and version directory names (base 10) both rest on it. */
module Positional {

  function Pow(base: nat, width: nat): nat
  {
    if width == 0 then 1 else base * Pow(base, width - 1)
  }

  predicate Digits(base: nat, ds: seq<int>)
  {
    forall i :: 0 <= i < |ds| ==> 0 <= ds[i] < base
  }

  /** The number that a digit string stands for. */
  function Value(base: nat, ds: seq<int>): int
  {
    if ds == [] then 0 else Value(base, ds[..|ds| - 1]) * base + ds[|ds| - 1]
  }

  /** The lowest `width` digits of `n`. */
  function Fixed(base: nat, width: nat, n: nat): (ds: seq<int>)
    requires base > 0
    ensures |ds| == width && Digits(base, ds)
  {
    if width == 0 then [] else Fixed(base, width - 1, n / base) + [n % base]
  }

  /** How many decimal digits a number needs. */
  function Width(n: nat): (w: nat)
    ensures w >= 1 && n < Pow(10, w)
    ensures w > 1 ==> n >= Pow(10, w - 1)
  {
    if n < 10 then
      assert Pow(10, 1) == 10 * Pow(10, 0);
      1
    else
      var w := Width(n / 10);
      assert n < 10 * Pow(10, w);
      1 + w
  }

  predicate LexLess(a: seq<int>, b: seq<int>)
  {
    if b == [] then false
    else if a == [] then true
    else a[0] < b[0] || (a[0] == b[0] && LexLess(a[1..], b[1..]))
  }

  predicate LexLeq(a: seq<int>, b: seq<int>)
  {
    a == b || LexLess(a, b)
  }

  lemma ScaleLess(base: nat, x: int, y: int)
    requires x < y
    ensures x * base + base <= y * base
  {
    assert (y - x - 1) * base >= 0;
  }

  lemma {:induction false} ValueBound(base: nat, ds: seq<int>)
    requires Digits(base, ds)
    ensures 0 <= Value(base, ds) < Pow(base, |ds|)
  {
    if ds != [] {
      ValueBound(base, ds[..|ds| - 1]);
      ScaleLess(base, Value(base, ds[..|ds| - 1]), Pow(base, |ds| - 1));
      assert Value(base, ds[..|ds| - 1]) * base >= 0;
    }
  }

  lemma ValueSnoc(base: nat, ds: seq<int>, d: int)
    ensures Value(base, ds + [d]) == Value(base, ds) * base + d
  {
    assert (ds + [d])[..|ds|] == ds;
  }

  /** Dropping the lowest digit of a number that fits in `width` digits. */
  lemma Shorten(base: nat, width: nat, n: nat)
    requires base > 0 && width > 0 && n < Pow(base, width)
    ensures n / base < Pow(base, width - 1) && n / base * base + n % base == n
  {
    var q, m := n / base, Pow(base, width - 1);
    assert n == base * q + n % base;
    if q > m {
      ScaleLess(base, m, q);
    }
  }

  lemma {:induction false} ValueOfFixed(base: nat, width: nat, n: nat)
    requires base > 0 && n < Pow(base, width)
    ensures Value(base, Fixed(base, width, n)) == n
  {
    if width > 0 {
      Shorten(base, width, n);
      ValueOfFixed(base, width - 1, n / base);
      ValueSnoc(base, Fixed(base, width - 1, n / base), n % base);
    }
  }

  lemma LowestDigit(base: nat, q: nat, d: nat)
    requires d < base
    ensures (q * base + d) / base == q && (q * base + d) % base == d
  {
    var n := q * base + d;
    assert n == base * (n / base) + n % base;
    if n / base < q {
      ScaleLess(base, n / base, q);
    } else if n / base > q {
      ScaleLess(base, q, n / base);
    }
  }

  lemma {:induction false} FixedOfValue(base: nat, ds: seq<int>)
    requires base > 0 && Digits(base, ds)
    ensures Value(base, ds) >= 0 && Fixed(base, |ds|, Value(base, ds)) == ds
  {
    ValueBound(base, ds);
    if ds != [] {
      var front := ds[..|ds| - 1];
      FixedOfValue(base, front);
      LowestDigit(base, Value(base, front), ds[|ds| - 1]);
    }
  }

  lemma {:induction false} AllZeros(base: nat, ds: seq<int>)
    requires forall i :: 0 <= i < |ds| ==> ds[i] == 0
    ensures Value(base, ds) == 0
  {
    if ds != [] {
      AllZeros(base, ds[..|ds| - 1]);
    }
  }

  lemma {:induction false} AllLastDigits(base: nat, ds: seq<int>)
    requires base > 0 && forall i :: 0 <= i < |ds| ==> ds[i] == base - 1
    ensures Value(base, ds) == Pow(base, |ds|) - 1
  {
    if ds != [] {
      AllLastDigits(base, ds[..|ds| - 1]);
    }
  }

  /** Lexicographic order of strings of one length, seen from the last digit. */
  lemma {:induction false} LexLessFromTheEnd(a: seq<int>, b: seq<int>)
    requires |a| == |b| > 0
    ensures var n := |a| - 1;
            LexLess(a, b) <==> LexLess(a[..n], b[..n]) || (a[..n] == b[..n] && a[n] < b[n])
  {
    var n := |a| - 1;
    if n > 0 {
      LexLessFromTheEnd(a[1..], b[1..]);
      assert a[1..][..n - 1] == a[..n][1..] && b[1..][..n - 1] == b[..n][1..];
      assert a[..n] == [a[0]] + a[..n][1..] && b[..n] == [b[0]] + b[..n][1..];
    }
  }

  /** For strings of one length, text order is numeric order. */
  lemma {:induction false} OrderAgrees(base: nat, a: seq<int>, b: seq<int>)
    requires |a| == |b| && Digits(base, a) && Digits(base, b)
    ensures LexLess(a, b) <==> Value(base, a) < Value(base, b)
    ensures a == b <==> Value(base, a) == Value(base, b)
  {
    if a != [] {
      var n := |a| - 1;
      LexLessFromTheEnd(a, b);
      OrderAgrees(base, a[..n], b[..n]);
      var x, y := Value(base, a[..n]), Value(base, b[..n]);
      if x < y {
        ScaleLess(base, x, y);
      } else if y < x {
        ScaleLess(base, y, x);
      } else {
        assert a == a[..n] + [a[n]] && b == b[..n] + [b[n]];
      }
    }
  }

  /** Comparing a string with one no longer than it only looks at the common length. */
  lemma {:induction false} LexLessOnPrefix(a: seq<int>, b: seq<int>)
    requires |a| <= |b|
    ensures LexLeq(a, b) <==> LexLeq(a, b[..|a|])
    ensures LexLess(b, a) <==> LexLess(b[..|a|], a)
  {
    if a != [] {
      LexLessOnPrefix(a[1..], b[1..]);
      assert b[..|a|][1..] == b[1..][..|a| - 1];
      assert a == [a[0]] + a[1..];
      assert b[..|a|] == [b[0]] + b[..|a|][1..];
      assert b == [b[0]] + b[1..];
    }
  }

  lemma {:induction false} LexLessIrreflexive(a: seq<int>)
    ensures !LexLess(a, a)
  {
    if a != [] {
      LexLessIrreflexive(a[1..]);
    }
  }

  lemma {:induction false} LexLessTransitive(a: seq<int>, b: seq<int>, c: seq<int>)
    requires LexLess(a, b) && LexLess(b, c)
    ensures LexLess(a, c)
  {
    if a != [] && a[0] == b[0] == c[0] {
      LexLessTransitive(a[1..], b[1..], c[1..]);
    }
  }

  lemma {:induction false} LexLessTotal(a: seq<int>, b: seq<int>)
    ensures LexLess(a, b) || a == b || LexLess(b, a)
  {
    if a != [] && b != [] && a[0] == b[0] {
      LexLessTotal(a[1..], b[1..]);
      assert a == [a[0]] + a[1..] && b == [b[0]] + b[1..];
    }
  }
}
