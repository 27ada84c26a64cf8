/** The names of version directories: numbers printed in at least twelve digits. */
module VersionNames {
  import opened Wrappers
  import opened Positional
  import opened Keys

  const ZERO: Byte := 48
  const PLUS: Byte := 43

  function PrintedWidth(n: nat): nat
  {
    if Width(n) > 12 then Width(n) else 12
  }

  function Letters(ds: seq<int>): (r: Bytes)
    requires Digits(10, ds)
    ensures |r| == |ds| && forall i :: 0 <= i < |r| ==> r[i] == ZERO + ds[i]
  {
    seq(|ds|, i requires 0 <= i < |ds| => ZERO + ds[i])
  }

  /** `format!("{:012}", n)` */
  function Print(n: U64): (name: Bytes)
    ensures |name| >= 12
  {
    Letters(Fixed(10, PrintedWidth(n), n))
  }

  predicate AllDigits(bs: Bytes)
  {
    forall i :: 0 <= i < |bs| ==> ZERO <= bs[i] < ZERO + 10
  }

  function DigitValues(bs: Bytes): (ds: seq<int>)
    requires AllDigits(bs)
    ensures |ds| == |bs| && Digits(10, ds)
  {
    seq(|bs|, i requires 0 <= i < |bs| => bs[i] - ZERO)
  }

  /** `parse::<u64>()`, which takes a leading plus sign and refuses anything that does not fit. */
  function Parse(bs: Bytes): Option<U64>
  {
    var digits := if |bs| > 1 && bs[0] == PLUS then bs[1..] else bs;
    if digits == [] || !AllDigits(digits) then None
    else
      ValueBound(10, DigitValues(digits));
      if Value(10, DigitValues(digits)) < U64_LIMIT then Some(Value(10, DigitValues(digits))) else None
  }

  lemma {:induction false} PowPositive(base: nat, a: nat)
    requires base > 0
    ensures Pow(base, a) >= 1
  {
    if a > 0 {
      PowPositive(base, a - 1);
    }
  }

  lemma TimesGrows(a: nat, b: nat)
    requires a > 0
    ensures b <= a * b
  {
    assert a * b - b == (a - 1) * b >= 0;
  }

  lemma {:induction false} PowGrows(base: nat, a: nat, b: nat)
    requires base > 0 && a <= b
    ensures Pow(base, a) <= Pow(base, b)
  {
    if a < b {
      PowGrows(base, a, b - 1);
      TimesGrows(base, Pow(base, b - 1));
    }
  }

  lemma PrintedFits(n: nat)
    ensures n < Pow(10, PrintedWidth(n))
  {
    PowGrows(10, Width(n), PrintedWidth(n));
  }

  /** Every printed number parses back to itself. */
  lemma ParsePrint(n: U64)
    ensures Parse(Print(n)) == Some(n)
  {
    var ds := Fixed(10, PrintedWidth(n), n);
    PrintedFits(n);
    ValueOfFixed(10, PrintedWidth(n), n);
    assert AllDigits(Letters(ds)) && Letters(ds)[0] != PLUS;
    assert DigitValues(Letters(ds)) == ds;
  }

  /** The bytes are decimal digits, and the number is what they mean. */
  ghost predicate ReadsAs(bs: Bytes, n: nat)
  {
    && bs != [] && (forall i :: 0 <= i < |bs| ==> 48 <= bs[i] <= 57)
    && n == Value(10, seq(|bs|, i requires 0 <= i < |bs| => bs[i] - 48))
  }

  /** A name parses as a number exactly if it is its digits, with or without a plus sign before them. */
  lemma ParseIff(bs: Bytes, n: U64)
    ensures Parse(bs) == Some(n) <==> ReadsAs(bs, n) || (bs != [] && bs[0] == 43 && ReadsAs(bs[1..], n))
  {
    hide Value;
    if AllDigits(bs) {
      assert DigitValues(bs) == seq(|bs|, i requires 0 <= i < |bs| => bs[i] - 48);
    }
    if bs != [] && AllDigits(bs[1..]) {
      assert DigitValues(bs[1..]) == seq(|bs[1..]|, i requires 0 <= i < |bs[1..]| => bs[1..][i] - 48);
    }
  }

  /** A number is printed as its digits, in twelve places or as many as it needs. */
  lemma PrintReads(n: U64)
    ensures ReadsAs(Print(n), n) && |Print(n)| == if Width(n) > 12 then Width(n) else 12
  {
    PrintedFits(n);
    ValueOfFixed(10, PrintedWidth(n), n);
    var bs, ds := Print(n), Fixed(10, PrintedWidth(n), n);
    assert seq(|bs|, i requires 0 <= i < |bs| => bs[i] - 48) == ds;
  }

  lemma OneDigit(d: nat)
    requires d < 10
    ensures Print(d) == [48, 48, 48, 48, 48, 48, 48, 48, 48, 48, 48, 48 + d]
  {
    hide Value, Fixed;
    var ds: seq<int> := [0, 0, 0, 0, 0, 0, 0, 0, 0, 0, 0, d];
    var zeros: seq<int> := [0, 0, 0, 0, 0, 0, 0, 0, 0, 0, 0];
    assert ds == zeros + [d];
    AllZeros(10, zeros);
    ValueSnoc(10, zeros, d);
    FixedOfValue(10, ds);
    assert Fixed(10, 12, d) == ds;
  }

  /** The names that the first-upload branch spells out. */
  lemma FirstNames()
    ensures Print(0) == [48, 48, 48, 48, 48, 48, 48, 48, 48, 48, 48, 48]
    ensures Print(1) == [48, 48, 48, 48, 48, 48, 48, 48, 48, 48, 48, 49]
  {
    OneDigit(0);
    OneDigit(1);
  }

  lemma TenToTheTwelve()
    ensures Pow(10, 12) == 1_000_000_000_000
  {
    assert Pow(10, 4) == 10_000;
    assert Pow(10, 8) == 10 * (10 * (10 * (10 * Pow(10, 4))));
    assert Pow(10, 12) == 10 * (10 * (10 * (10 * Pow(10, 8))));
  }

  lemma WidthBelow(n: nat)
    requires n < 1_000_000_000_000
    ensures PrintedWidth(n) == 12
  {
    TenToTheTwelve();
    if Width(n) > 12 {
      PowGrows(10, 12, Width(n) - 1);
    }
  }

  lemma {:induction false} LettersOrder(a: seq<int>, b: seq<int>)
    requires Digits(10, a) && Digits(10, b)
    ensures LexLess(Letters(a), Letters(b)) <==> LexLess(a, b)
  {
    if a != [] && b != [] {
      LettersOrder(a[1..], b[1..]);
      assert Letters(a)[1..] == Letters(a[1..]) && Letters(b)[1..] == Letters(b[1..]);
    }
  }

  /** Below a million million, the order of names is the order of versions. */
  lemma PrintKeepsOrder(m: U64, n: U64)
    requires m < 1_000_000_000_000 && n < 1_000_000_000_000
    ensures LexLess(Print(m), Print(n)) <==> m < n
  {
    WidthBelow(m);
    WidthBelow(n);
    PrintedFits(m);
    PrintedFits(n);
    var a, b := Fixed(10, 12, m), Fixed(10, 12, n);
    ValueOfFixed(10, 12, m);
    ValueOfFixed(10, 12, n);
    OrderAgrees(10, a, b);
    LettersOrder(a, b);
  }

  lemma {:induction false} LeadingDigit(base: nat, width: nat, n: nat)
    requires base > 0 && width > 0 && n < Pow(base, width)
    ensures Pow(base, width - 1) > 0
    ensures Fixed(base, width, n)[0] == n / Pow(base, width - 1)
  {
    PowPositive(base, width - 1);
    if width > 1 {
      Shorten(base, width, n);
      LeadingDigit(base, width - 1, n / base);
      DivideByProduct(n, base, Pow(base, width - 2), Pow(base, width - 1));
    } else {
      LowestDigit(base, 0, n);
    }
  }

  lemma DivideByProduct(n: nat, a: nat, b: nat, ab: nat)
    requires a > 0 && b > 0 && ab == a * b
    ensures ab > 0 && n / a / b == n / ab
  {
    DivideTwice(n, a, b);
  }

  lemma DivideTwice(n: nat, a: nat, b: nat)
    requires a > 0 && b > 0
    ensures a * b > 0 && n / a / b == n / (a * b)
  {
    var q, r := n / a, n % a;
    var t, u := q / b, q % b;
    assert n == (b * t + u) * a + r;
    assert n == t * (a * b) + (u * a + r);
    assert u * a + a <= b * a by {
      ScaleLess(a, u, b);
    }
    LowestDigit(a * b, t, u * a + r);
  }

  lemma FirstLetter(n: U64, width: nat)
    requires PrintedWidth(n) == width > 0
    ensures Pow(10, width - 1) > 0 && Print(n)[0] == ZERO + n / Pow(10, width - 1)
  {
    PrintedFits(n);
    LeadingDigit(10, width, n);
  }

  lemma WidthIs(n: nat, w: nat)
    requires w > 0 && Pow(10, w - 1) <= n < Pow(10, w)
    ensures Width(n) == w
  {
    if Width(n) < w {
      PowGrows(10, Width(n), w - 1);
    } else if Width(n) > w {
      PowGrows(10, w, Width(n) - 1);
    }
  }

  /** The first number of thirteen digits is printed before the last one of twelve. */
  lemma ThirteenDigits(m: U64, n: U64)
    requires n == m + 1 == 1_000_000_000_000
    ensures LexLess(Print(n), Print(m)) && !LexLess(Print(m), Print(n))
  {
    hide Fixed, Print, Width;
    TenToTheTwelve();
    assert Pow(10, 12) == 10 * Pow(10, 11) && Pow(10, 13) == 10 * Pow(10, 12);
    WidthIs(m, 12);
    WidthIs(n, 13);
    FirstLetter(m, 12);
    FirstLetter(n, 13);
  }

  /** The bound is sharp: names keep the order of all versions below a limit exactly when the limit
      is at most a million million. */
  lemma PrintKeepsOrderIff(limit: U64)
    ensures (forall m: U64, n: U64 :: m < limit && n < limit ==> (LexLess(Print(m), Print(n)) <==> m < n)) <==>
            limit <= 1_000_000_000_000
  {
    hide Width, PrintedWidth, Fixed, Print;
    if limit <= 1_000_000_000_000 {
      forall m: U64, n: U64 | m < limit && n < limit
        ensures LexLess(Print(m), Print(n)) <==> m < n
      {
        PrintKeepsOrder(m, n);
      }
    } else {
      var n: U64 := 1_000_000_000_000;
      ThirteenDigits(n - 1, n);
    }
  }
}
