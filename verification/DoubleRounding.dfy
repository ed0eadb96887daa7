/** The cast of integers to double, which the comparisons of mixed numbers use: it rounds to nearest, ties to even. */
module DoubleRounding {
  import opened Json

  function Power(e: nat): (p: nat)
    ensures p > 0
  {
    if e == 0 then 1 else 2 * Power(e - 1)
  }

  function Scaled(k: nat, e: nat): nat {
    k * Power(e)
  }

  /** An integer with a significand of 53 bits. */
  ghost predicate Representable(n: nat) {
    exists k: nat, e: nat :: k < 0x20_0000_0000_0000 && n == Scaled(k, e)
  }

  function Distance(x: nat, y: nat): nat {
    if x < y then y - x else x - y
  }

  /** Spacing is a power of two, and leaves a significand of exactly 53 bits unless it is 1. */
  lemma {:induction false} SpacingIs(m: nat) returns (e: nat)
    ensures Spacing(m) == Power(e)
    ensures m < 0x20_0000_0000_0000 * Spacing(m)
    ensures e > 0 ==> 0x10_0000_0000_0000 * Spacing(m) <= m
  {
    if m < 0x20_0000_0000_0000 {
      e := 0;
    } else {
      var d := SpacingIs(m / 2);
      e := d + 1;
    }
  }

  lemma Doubled(x: nat, y: nat)
    ensures 2 * (x * y) == x * (2 * y)
  {}

  lemma {:induction false} PowerSplit(d: nat, e: nat)
    requires d <= e
    ensures Power(e) == Power(e - d) * Power(d)
  {
    if d > 0 {
      PowerSplit(d - 1, e - 1);
      Doubled(Power(e - d), Power(d - 1));
    }
  }

  lemma MultipleBeside(j: nat, k: nat, q: nat)
    requires q > 0
    ensures j <= k ==> j * q <= k * q
    ensures j > k ==> j * q >= (k + 1) * q
  {
    if j <= k { assert (k - j) * q >= 0; } else { assert (j - (k + 1)) * q >= 0; }
  }

  /** Between two neighbouring multiples of the spacing there is no representable number. */
  lemma NoneBetween(m: nat, n: nat)
    requires Representable(n)
    ensures var q := Spacing(m); var k := m / q; n <= k * q || n >= (k + 1) * q
  {
    var e := SpacingIs(m);
    var j: nat, d: nat :| j < 0x20_0000_0000_0000 && n == Scaled(j, d);
    if d >= e {
      var c := CoarseMultiple(j, d, e);
      MultipleBeside(c, m / Spacing(m), Spacing(m));
    } else {
      FineIsSmall(j, d, e);
      QuotientAtLeast(m, Spacing(m), 0x10_0000_0000_0000);
    }
  }

  lemma CoarseMultiple(j: nat, d: nat, e: nat) returns (c: nat)
    requires d >= e
    ensures Scaled(j, d) == c * Power(e)
  {
    PowerSplit(e, d);
    c := j * Power(d - e);
    Associative(j, Power(d - e), Power(e));
  }

  lemma Associative(a: nat, b: nat, c: nat)
    ensures a * (b * c) == (a * b) * c
  {}

  lemma FineIsSmall(j: nat, d: nat, e: nat)
    requires d < e && j < 0x20_0000_0000_0000
    ensures Scaled(j, d) <= 0x10_0000_0000_0000 * Power(e)
  {
    PowerSplit(d, e - 1);
    SmallSignificand(j, Power(d), Power(e - 1 - d), Power(e));
  }

  lemma SmallSignificand(j: nat, p: nat, r: nat, q: nat)
    requires j < 0x20_0000_0000_0000 && r > 0 && q == 2 * (r * p)
    ensures j * p <= 0x10_0000_0000_0000 * q
  {
    assert r * p >= p;
    assert j * p <= 0x20_0000_0000_0000 * p;
  }

  lemma QuotientAtLeast(m: nat, q: nat, c: nat)
    requires q > 0 && c * q <= m
    ensures c * q <= (m / q) * q
  {
    if m / q < c { MultipleBeside(c, m / q, q); }
  }

  lemma RoundedIsRepresentable(m: nat)
    ensures Representable(RoundMagnitude(m))
  {
    var e := SpacingIs(m);
    var q := Spacing(m);
    var k := m / q;
    if k >= 0x20_0000_0000_0000 { MultipleBeside(0x20_0000_0000_0000, k, q); }
    assert k < 0x20_0000_0000_0000;
    if RoundMagnitude(m) == k * q {
      assert Scaled(k, e) == k * q;
    } else if k + 1 < 0x20_0000_0000_0000 {
      assert Scaled(k + 1, e) == (k + 1) * q;
    } else {
      assert Scaled(0x10_0000_0000_0000, e + 1) == (k + 1) * q;
    }
  }

  lemma EvenMultiple(k: nat, q: nat)
    requires q > 0 && k % 2 == 0
    ensures (k * q) % (2 * q) == 0
  {
    var h := k / 2;
    assert k * q == h * (2 * q) + 0;
    RemainderUnique(k * q, 2 * q, h);
  }

  lemma RemainderUnique(x: nat, d: nat, h: nat)
    requires d > 0 && x == h * d
    ensures x % d == 0
  {
    var c := x / d;
    assert x == c * d + x % d;
    if c < h { MultipleBeside(h, c, d); }
    if c > h { MultipleBeside(c, h, d); }
  }

  lemma QuotientRest(m: nat, q: nat)
    requires q > 0
    ensures var low := (m / q) * q; m == low + m % q && low <= m < low + q && (m / q + 1) * q == low + q
  {
    assert m == (m / q) * q + m % q;
  }

  /** The rounded number is one of the two multiples of the spacing around m, and the nearer one. */
  lemma RoundedBetween(m: nat)
    ensures var q, r := Spacing(m), RoundMagnitude(m); var low := (m / q) * q;
      || (r == low && 2 * (m - low) <= q)
      || (r == low + q && 2 * (m - low) >= q)
  {
    QuotientRest(m, Spacing(m));
  }

  lemma TieIsEven(m: nat)
    requires 2 * (m % Spacing(m)) == Spacing(m)
    ensures RoundMagnitude(m) % (2 * Spacing(m)) == 0
  {
    var k := TiedTo(m);
    EvenMultiple(k, Spacing(m));
  }

  lemma TiedTo(m: nat) returns (k: nat)
    requires 2 * (m % Spacing(m)) == Spacing(m)
    ensures RoundMagnitude(m) == k * Spacing(m) && k % 2 == 0
  {
    k := m / Spacing(m);
    if k % 2 == 1 { k := k + 1; }
  }

  /**
   * The rounded number is representable and no representable one is nearer; of two that are equally near it is the
   * one with the even significand.
   */
  lemma RoundsToNearest(m: nat, n: nat)
    requires Representable(n)
    ensures var r := RoundMagnitude(m);
      && Representable(r)
      && Distance(r, m) <= Distance(n, m)
      && (Distance(r, m) == Distance(n, m) && n != r ==> r % (2 * Distance(n, r)) == 0)
  {
    NoneBetween(m, n);
    QuotientRest(m, Spacing(m));
    RoundedBetween(m);
    if 2 * (m % Spacing(m)) == Spacing(m) { TieIsEven(m); }
    RoundedIsRepresentable(m);
  }

  /** The cast keeps sign and, exactly for representable magnitudes, the value. */
  lemma CastIsRounding(n: int)
    ensures var magnitude := if n < 0 then 0 - n else n;
      && var rounded := RoundMagnitude(magnitude) as real;
      && ToDouble(n) == Finite(if n < 0 then -rounded else rounded)
      && (ToDouble(n) == Finite(n as real) <==> Representable(magnitude))
  {
    var magnitude := if n < 0 then 0 - n else n;
    RoundedIsRepresentable(magnitude);
    if Representable(magnitude) { RoundsToNearest(magnitude, magnitude); }
  }
}
