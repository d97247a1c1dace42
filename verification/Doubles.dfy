/** JavaScript numbers, as far as they come from integers or become integers. */
module Doubles {
  import opened Bytes

  /** Up to here every integer is a double. */
  const EXACT := 0x20_0000_0000_0000

  /** The distance between neighbouring doubles at `a`; below 2^53 only integers matter. */
  function Ulp(a: nat): (u: int)
    ensures u >= 1
  {
    if a < EXACT then 1 else 2 * Ulp(a / 2)
  }

  /** The multiple of `u` next to `a`; of two equally near ones the even one. */
  function Nearest(a: nat, u: int): int
    requires u >= 1
  {
    var q, r := a / u, a % u;
    if 2 * r < u || (2 * r == u && q % 2 == 0) then q * u else (q + 1) * u
  }

  /** `static_cast<double>(v)` */
  function ToDouble(v: int): int {
    if v >= 0 then Nearest(v, Ulp(v)) else -Nearest(-v, Ulp(-v))
  }

  /** An integer that is a double itself. */
  predicate IsDouble(v: int) {
    (if v >= 0 then v % Ulp(v) else -v % Ulp(-v)) == 0
  }

  /** `static_cast` of a finite double to an integer, which must be in range: truncation towards zero. */
  function Truncated(x: real): int {
    if x >= 0.0 then x.Floor else -(-x).Floor
  }

  /** Less than one is cut off, and always towards zero. */
  lemma TruncatedTowardsZero(x: real)
    ensures x >= 0.0 ==> 0 <= Truncated(x) && 0.0 <= x - Truncated(x) as real < 1.0
    ensures x <= 0.0 ==> Truncated(x) <= 0 && -1.0 < x - Truncated(x) as real <= 0.0
  {
  }

  lemma TruncatedInteger(v: int)
    ensures Truncated(v as real) == v
  {
  }

  lemma {:induction false} UlpIsSmall(a: nat)
    ensures Ulp(a) == 1 || Ulp(a) * 0x10_0000_0000_0000 <= a
  {
    if a < EXACT {
    } else {
      UlpIsSmall(a / 2);
    }
  }

  lemma NearestIsNear(a: nat, u: int)
    requires u >= 1
    ensures -u < Nearest(a, u) - a < u
    ensures Nearest(a, u) == a <==> a % u == 0
  {
    var q, r := a / u, a % u;
    assert a == q * u + r;
    assert (q + 1) * u == q * u + u;
  }

  /** Rounding a 64-bit integer moves it less than 2^12, and not at all exactly if it is a double. */
  lemma ToDoubleIsNear(v: int)
    requires -0x1_0000_0000_0000_0000 <= v <= 0x1_0000_0000_0000_0000
    ensures -0x1000 <= ToDouble(v) - v <= 0x1000
    ensures v >= 0 ==> ToDouble(v) >= 0
    ensures ToDouble(v) == v <==> IsDouble(v)
    ensures -EXACT < v < EXACT ==> IsDouble(v)
  {
    var a := if v >= 0 then v else -v;
    UlpIsSmall(a);
    NearestIsNear(a, Ulp(a));
  }

  /** The first integer that is not a double. */
  lemma OddIsNoDouble()
    ensures !IsDouble(EXACT + 1)
  {
    assert Ulp((EXACT + 1) / 2) == 1;
  }

  // ---------------------------------------------------------------------------
  // The nearest double
  // ---------------------------------------------------------------------------

  /** A binary order of magnitude: the integers with this distance between neighbouring doubles. */
  lemma {:induction false} UlpOfRange(a: nat)
    ensures Ulp(a) == 1 || Ulp(a) * 0x10_0000_0000_0000 <= a
    ensures a < Ulp(a) * EXACT
  {
    if a < EXACT {
    } else {
      UlpOfRange(a / 2);
    }
  }

  /** Farther from zero the distances are multiples. */
  lemma {:induction false} UlpGrows(a: nat, b: nat)
    requires Ulp(a) > 1 ==> Ulp(a) * 0x10_0000_0000_0000 <= b
    ensures Ulp(b) % Ulp(a) == 0
    decreases a
  {
    if a < EXACT {
    } else {
      var u := Ulp(a / 2);
      assert Ulp(a) == 2 * u;
      UlpOfRange(a / 2);
      if b < EXACT {
        assert false;
      } else {
        UlpGrows(a / 2, b / 2);
        DoubledMultiple(Ulp(b / 2), u);
      }
    }
  }

  lemma DoubledMultiple(x: int, u: int)
    requires u >= 1 && x % u == 0
    ensures (2 * x) % (2 * u) == 0
  {
    var k := x / u;
    assert x == k * u;
    DivMod(2 * x, 2 * u, k, 0);
  }

  function Distance(a: int, b: int): nat {
    if a >= b then a - b else b - a
  }

  /** No other multiple is nearer; of two equally near ones the even one is taken. */
  lemma NearestMultiple(a: nat, u: int, k: int)
    requires u >= 1
    ensures var r := Nearest(a, u);
      && Distance(r, a) <= Distance(k * u, a)
      && r % u == 0 && (Distance(r, a) == Distance(k * u, a) && r != k * u ==> r / u % 2 == 0)
  {
    var q, rest := a / u, a % u;
    assert a == q * u + rest;
    assert (q + 1) * u == q * u + u;
    DivMod(q * u, u, q, 0);
    DivMod((q + 1) * u, u, q + 1, 0);
    if k <= q {
      MultiplesInOrder(k, q, u);
      if k < q {
        MultiplesInOrder(k, q - 1, u);
        assert (q - 1) * u == q * u - u;
      }
    } else {
      MultiplesInOrder(q + 1, k, u);
      if k > q + 1 {
        MultiplesInOrder(q + 2, k, u);
        assert (q + 2) * u == q * u + 2 * u;
      }
    }
  }

  lemma MultiplesInOrder(a: int, b: int, u: int)
    requires a <= b && u >= 1
    ensures a * u <= b * u
  {
    assert (b - a) * u >= 0;
  }

  lemma MultipleOfMultiple(d: int, x: int, u: int)
    requires u >= 1 && x >= 1 && x % u == 0 && d % x == 0
    ensures d % u == 0
  {
    var m, k := x / u, d / x;
    assert x == m * u && d == k * x;
    Reassociate(k, m, u);
    DivMod(d, u, k * m, 0);
  }

  lemma Reassociate(k: int, m: int, u: int)
    ensures k * (m * u) == (k * m) * u
  {
  }

  /** A double that is not nearer to zero than the range of `a` is a multiple of its distance. */
  lemma DoubleIsMultiple(a: nat, d: nat)
    requires d % Ulp(d) == 0 && (Ulp(a) > 1 ==> Ulp(a) * 0x10_0000_0000_0000 <= d)
    ensures d % Ulp(a) == 0
  {
    hide Ulp;
    UlpGrows(a, d);
    MultipleOfMultiple(d, Ulp(d), Ulp(a));
  }

  lemma NearestDouble(a: nat, d: nat)
    requires d % Ulp(d) == 0
    ensures var r := Nearest(a, Ulp(a));
      && Distance(r, a) <= Distance(d, a)
      && (Distance(r, a) == Distance(d, a) && r != d ==> r / Ulp(a) % 2 == 0)
  {
    var u := Ulp(a);
    UlpOfRange(a);
    hide Ulp, Nearest;
    if u == 1 || u * 0x10_0000_0000_0000 <= d {
      DoubleIsMultiple(a, d);
      var k := WholeQuotient(d, u);
      NearestMultiple(a, u, k);
    } else {
      var low := 0x10_0000_0000_0000 * u;
      NearestMultiple(a, u, 0x10_0000_0000_0000);
      assert d < low <= a;
    }
  }

  lemma WholeQuotient(d: int, u: int) returns (k: int)
    requires u >= 1 && d % u == 0
    ensures d == k * u
  {
    k := d / u;
  }

  /** Rounding stays in the range of `a`, or reaches its end. */
  lemma NearestInRange(a: nat, u: int)
    requires u >= 1 && a < u * EXACT && (u > 1 ==> u * 0x10_0000_0000_0000 <= a)
    ensures var r := Nearest(a, u);
      r % u == 0 && 0 <= r <= u * EXACT && (u > 1 ==> u * 0x10_0000_0000_0000 <= r)
  {
    var q, low := a / u, 0x10_0000_0000_0000;
    assert a == q * u + a % u;
    assert (q + 1) * u == q * u + u;
    DivMod(q * u, u, q, 0);
    DivMod((q + 1) * u, u, q + 1, 0);
    assert q < EXACT by {
      if q >= EXACT {
        MultiplesInOrder(EXACT, q, u);
      }
    }
    MultiplesInOrder(q + 1, EXACT, u);
    MultiplesInOrder(0, q, u);
    if u > 1 {
      assert q >= low by {
        if q < low {
          MultiplesInOrder(q + 1, low, u);
        }
      }
      MultiplesInOrder(low, q, u);
    }
  }

  /** A multiple in the range of `a`, or at its end, is a double. */
  lemma MultipleIsDouble(a: nat, r: nat)
    requires var u := Ulp(a);
      r % u == 0 && r <= u * EXACT && (u > 1 ==> u * 0x10_0000_0000_0000 <= r)
    ensures r % Ulp(r) == 0
  {
    var u := Ulp(a);
    UlpGrows(a, r);
    UlpOfRange(r);
    hide Ulp;
    if Ulp(r) > 1 {
      SmallMultiples(Ulp(r), u);
      if Ulp(r) == 2 * u {
        assert r == EXACT * u;
        DivMod(r, 2 * u, EXACT / 2, 0);
      }
    }
  }

  /** The nearest multiple is a double. */
  lemma NearestIsDouble(a: nat)
    ensures Nearest(a, Ulp(a)) >= 0 && Nearest(a, Ulp(a)) % Ulp(Nearest(a, Ulp(a))) == 0
  {
    UlpOfRange(a);
    hide Ulp, Nearest;
    NearestInRange(a, Ulp(a));
    MultipleIsDouble(a, Nearest(a, Ulp(a)));
  }

  lemma SmallMultiples(x: int, u: int)
    requires u >= 1 && x % u == 0 && 0 < x <= 2 * u
    ensures x == u || x == 2 * u
  {
    var k := x / u;
    assert x == k * u;
    if k >= 3 {
      MultiplesInOrder(3, k, u);
    } else if k <= 0 {
      MultiplesInOrder(k, 0, u);
    }
  }

  lemma ZeroIsDouble()
    ensures Ulp(0) == 1 && IsDouble(0)
  {
  }

  /** The sign does not matter to what is a double. */
  lemma DoubleOfSize(v: int)
    ensures IsDouble(v) <==> Distance(v, 0) % Ulp(Distance(v, 0)) == 0
  {
    hide Ulp;
  }

  /** Conversion gives the double that is nearest; of two equally near ones the one with the even multiple. */
  lemma ToDoubleIsNearest(v: int, d: int)
    requires IsDouble(d)
    ensures IsDouble(ToDouble(v)) && Distance(ToDouble(v), v) <= Distance(d, v)
    ensures Distance(ToDouble(v), v) == Distance(d, v) && ToDouble(v) != d ==>
              Distance(ToDouble(v), 0) / Ulp(Distance(v, 0)) % 2 == 0
  {
    hide Nearest, Ulp, IsDouble;
    var a := Distance(v, 0);
    ZeroIsDouble();
    DoubleOfSize(d);
    DoubleOfSize(ToDouble(v));
    NearestIsDouble(a);
    NearestDouble(a, Distance(d, 0));
    NearestDouble(a, 0);
  }
}
