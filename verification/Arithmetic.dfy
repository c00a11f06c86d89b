/** Products and floor divisions of natural numbers. */
module Arithmetic {

  const TWO_TO_64 := 0x1_0000_0000_0000_0000

  function Max(a: nat, b: nat): nat {
    if a < b then b else a
  }

  function Min(a: nat, b: nat): nat {
    if a < b then a else b
  }

  function Sum(s: seq<nat>): nat {
    if s == [] then 0 else Sum(s[..|s| - 1]) + s[|s| - 1]
  }

  lemma DivBounds(a: nat, b: nat)
    requires b > 0
    ensures a / b * b <= a < (a / b + 1) * b
  {
  }

  lemma MulLess(a: int, b: int, c: int)
    requires c > 0 && a * c < b * c
    ensures a < b
  {
  }

  lemma MulAtMost(a: nat, aMax: nat, b: nat, bMax: nat)
    requires a <= aMax && b <= bMax
    ensures a * b <= aMax * bMax
  {
    assert a * b <= aMax * b <= aMax * bMax;
  }

  lemma FloorAtMost(a: nat, n: nat, e: nat)
    requires n > 0
    ensures a / n <= e <==> a < (e + 1) * n
  {
    var o := a / n;
    DivBounds(a, n);
    if o <= e {
      MulAtMost(o + 1, e + 1, n, n);
    }
    if a < (e + 1) * n {
      MulLess(o, e + 1, n);
    }
  }

  lemma FloorAtLeast(a: nat, d: nat, i: nat)
    requires d > 0
    ensures i <= a / d <==> i * d <= a
  {
    var k := a / d;
    DivBounds(a, d);
    if i <= k {
      MulAtMost(i, k, d, d);
    } else {
      MulAtMost(k + 1, i, d, d);
    }
  }

  lemma SmallRemainder(a: nat, n: nat)
    requires a < n
    ensures a % n == a
  {
  }

  lemma ModuloSum(a: nat, b: nat)
    ensures (a % TWO_TO_64 + b) % TWO_TO_64 == (a + b) % TWO_TO_64
  {
  }

  // ----- Greatest common divisors -----

  function Gcd(a: nat, b: nat): (g: nat)
    requires a > 0
    ensures g > 0
    decreases b
  {
    if b == 0 then a else Gcd(b, a % b)
  }

  lemma CommonFactor(q: nat, u: nat, v: nat, g: nat)
    ensures q * (u * g) + v * g == (q * u + v) * g
  {
    assert q * (u * g) == q * u * g;
  }

  /** The divisor divides both numbers. */
  lemma {:induction false} GcdFactors(a: nat, b: nat) returns (x: nat, y: nat)
    requires a > 0
    ensures a == x * Gcd(a, b) && b == y * Gcd(a, b)
    decreases b
  {
    if b == 0 {
      x, y := 1, 0;
    } else {
      var g := Gcd(a, b);
      var u, v := GcdFactors(b, a % b);
      x, y := a / b * u + v, u;
      CommonFactor(a / b, u, v, g);
    }
  }

  /** The divisor is a combination of both numbers. */
  lemma {:induction false} Bezout(a: nat, b: nat) returns (x: int, y: int)
    requires a > 0
    ensures x * a + y * b == Gcd(a, b)
    decreases b
  {
    if b == 0 {
      x, y := 1, 0;
    } else {
      var u, v := Bezout(b, a % b);
      x, y := v, u - v * (a / b);
      assert a % b == a - a / b * b;
      assert v * (a % b) == v * a - v * (a / b * b);
      assert v * (a / b * b) == v * (a / b) * b;
      assert y * b == u * b - v * (a / b) * b;
    }
  }

  /** Two multiples of a number that differ, differ by at least that number. */
  lemma MultiplesApart(x: nat, y: nat, g: nat)
    requires x * g > y * g && g > 0
    ensures x * g >= y * g + g
  {
    MulLess(y, x, g);
    MulAtMost(y + 1, x, g, g);
  }
}
