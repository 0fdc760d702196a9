/** Q16 frame rates as fractions in lowest terms. */
module FrameRates {
  import opened Options
  import opened Integers
  import opened CapsParser

  ghost predicate Divides(d: nat, n: nat) {
    exists k: nat :: n == d * k
  }

  ghost predicate IsGcd(g: nat, a: nat, b: nat) {
    && Divides(g, a) && Divides(g, b)
    && forall d: nat :: Divides(d, a) && Divides(d, b) ==> Divides(d, g)
  }

  lemma DividesSum(d: nat, m: nat, n: nat)
    requires Divides(d, m) && Divides(d, n)
    ensures Divides(d, m + n)
  {
    var i: nat :| m == d * i;
    var j: nat :| n == d * j;
    assert m + n == d * (i + j);
  }

  lemma DividesDifference(d: nat, m: nat, n: nat)
    requires Divides(d, m) && Divides(d, n) && n <= m
    ensures Divides(d, m - n)
  {
    var i: nat :| m == d * i;
    var j: nat :| n == d * j;
    if i < j {
      Smaller(d, i, j);
      assert m - n == d * 0;
    } else {
      assert m - n == d * (i - j);
    }
  }

  lemma Smaller(d: nat, i: nat, j: nat)
    requires i < j && d * j <= d * i
    ensures d * i == d * j
  {
    assert d * j == d * i + d * (j - i);
  }

  lemma DividesMultiple(d: nat, n: nat, k: nat)
    requires Divides(d, n)
    ensures Divides(d, n * k)
  {
    var i: nat :| n == d * i;
    assert n * k == d * (i * k);
  }

  /** A Euclidean step keeps the common divisors. */
  lemma StepKeepsDivisors(a: nat, b: nat, d: nat)
    requires b > 0
    ensures Divides(d, a) && Divides(d, b) <==> Divides(d, b) && Divides(d, a % b)
  {
    var q := a / b;
    assert a == b * q + a % b;
    if Divides(d, b) {
      DividesMultiple(d, b, q);
      if Divides(d, a) {
        DividesDifference(d, a, b * q);
      }
      if Divides(d, a % b) {
        DividesSum(d, b * q, a % b);
      }
    }
  }

  lemma DividesItself(n: nat)
    ensures Divides(n, n) && Divides(n, 0)
  {
    assert n == n * 1 && 0 == n * 0;
  }

  method GreatestCommonDivisor(a0: nat, b0: nat) returns (a: nat)
    ensures IsGcd(a, a0, b0)
    ensures b0 > 0 ==> a > 0
  {
    var b: nat := b0;
    a := a0;
    while b != 0
      invariant forall d: nat :: Divides(d, a) && Divides(d, b) <==> Divides(d, a0) && Divides(d, b0)
      invariant b0 > 0 ==> a > 0 || b > 0
      decreases b
    {
      forall d: nat ensures Divides(d, a) && Divides(d, b) <==> Divides(d, b) && Divides(d, a % b) {
        StepKeepsDivisors(a, b, d);
      }
      a, b := b, a % b;
    }
    DividesItself(a);
    forall d: nat ensures Divides(d, 0) {
      assert 0 == d * 0;
    }
  }

  lemma Quotients(g: nat, n: nat)
    requires g > 0 && Divides(g, n)
    ensures n == g * (n / g)
  {
    var k: nat :| n == g * k;
    Cancel(g, k);
  }

  lemma Ordered(g: nat, a: nat, b: nat)
    ensures a < b ==> g * a + g <= g * b
  {
    if a < b {
      Spread(g, a, b - a - 1);
    }
  }

  lemma Spread(g: nat, a: nat, c: nat)
    ensures g * (a + 1 + c) == g * a + g + g * c && g * c >= 0
  {
  }

  lemma Associates(g: nat, d: nat, i: nat)
    ensures g * (d * i) == (g * d) * i
  {
  }

  lemma Remainder(n: nat, g: nat)
    requires g > 0
    ensures g * (n / g) <= n < g * (n / g) + g
  {
  }

  lemma Cancel(g: nat, k: nat)
    requires g > 0
    ensures g * k / g == k
  {
    Remainder(g * k, g);
    Ordered(g, g * k / g, k);
    Ordered(g, k, g * k / g);
  }

  /** A common divisor of the quotients, times the divisor, divides both numbers. */
  lemma QuotientsAreCoprime(g: nat, a: nat, b: nat, x: nat, y: nat, d: nat)
    requires g > 0 && IsGcd(g, a, b) && a == g * x && b == g * y && b > 0
    requires Divides(d, x) && Divides(d, y)
    ensures d == 1
  {
    var i: nat :| x == d * i;
    var j: nat :| y == d * j;
    Associates(g, d, i);
    Associates(g, d, j);
    assert Divides(g * d, a) && Divides(g * d, b);
    var k: nat :| g == (g * d) * k;
    OneFactor(g, d, k);
  }

  lemma OneFactor(g: nat, d: nat, k: nat)
    requires g > 0 && g == g * d * k
    ensures d == 1
  {
    assert g * 1 == g * (d * k);
    Ordered(g, 1, d * k);
    Ordered(g, d * k, 1);
    Ordered(d, 0, k);
    Ordered(d, 1, k);
    assert d * k == 1;
    assert k >= 1;
  }

  /** The fraction equals the rate, is in lowest terms, and makes the rate again. */
  method FramerateToFraction(q16: u32) returns (num: u32, den: u32)
    ensures den > 0 && num * 65536 == q16 * den
    ensures forall d: nat :: Divides(d, num) && Divides(d, den) ==> d == 1
    ensures Q16FromFraction(num, den) == Some(q16)
  {
    var g := GreatestCommonDivisor(q16, 65536);
    Quotients(g, q16);
    Quotients(g, 65536);
    var n, m := q16 / g, 65536 / g;
    Shrinks(g, n, q16);
    Shrinks(g, m, 65536);
    assert m > 0;
    num, den := n, m;
    SameValue(g, n, m, q16, 65536);
    forall d: nat | Divides(d, n) && Divides(d, m) ensures d == 1 {
      QuotientsAreCoprime(g, q16, 65536, n, m, d);
    }
  }

  lemma Shrinks(g: nat, n: nat, a: nat)
    requires g > 0 && a == g * n
    ensures n <= a && (a > 0 ==> n > 0)
  {
    assert g * n == n + (g - 1) * n;
  }

  lemma SameValue(g: nat, n: nat, m: nat, a: nat, b: nat)
    requires g > 0 && a == g * n && b == g * m && m > 0
    ensures n * b == a * m && n * b / m == a
  {
    assert n * b == m * (g * n);
    Cancel(m, g * n);
  }
}
