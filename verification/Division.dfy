/** Quotients and remainders of naturals. */
module Division {

  lemma Scaled(k: nat, n: nat)
    requires k >= 1
    ensures k * n >= n
  {
  }

  lemma DivisionIsUnique(x: nat, n: nat, q: nat, r: nat)
    requires r < n && x == q * n + r
    ensures x / n == q && x % n == r
  {
    var d := x / n;
    assert x == d * n + x % n;
    assert (q - d) * n == q * n - d * n;
    if d < q {
      Scaled(q - d, n);
    } else if d > q {
      assert (d - q) * n == d * n - q * n;
      Scaled(d - q, n);
    }
  }

  lemma Split(x: nat, n: nat) returns (q: nat, r: nat)
    requires n > 0
    ensures q == x / n && r == x % n && r < n && x == q * n + r
  {
    q, r := x / n, x % n;
  }

  lemma Add(a: nat, b: nat, n: nat)
    ensures (a + b) * n == a * n + b * n
  {
  }

  lemma Nest(a: nat, b: nat, n: nat)
    ensures a * (b * n) == (a * b) * n
  {
  }

  /** Adding a number below n turns the remainder over at most once. */
  lemma AddSmall(x: nat, s: nat, n: nat)
    requires s < n
    ensures if x % n + s < n then (x + s) / n == x / n && (x + s) % n == x % n + s
            else (x + s) / n == x / n + 1 && (x + s) % n == x % n + s - n
  {
    var q, r := Split(x, n);
    if r + s < n {
      DivisionIsUnique(x + s, n, q, r + s);
    } else {
      Add(q, 1, n);
      DivisionIsUnique(x + s, n, q + 1, r + s - n);
    }
  }

  lemma AddMultiple(x: nat, p: nat, n: nat)
    requires n > 0
    ensures (x + p * n) / n == x / n + p && (x + p * n) % n == x % n
  {
    var q, r := Split(x, n);
    Add(q, p, n);
    DivisionIsUnique(x + p * n, n, q + p, r);
  }

  lemma RemainderOfRemainder(x: nat, n: nat, k: nat)
    requires 0 < k && 0 < n && n % k == 0
    ensures (x % n) % k == x % k
  {
    var q, r := Split(x, n);
    var t, zero := Split(n, k);
    Nest(q, t, k);
    assert x == r + (q * t) * k;
    AddMultiple(r, q * t, k);
  }

  lemma MultipleHasNoRemainder(q: nat, n: nat)
    requires n > 0
    ensures (q * n) % n == 0
  {
    DivisionIsUnique(q * n, n, q, 0);
  }

  /** Two numbers without remainder have a sum without one. */
  lemma SumHasNoRemainder(a: nat, b: nat, n: nat)
    requires n > 0 && a % n == 0 && b % n == 0
    ensures (a + b) % n == 0
  {
    var p, zero := Split(b, n);
    AddMultiple(a, p, n);
  }

  // ------------------------------------------------ greatest common divisor

  function Gcd(a: nat, b: nat): (g: nat)
    ensures a > 0 || b > 0 ==> g > 0
    decreases b
  {
    if b == 0 then a else Gcd(b, a % b)
  }

  lemma {:induction false} GcdDivides(a: nat, b: nat)
    requires a > 0 || b > 0
    ensures a % Gcd(a, b) == 0 && b % Gcd(a, b) == 0
    decreases b
  {
    if b > 0 {
      var q, r := Split(a, b);
      GcdDivides(b, r);
      var g := Gcd(b, r);
      var t, zero := Split(b, g);
      Nest(q, t, g);
      MultipleHasNoRemainder(q * t, g);
      SumHasNoRemainder(q * b, r, g);
    }
  }

  /** The greatest common divisor is a combination of the two numbers (Bezout). */
  lemma {:induction false} GcdCombines(a: nat, b: nat) returns (x: int, y: int)
    ensures a * x + b * y == Gcd(a, b)
    decreases b
  {
    if b == 0 {
      x, y := 1, 0;
    } else {
      var q, r := Split(a, b);
      var v, w := GcdCombines(b, r);
      x, y := w, v - q * w;
      Regroup(a, b, q, r, v, w);
    }
  }

  lemma Regroup(a: int, b: int, q: int, r: int, v: int, w: int)
    requires a == q * b + r
    ensures a * w + b * (v - q * w) == b * v + r * w
  {
    assert a * w == q * b * w + r * w;
    assert b * (v - q * w) == b * v - b * (q * w);
    assert b * (q * w) == q * b * w;
  }

  lemma SmallestDivisor(d: nat, n: nat)
    requires 0 < d && 0 < n && n % d == 0
    ensures d <= n
  {
    var q, zero := Split(n, d);
    if q > 0 {
      Scaled(q, d);
    }
  }

  lemma NegativeMultiple(m: int, n: nat)
    requires m < 0
    ensures m * (n as int) <= -(n as int)
  {
    var k: nat := -m;
    Scaled(k, n);
    assert m * n == -(k * n);
  }

  /** x and r differ by a multiple of n, and r is below n: r is the remainder. */
  lemma RemainderByDifference(x: nat, n: nat, m: int, r: nat)
    requires r < n && x == m * n + r
    ensures x % n == r
  {
    if m < 0 {
      NegativeMultiple(m, n);
    } else {
      DivisionIsUnique(x, n, m, r);
    }
  }
}
