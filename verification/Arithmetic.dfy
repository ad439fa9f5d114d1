/** Divisors, powers of two and the doubling search behind block capacities. */
module Arithmetic {
  ghost predicate Divides(d: int, n: int)
    requires d > 0
  {
    n % d == 0
  }

  lemma ScaleAtLeast(d: int, x: int)
    requires d > 0 && x >= 1
    ensures d * x >= d
  {}

  lemma ScaleMonotone(d: int, x: int, y: int)
    requires d > 0 && x <= y
    ensures d * x <= d * y
  {}

  lemma CancelFactor(d: int, x: int, y: int)
    requires d > 0 && d * x == d * y
    ensures x == y
  {
    if x < y {
      ScaleAtLeast(d, y - x);
    } else if y < x {
      ScaleAtLeast(d, x - y);
    }
  }

  lemma DividesIntro(d: int, k: int)
    requires d > 0
    ensures Divides(d, d * k) && (d * k) / d == k
  {
    var q, r := (d * k) / d, (d * k) % d;
    assert d * (k - q) == r && d * (q - k) == -r;
    if k > q {
      ScaleAtLeast(d, k - q);
    } else if k < q {
      ScaleAtLeast(d, q - k);
    }
  }

  lemma DividesElim(d: int, n: int)
    requires d > 0 && Divides(d, n)
    ensures n == d * (n / d)
  {}

  lemma DividesSum(d: int, a: int, b: int)
    requires d > 0 && Divides(d, a) && Divides(d, b)
    ensures Divides(d, a + b) && Divides(d, a - b)
  {
    assert a + b == d * (a / d + b / d);
    assert a - b == d * (a / d - b / d);
    DividesIntro(d, a / d + b / d);
    DividesIntro(d, a / d - b / d);
  }

  lemma DividesScaled(d: int, a: int, k: int)
    requires d > 0 && Divides(d, a)
    ensures Divides(d, a * k)
  {
    assert a * k == d * ((a / d) * k) by {
      assert a == d * (a / d);
    }
    DividesIntro(d, (a / d) * k);
  }

  lemma DividesTransitive(a: int, b: int, c: int)
    requires a > 0 && b > 0 && Divides(a, b) && Divides(b, c)
    ensures Divides(a, c)
  {
    DividesElim(b, c);
    DividesScaled(a, b, c / b);
  }

  /** Euclid's remainder recursion. */
  function Gcd(a: int, b: int): (g: int)
    requires a >= 0 && b >= 0 && a + b > 0
    ensures g > 0
    decreases b
  {
    if b == 0 then a else Gcd(b, a % b)
  }

  lemma {:induction false} GcdDivides(a: int, b: int)
    requires a >= 0 && b >= 0 && a + b > 0
    ensures Divides(Gcd(a, b), a) && Divides(Gcd(a, b), b)
    decreases b
  {
    var g := Gcd(a, b);
    if b == 0 {
      DividesIntro(a, 1);
      DividesIntro(a, 0);
    } else {
      GcdDivides(b, a % b);
      EuclidStep(g, a, b);
    }
  }

  lemma EuclidStep(g: int, a: int, b: int)
    requires g > 0 && b > 0 && Divides(g, b) && Divides(g, a % b)
    ensures Divides(g, a)
  {
    DividesScaled(g, b, a / b);
    DividesSum(g, b * (a / b), a % b);
    assert b * (a / b) + a % b == a;
  }

  lemma BezoutStep(s: int, t: int, a: int, b: int, q: int, r: int)
    requires r == a - b * q
    ensures t * a + (s - t * q) * b == s * b + t * r
  {
    assert t * r == t * a - t * (b * q);
    assert (s - t * q) * b == s * b - (t * q) * b;
    assert t * (b * q) == (t * q) * b;
  }

  /** Bezout's identity, from which both "greatest" and the least common multiple follow. */
  lemma {:induction false} Bezout(a: int, b: int) returns (s: int, t: int)
    requires a >= 0 && b >= 0 && a + b > 0
    ensures s * a + t * b == Gcd(a, b)
    decreases b
  {
    if b == 0 {
      s, t := 1, 0;
    } else {
      var s', t' := Bezout(b, a % b);
      var q := a / b;
      s, t := t', s' - t' * q;
      BezoutStep(s', t', a, b, q, a % b);
    }
  }

  /** Every common divisor divides the Gcd. */
  lemma GcdGreatest(a: int, b: int, d: int)
    requires a >= 0 && b >= 0 && a + b > 0
    requires d > 0 && Divides(d, a) && Divides(d, b)
    ensures Divides(d, Gcd(a, b))
  {
    var s, t := Bezout(a, b);
    DividesScaled(d, a, s);
    DividesScaled(d, b, t);
    DividesSum(d, a * s, b * t);
  }

  /** lcm as the source computes it: divide first, then multiply. */
  function Lcm(a: int, b: int): (m: int)
    requires a > 0 && b > 0
  {
    a / Gcd(a, b) * b
  }

  lemma LcmIsCommonMultiple(a: int, b: int)
    requires a > 0 && b > 0
    ensures Lcm(a, b) > 0 && Divides(a, Lcm(a, b)) && Divides(b, Lcm(a, b))
  {
    var g := Gcd(a, b);
    GcdDivides(a, b);
    DividesElim(g, a);
    DividesElim(g, b);
    var x, y := a / g, b / g;
    assert x > 0 && y > 0;
    assert Lcm(a, b) == x * b == x * (g * y) == a * y;
    DividesIntro(a, y);
    DividesIntro(b, x);
    assert x * b > 0;
  }

  lemma Associate(a: int, b: int, c: int)
    ensures (a * b) * c == a * (b * c)
  {}

  lemma Distribute(a: int, b: int, c: int)
    ensures (a + b) * c == a * c + b * c && c * (a + b) == c * a + c * b
  {}

  lemma Regroup(a: int, b: int, c: int, d: int)
    ensures (a * b) * (c * d) == (b * c) * (a * d)
  {
    Associate(b * a, c, d);
    Associate(b, a, c);
    Associate(b, c, a);
    Associate(b * c, a, d);
  }

  lemma LcmCofactor(g: int, s: int, t: int, a: int, b: int, n: int, x: int, y: int, u: int, m: int)
    requires g == s * a + t * b && n == a * x && n == b * y && a == g * u && m == u * b
    ensures g * n == g * (m * (s * y + t * x))
  {
    var k := s * y + t * x;
    Regroup(s, a, b, y);
    Regroup(t, b, a, x);
    Distribute(s * a, t * b, n);
    Distribute(s * y, t * x, a * b);
    Associate(g, u, b);
    Associate(g, m, k);
  }

  /** Every common multiple is a multiple of the lcm. */
  lemma LcmIsLeast(a: int, b: int, n: int)
    requires a > 0 && b > 0 && Divides(a, n) && Divides(b, n)
    ensures Lcm(a, b) > 0 && Divides(Lcm(a, b), n)
  {
    LcmIsCommonMultiple(a, b);
    var g, m := Gcd(a, b), Lcm(a, b);
    var s, t := Bezout(a, b);
    GcdDivides(a, b);
    var x, y := n / a, n / b;
    var k := s * y + t * x;
    LcmCofactor(g, s, t, a, b, n, x, y, a / g, m);
    CancelFactor(g, n, m * k);
    DividesIntro(m, k);
  }

  function Pow2(k: nat): (p: nat)
    ensures p >= 1
  {
    if k == 0 then 1 else 2 * Pow2(k - 1)
  }

  ghost predicate IsPow2(n: int) {
    exists k: nat :: n == Pow2(k)
  }

  /** The smallest power-of-two multiple of `base` that is at least `n`. */
  function Capacity(n: int, base: int): (c: int)
    requires base > 0
    ensures c >= base && c >= n
    decreases n - base
  {
    if base >= n then base else Capacity(n, 2 * base)
  }

  lemma DoubleFactor(base: int, j: nat)
    ensures 2 * base * Pow2(j) == base * Pow2(j + 1)
  {
    assert base * (2 * Pow2(j)) == 2 * base * Pow2(j);
  }

  lemma {:induction false} CapacityExponent(n: int, base: int) returns (k: nat)
    requires base > 0
    ensures Capacity(n, base) == base * Pow2(k)
    ensures k > 0 ==> base * Pow2(k - 1) < n
    decreases n - base
  {
    if base >= n {
      k := 0;
    } else {
      var j := CapacityExponent(n, 2 * base);
      k := j + 1;
      DoubleFactor(base, j);
      if j > 0 { DoubleFactor(base, j - 1); }
    }
  }

  lemma {:induction false} Pow2Monotone(j: nat, k: nat)
    requires j <= k
    ensures Pow2(j) <= Pow2(k)
    decreases k
  {
    if j < k { Pow2Monotone(j, k - 1); }
  }

  /** Capacity is the least power-of-two multiple of the base that reaches `n`. */
  lemma CapacityLeast(n: int, base: int, k: nat)
    requires base > 0 && base * Pow2(k) >= n
    ensures Capacity(n, base) <= base * Pow2(k)
  {
    var e := CapacityExponent(n, base);
    if k < e {
      Pow2Monotone(k, e - 1);
      ScaleMonotone(base, Pow2(k), Pow2(e - 1));
    } else {
      Pow2Monotone(e, k);
      ScaleMonotone(base, Pow2(e), Pow2(k));
    }
  }

  /** Capacities over one base form a chain: a larger one continues doubling a smaller one. */
  lemma {:induction false} CapacityChain(m: int, n: int, base: int)
    requires base > 0 && m <= n
    ensures Capacity(m, base) <= Capacity(n, base)
    ensures Capacity(n, base) == Capacity(n, Capacity(m, base))
    decreases m - base
  {
    if base < m {
      CapacityChain(m, n, 2 * base);
    }
  }

  lemma CapacityDivides(m: int, n: int, base: int)
    requires base > 0 && m <= n
    ensures Divides(Capacity(m, base), Capacity(n, base))
  {
    CapacityChain(m, n, base);
    var c := Capacity(m, base);
    var k := CapacityExponent(n, c);
    DividesIntro(c, Pow2(k));
  }

  lemma CapacityWidth(n: int, base: int)
    requires base > 0
    ensures Divides(base, Capacity(n, base)) && Capacity(n, base) / base >= 1
    ensures IsPow2(Capacity(n, base) / base)
  {
    var k := CapacityExponent(n, base);
    DividesIntro(base, Pow2(k));
  }
}
