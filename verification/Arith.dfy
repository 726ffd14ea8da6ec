/** Division facts about products of two unknowns, which the solver does not find alone. */
module Arith {

  lemma {:induction false} MulMono(d: nat, a: int, b: int)
    requires a <= b
    ensures d * a <= d * b
  {
    if d == 0 {
    } else {
      MulMono(d - 1, a, b);
      assert d * a == (d - 1) * a + a && d * b == (d - 1) * b + b;
    }
  }

  /** The defining property of Euclidean division. */
  lemma {:induction false} DivMod(n: int, d: int)
    requires d > 0
    ensures n == d * (n / d) + n % d && 0 <= n % d < d
  {
  }

  /** Quotient and remainder are unique. */
  lemma {:induction false} ModUnique(n: int, d: int, q: int, r: int)
    requires n == d * q + r && 0 <= r < d
    ensures n % d == r && n / d == q
  {
    DivMod(n, d);
    var q', r' := n / d, n % d;
    if q' > q {
      MulMono(d, q + 1, q');
    } else if q' < q {
      MulMono(d, q' + 1, q);
    }
  }

  /** The remainder of x*scale + low modulo a multiple of the scale. */
  lemma {:induction false} ModScaled(x: nat, m: nat, scale: nat, low: nat)
    requires m >= 1 && low < scale
    ensures m * scale > 0 && (x * scale + low) % (m * scale) == x % m * scale + low
  {
    DivMod(x, m);
    var q, t := x / m, x % m;
    assert x * scale == (m * q + t) * scale == (m * scale) * q + t * scale;
    MulMono(scale, t + 1, m);
    assert scale * (t + 1) == t * scale + scale;
    ModUnique(x * scale + low, m * scale, q, t * scale + low);
  }

  lemma {:induction false} ModAtMost(n: nat, d: nat)
    requires d > 0
    ensures 0 <= n % d <= n
  {
    DivMod(n, d);
    MulMono(d, 0, n / d);
  }

  lemma {:induction false} ModAddMultiple(n: int, d: int, k: int)
    requires d > 0
    ensures (d * k + n) % d == n % d
  {
    DivMod(n, d);
    assert d * (k + n / d) == d * k + d * (n / d);
    ModUnique(d * k + n, d, k + n / d, n % d);
  }

  /** A block start leaves room for the whole block. */
  lemma {:induction false} MultipleFits(n: nat, d: nat, count: nat)
    requires d > 0 && n < d * count && n % d == 0
    ensures n + d <= d * count
  {
    DivMod(n, d);
    if n / d >= count {
      MulMono(d, count, n / d);
    }
    MulMono(d, n / d + 1, count);
    assert d * (n / d + 1) == d * (n / d) + d;
  }
}
