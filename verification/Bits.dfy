/** Masking with a power of two minus one. */
module Bits {
  /** Bitwise and of natural numbers. */
  function And(a: nat, b: nat): (r: nat)
    ensures r <= a && r <= b
  {
    if a == 0 || b == 0 then 0 else 2 * And(a / 2, b / 2) + (if a % 2 == 1 && b % 2 == 1 then 1 else 0)
  }

  function Pow2(k: nat): (p: nat)
    ensures p >= 1
  {
    if k == 0 then 1 else 2 * Pow2(k - 1)
  }

  ghost predicate IsPow2(n: nat) {
    exists k: nat :: n == Pow2(k)
  }

  lemma {:induction false} MaskIsMod(x: nat, k: nat)
    ensures And(x, Pow2(k) - 1) == x % Pow2(k)
    decreases k, x
  {
    hide And;
    if k == 0 {
      AndZero(x, 0);
    } else if x == 0 {
      AndZero(0, Pow2(k) - 1);
      ModUnique(0, Pow2(k), 0, 0);
    } else {
      MaskIsMod(x / 2, k - 1);
      MaskStep(x, Pow2(k - 1));
    }
  }

  lemma AndZero(x: nat, y: nat)
    requires x == 0 || y == 0
    ensures And(x, y) == 0
  {
  }

  lemma MaskStep(x: nat, m: nat)
    requires x != 0 && m >= 1 && And(x / 2, m - 1) == (x / 2) % m
    ensures And(x, 2 * m - 1) == x % (2 * m)
  {
    hide And;
    HalfMod(x, m);
    AndStep(x, m);
  }

  lemma AndStep(x: nat, m: nat)
    requires x != 0 && m >= 1
    ensures And(x, 2 * m - 1) == 2 * And(x / 2, m - 1) + x % 2
  {
    assert (2 * m - 1) / 2 == m - 1 && (2 * m - 1) % 2 == 1;
  }

  lemma HalfMod(x: nat, m: nat)
    requires m >= 1
    ensures 2 * ((x / 2) % m) + x % 2 == x % (2 * m)
  {
    var q, r := (x / 2) / m, (x / 2) % m;
    assert x / 2 == q * m + r;
    assert x == q * (2 * m) + (2 * r + x % 2) by {
      assert x == 2 * (x / 2) + x % 2;
      assert 2 * (q * m) == q * (2 * m);
    }
    ModUnique(x, 2 * m, q, 2 * r + x % 2);
  }

  lemma ModUnique(x: int, d: int, q: int, r: int)
    requires d > 0 && x == q * d + r && 0 <= r < d
    ensures x % d == r
  {
    var q', r' := x / d, x % d;
    assert x == d * q' + r' && 0 <= r' < d;
    SameQuotient(d, q, q', r, r');
  }

  lemma SameQuotient(d: int, q: int, p: int, r: int, t: int)
    requires 0 <= r < d && 0 <= t < d && q * d + r == d * p + t
    ensures q == p && r == t
  {
    if q > p {
      AtLeast(q - p, d);
    } else if q < p {
      AtLeast(p - q, d);
    }
  }

  lemma AtLeast(a: int, d: int)
    requires a >= 1 && d > 0
    ensures a * d >= d
  {
  }

  lemma AtMost(a: int, d: int)
    requires a <= 0 && d > 0
    ensures a * d <= 0
  {
  }

  lemma ModAdd(x: nat, d: nat)
    requires d > 0
    ensures (x + d) % d == x % d
  {
    var q, r := x / d, x % d;
    assert (q + 1) * d == q * d + d;
    ModUnique(x + d, d, q + 1, r);
  }

  lemma ModDistinct(a: nat, b: nat, d: nat)
    requires a < b < a + d
    ensures a % d != b % d
  {
    var k := b / d - a / d;
    assert a == (a / d) * d + a % d && b == (b / d) * d + b % d;
    assert k * d == (b / d) * d - (a / d) * d;
    if k >= 1 {
      AtLeast(k, d);
    } else {
      AtMost(k, d);
    }
  }

  /** The index `x & (n - 1)` used by the program is `x` modulo `n`, for `n` a power of two. */
  lemma Masked(x: nat, n: nat)
    requires n >= 1 && IsPow2(n)
    ensures And(x, n - 1) == x % n
  {
    var k: nat :| n == Pow2(k);
    MaskIsMod(x, k);
  }

  function Max(a: nat, b: nat): nat {
    if a < b then b else a
  }

  /** The least power of two that is at least `n`. */
  function BitCeil(n: nat): (p: nat)
    ensures p >= n && p >= 1 && IsPow2(p)
  {
    assert 1 == Pow2(0);
    if n <= 1 then 1 else
      var half := BitCeil((n + 1) / 2);
      Doubled(half);
      2 * half
  }

  lemma Doubled(p: nat)
    requires IsPow2(p)
    ensures IsPow2(2 * p)
  {
    var k: nat :| p == Pow2(k);
    assert 2 * p == Pow2(k + 1);
  }
}
