/**
 * Index arithmetic on the boolean hypercube: a table of 2^n evaluations is
 * indexed big-endian, so variable v of n is bit n-1-v of the index.
 */
module Hypercube {
  import opened Field

  function Pow2(n: nat): (r: nat)
    ensures r >= 1
  {
    if n == 0 then 1 else 2 * Pow2(n - 1)
  }

  /** `usize::ilog2`: the floor of the base-2 logarithm (panics on zero). */
  function Log2(n: nat): (r: nat)
    requires n >= 1
    ensures Pow2(r) <= n < Pow2(r + 1)
  {
    if n < 2 then 0 else 1 + Log2(n / 2)
  }

  lemma {:induction false} Log2OfPow2(n: nat)
    ensures Log2(Pow2(n)) == n
  {
    var m := Log2(Pow2(n));
    assert Pow2(m) <= Pow2(n) < Pow2(m + 1);
    if m < n {
      Pow2Mono(m + 1, n);
    } else if m > n {
      Pow2Mono(n + 1, m);
    }
  }

  lemma {:induction false} Pow2Mono(a: nat, b: nat)
    requires a <= b
    ensures Pow2(a) <= Pow2(b)
    decreases b - a
  {
    if a < b { Pow2Mono(a, b - 1); }
  }

  lemma {:induction false} Pow2Add(a: nat, b: nat)
    ensures Pow2(a + b) == Pow2(a) * Pow2(b)
    decreases a
  {
    if a > 0 {
      Pow2Add(a - 1, b);
    }
  }

  /**
   * The k-th index whose bit for stride s (a power of two) is clear: k with
   * a zero bit inserted at that position.
   */
  function Insert0(k: nat, s: nat): nat
    requires s > 0
  {
    (k / s) * (2 * s) + k % s
  }

  /** `j | s` for s a power of two: sets that bit. */
  function SetBit(j: nat, s: nat): nat
    requires s > 0
  {
    if (j / s) % 2 == 0 then j + s else j
  }

  /** Whether the bit for stride s of j is clear. */
  predicate BitClear(j: nat, s: nat)
    requires s > 0
  {
    (j / s) % 2 == 0
  }

  lemma Insert0Clear(k: nat, s: nat)
    requires s > 0
    ensures BitClear(Insert0(k, s), s)
    ensures Insert0(k, s) % s == k % s
    ensures SetBit(Insert0(k, s), s) == Insert0(k, s) + s
  {
    var q := k / s;
    DivModUnique(Insert0(k, s), s, 2 * q, k % s);
    DivModUnique(2 * q, 2, q, 0);
  }

  /** The j-update of `partial_evaluate` moves from one clear-bit index to the next. */
  lemma Insert0Step(k: nat, s: nat)
    requires s > 0
    ensures Insert0(k + 1, s) == if (Insert0(k, s) + 1) % s == 0 then Insert0(k, s) + 1 + s else Insert0(k, s) + 1
  {
    var q, r := k / s, k % s;
    var x := Insert0(k, s);
    assert x == 2 * q * s + r;
    if r + 1 < s {
      DivModUnique(k + 1, s, q, r + 1);
      DivModUnique(x + 1, s, 2 * q, r + 1);
    } else {
      DivModUnique(k + 1, s, q + 1, 0);
      DivModUnique(x + 1, s, 2 * q + 1, 0);
    }
  }

  lemma {:induction false} Insert0Mono(k: nat, k': nat, s: nat)
    requires s > 0 && k <= k'
    ensures Insert0(k, s) + (k' - k) <= Insert0(k', s)
    decreases k' - k
  {
    if k < k' {
      Insert0Mono(k, k' - 1, s);
      Insert0Step(k' - 1, s);
    }
  }

  /** Every index with a clear bit is hit: Insert0 enumerates them all. */
  lemma Insert0Onto(j: nat, s: nat)
    requires s > 0 && BitClear(j, s)
    ensures j == (j / (2 * s)) * (2 * s) + j % s
    ensures Insert0((j / (2 * s)) * s + j % s, s) == j
  {
    var q, r := j / s, j % s;
    var h := q / 2;
    DivModUnique(q, 2, h, 0);
    assert j == h * (2 * s) + r;
    DivModUnique(j, 2 * s, h, r);
    DivModUnique(h * s + r, s, h, r);
  }

  /** Insert0 from a known quotient and remainder. */
  lemma Insert0Split(k: nat, s: nat, q: nat, r: nat)
    requires 0 <= r < s && k == q * s + r
    ensures Insert0(k, s) == q * (2 * s) + r
  {
    DivModUnique(k, s, q, r);
  }

  /** Below the stride, inserting a zero bit changes nothing. */
  lemma Insert0Low(k: nat, s: nat)
    requires 0 < s && k < s
    ensures Insert0(k, s) == k
  {
    DivModUnique(k, s, 0, k);
  }
}
