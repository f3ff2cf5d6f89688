/**
 * What the evaluation-form tables mean: on a table of 2^n entries, binding
 * and evaluating are the multilinear extension of the table.  These lemmas
 * are the partners of `MultilinearEV`'s operations.
 */
module MleTheory {
  import opened Field
  import opened Hypercube
  import opened MultilinearEV

  // ---------------------------------------------------------------------
  // The pair formula is affine in every argument
  // ---------------------------------------------------------------------

  lemma LerpLift(x1: int, x2: int, r: Fe)
    ensures Lerp(x1 % P, x2 % P, r) == (x1 + r * (x2 - x1)) % P
  {
    SubLift(x2, x1);
    Canonical(r);
    MulLift(r, x2 - x1);
    AddLift(x1, r * (x2 - x1));
  }

  lemma LerpAdd(a1: Fe, a2: Fe, b1: Fe, b2: Fe, r: Fe)
    ensures Lerp(Add(a1, b1), Add(a2, b2), r) == Add(Lerp(a1, a2, r), Lerp(b1, b2, r))
  {
    Canonical(a1); Canonical(a2); Canonical(b1); Canonical(b2);
    var x, y := a1 + r * (a2 - a1), b1 + r * (b2 - b1);
    LerpLift(a1 + b1, a2 + b2, r);
    LerpLift(a1, a2, r);
    LerpLift(b1, b2, r);
    AddLift(x, y);
    LerpAddInt(a1, a2, b1, b2, r);
  }

  lemma LerpAddInt(a1: int, a2: int, b1: int, b2: int, r: int)
    ensures (a1 + b1) + r * ((a2 + b2) - (a1 + b1)) == (a1 + r * (a2 - a1)) + (b1 + r * (b2 - b1))
  {
  }

  lemma LerpScale(c: Fe, a1: Fe, a2: Fe, r: Fe)
    ensures Lerp(Mul(c, a1), Mul(c, a2), r) == Mul(c, Lerp(a1, a2, r))
  {
    Canonical(a1); Canonical(a2); Canonical(c);
    var x := a1 + r * (a2 - a1);
    LerpLift(c * a1, c * a2, r);
    LerpLift(a1, a2, r);
    MulLift(c, x);
    LerpScaleInt(c, a1, a2, r);
  }

  lemma LerpScaleInt(c: int, a1: int, a2: int, r: int)
    ensures c * a1 + r * (c * a2 - c * a1) == c * (a1 + r * (a2 - a1))
  {
  }

  lemma LerpConst(k: Fe, r: Fe)
    ensures Lerp(k, k, r) == k
  {
    SubSelf(k);
    MulZero(r);
    AddZero(k);
  }

  lemma LerpShift(k: Fe, a1: Fe, a2: Fe, r: Fe)
    ensures Lerp(Add(k, a1), Add(k, a2), r) == Add(k, Lerp(a1, a2, r))
  {
    LerpAdd(k, k, a1, a2, r);
    LerpConst(k, r);
  }

  // ---------------------------------------------------------------------
  // Binding on full tables
  // ---------------------------------------------------------------------

  /** A table of 2^n evaluations: a multilinear polynomial in n variables. */
  predicate IsTable(p: seq<Fe>, n: nat)
  {
    |p| == Pow2(n)
  }

  /** On a table every variable can be bound, and binding halves it. */
  lemma BindOnTable(p: seq<Fe>, n: nat, v: nat)
    requires IsTable(p, n) && v < n
    ensures Log2(|p|) == n
    ensures BindOk(p, v)
  {
    Log2OfPow2(n);
    var s, t := Pow2(n - 1 - v), Pow2(v);
    Pow2Add(n - 1 - v, v);
    assert n - 1 - v + v + 1 == n;
    Pow2Add(n - 1 - v + v, 1);
    assert |p| == 2 * (s * t);
    var k := s * t - 1;
    LastClearIndex(s, t);
    Insert0Split(k, s, t - 1, s - 1);
    assert |p| / 2 - 1 == k;
    assert Stride(|p|, v) == s;
  }

  /** The arithmetic behind the last pair of a table: k = st - 1 splits as (t-1)s + (s-1). */
  lemma LastClearIndex(s: int, t: int)
    requires s > 0 && t > 0
    ensures s * t - 1 == (t - 1) * s + (s - 1)
    ensures (t - 1) * (2 * s) + (s - 1) + s < 2 * (s * t)
  {
  }

  /** Binding variable 0 pairs entry k with entry k + half. */
  lemma BindFirst(p: seq<Fe>, n: nat, r: Fe)
    requires IsTable(p, n) && n >= 1
    ensures BindOk(p, 0)
    ensures IsTable(Bind(p, 0, r), n - 1)
    ensures forall k :: 0 <= k < Pow2(n - 1) ==> Bind(p, 0, r)[k] == Lerp(p[k], p[k + Pow2(n - 1)], r)
  {
    BindOnTable(p, n, 0);
    var s := Pow2(n - 1);
    assert Stride(|p|, 0) == s;
    forall k | 0 <= k < s
      ensures Bind(p, 0, r)[k] == Lerp(p[k], p[k + s], r)
    {
      Insert0Low(k, s);
      assert Bind(p, 0, r)[k] == BindEntry(p, 0, r, k);
    }
  }

  /** One entry of `BindFirst`, without the quantifier. */
  lemma BindFirstEntry(p: seq<Fe>, n: nat, r: Fe, k: nat)
    requires IsTable(p, n) && n >= 1 && k < Pow2(n - 1)
    ensures BindOk(p, 0) && |Bind(p, 0, r)| == Pow2(n - 1)
    ensures Bind(p, 0, r)[k] == Lerp(p[k], p[k + Pow2(n - 1)], r)
  {
    BindFirst(p, n, r);
  }

  /** Binding variable 0 of a table to 0 or to 1 selects its lower or upper half (the two-point test vectors). */
  lemma BindFirstEnds(p: seq<Fe>, n: nat)
    requires IsTable(p, n) && n >= 1
    ensures BindOk(p, 0)
    ensures Bind(p, 0, 0) == p[..Pow2(n - 1)]
    ensures Bind(p, 0, 1) == p[Pow2(n - 1)..]
  {
    BindFirst(p, n, 0);
    BindFirst(p, n, 1);
    var h := Pow2(n - 1);
    forall k | 0 <= k < h
      ensures Bind(p, 0, 0)[k] == p[k] && Bind(p, 0, 1)[k] == p[k + h]
    {
      LerpEnds(p[k], p[k + h]);
    }
  }

  /** For any variable, binding to 0 or 1 reads the entries whose bit is clear or set. */
  lemma BindEnds(p: seq<Fe>, v: nat, k: nat)
    requires BindOk(p, v) && |p| >= 2 && k < |p| / 2
    ensures var s := Stride(|p|, v);
      Insert0(k, s) + s < |p|
      && BitClear(Insert0(k, s), s)
      && Bind(p, v, 0)[k] == p[Insert0(k, s)]
      && Bind(p, v, 1)[k] == p[Insert0(k, s) + s]
  {
    var s := Stride(|p|, v);
    Insert0Mono(k, |p| / 2 - 1, s);
    Insert0Clear(k, s);
    assert Bind(p, v, 0)[k] == BindEntry(p, v, 0, k);
    assert Bind(p, v, 1)[k] == BindEntry(p, v, 1, k);
    LerpEnds(p[Insert0(k, s)], p[Insert0(k, s) + s]);
  }

  /** The pairs `partial_evaluate` reads, in order: every index whose bit is clear, increasing. */
  lemma BindVisitsEveryPair(p: seq<Fe>, v: nat)
    requires BindOk(p, v) && |p| >= 2
    ensures var s := Stride(|p|, v);
      && (forall k, k' :: 0 <= k < k' < |p| / 2 ==> Insert0(k, s) < Insert0(k', s))
      && (forall j :: 0 <= j < |p| && BitClear(j, s) && j + s < |p| ==>
            exists k :: 0 <= k < |p| / 2 && Insert0(k, s) == j)
  {
    var s := Stride(|p|, v);
    forall k, k' | 0 <= k < k' < |p| / 2
      ensures Insert0(k, s) < Insert0(k', s)
    {
      Insert0Mono(k, k', s);
    }
    forall j | 0 <= j < |p| && BitClear(j, s) && j + s < |p|
      ensures exists k :: 0 <= k < |p| / 2 && Insert0(k, s) == j
    {
      PairRank(j, s, |p|);
    }
  }

  /** The rank among clear-bit indices of one that `partial_evaluate` reads. */
  lemma PairRank(j: nat, s: nat, len: nat)
    requires s > 0 && BitClear(j, s) && j + s < len
    ensures exists k :: 0 <= k < len / 2 && Insert0(k, s) == j
  {
    var q, r := j / (2 * s), j % s;
    Insert0Onto(j, s);
    ClearRank(j, s, q, r, len);
    var k := q * s + r;
    assert Insert0(k, s) == j;
  }

  /**
   * A clear-bit index j whose partner j + s is in range has rank k below
   * half the length: each of the k + 1 clear indices up to j comes with
   * its own partner.
   */
  lemma ClearRank(j: nat, s: nat, q: nat, r: nat, len: nat)
    requires 0 < s && r < s && j == q * (2 * s) + r && j + s < len
    ensures q * s + r < len / 2
  {
    var k := q * s + r;
    assert 2 * k == q * (2 * s) + 2 * r;
  }

  /** Tables can be evaluated at up to n points, and binding m values leaves 2^(n-m) entries. */
  lemma {:induction false} TableEvalOk(p: seq<Fe>, n: nat, vs: seq<Fe>)
    requires IsTable(p, n) && |vs| <= n
    ensures BindAllOk(p, vs) && IsTable(BindAll(p, vs), n - |vs|) && EvalOk(p, vs)
    decreases |vs|
  {
    if |vs| > 0 {
      BindFirst(p, n, vs[0]);
      TableEvalOk(Bind(p, 0, vs[0]), n - 1, vs[1..]);
    }
  }

  /** The big-endian index a bit string names. */
  function BitsIndex(bits: seq<Fe>): nat
    requires forall i :: 0 <= i < |bits| ==> bits[i] == 0 || bits[i] == 1
  {
    if |bits| == 0 then 0 else (if bits[0] == 0 then 0 else Pow2(|bits| - 1)) + BitsIndex(bits[1..])
  }

  lemma {:induction false} BitsIndexBound(bits: seq<Fe>)
    requires forall i :: 0 <= i < |bits| ==> bits[i] == 0 || bits[i] == 1
    ensures BitsIndex(bits) < Pow2(|bits|)
    decreases |bits|
  {
    if |bits| > 0 {
      BitsIndexBound(bits[1..]);
    }
  }

  /**
   * At a point of the boolean hypercube, `evaluate` returns the table entry
   * that point indexes: the polynomial extends the table.
   */
  lemma {:induction false} EvalAtBooleanPoint(p: seq<Fe>, bits: seq<Fe>)
    requires IsTable(p, |bits|)
    requires forall i :: 0 <= i < |bits| ==> bits[i] == 0 || bits[i] == 1
    ensures EvalOk(p, bits)
    ensures BitsIndex(bits) < |p| && Eval(p, bits) == p[BitsIndex(bits)]
    decreases |bits|
  {
    TableEvalOk(p, |bits|, bits);
    BitsIndexBound(bits);
    if |bits| == 0 {
      assert Eval(p, bits) == p[0];
    } else {
      var n := |bits|;
      var rest := bits[1..];
      BindOnTable(p, n, 0);
      var q := Bind(p, 0, bits[0]);
      assert IsTable(q, n - 1);
      EvalAtBooleanPoint(q, rest);
      EvalFirst(p, bits);
      BindFirstAtBit(p, n, bits[0], BitsIndex(rest));
    }
  }

  /** Evaluating is binding the first value, then evaluating at the rest. */
  lemma EvalFirst(p: seq<Fe>, vs: seq<Fe>)
    requires EvalOk(p, vs) && |vs| > 0
    ensures BindOk(p, 0) && EvalOk(Bind(p, 0, vs[0]), vs[1..])
    ensures Eval(p, vs) == Eval(Bind(p, 0, vs[0]), vs[1..])
  {
  }

  /** A one-variable table [a, b] evaluates at r to the line through a and b. */
  lemma EvalLine(a: Fe, b: Fe, r: Fe)
    ensures IsTable([a, b], 1) && EvalOk([a, b], [r])
    ensures Eval([a, b], [r]) == Lerp(a, b, r)
  {
    var w := [a, b];
    assert IsTable(w, 1);
    TableEvalOk(w, 1, [r]);
    BindFirstEntry(w, 1, r, 0);
    assert [r][1..] == [];
    assert BindAll(w, [r]) == BindAll(Bind(w, 0, r), []);
  }

  /** Entry i of a table bound at a bit b is entry i of the half that b selects. */
  lemma BindFirstAtBit(p: seq<Fe>, n: nat, b: Fe, i: nat)
    requires IsTable(p, n) && n >= 1 && (b == 0 || b == 1) && i < Pow2(n - 1)
    ensures BindOk(p, 0)
    ensures Bind(p, 0, b)[i] == p[(if b == 0 then 0 else Pow2(n - 1)) + i]
  {
    BindFirstEntry(p, n, b, i);
    LerpEnds(p[i], p[i + Pow2(n - 1)]);
  }

  // ---------------------------------------------------------------------
  // Sums over the hypercube
  // ---------------------------------------------------------------------

  /** An empty table cannot be evaluated at any point: no entry is left to read. */
  lemma {:induction false} EmptyTableNotEvaluable(vs: seq<Fe>)
    ensures !EvalOk([], vs)
    decreases |vs|
  {
    if |vs| > 0 {
      assert Bind([], 0, vs[0]) == [];
      EmptyTableNotEvaluable(vs[1..]);
    }
  }

  /** Pointwise pair formula over two halves. */
  function LerpAll(lo: seq<Fe>, hi: seq<Fe>, r: Fe): (q: seq<Fe>)
    requires |lo| == |hi|
    ensures |q| == |lo|
  {
    seq(|lo|, k requires 0 <= k < |lo| => Lerp(lo[k], hi[k], r))
  }

  lemma {:induction false} SumLerpAll(lo: seq<Fe>, hi: seq<Fe>, r: Fe)
    requires |lo| == |hi|
    ensures Sum(LerpAll(lo, hi, r)) == Lerp(Sum(lo), Sum(hi), r)
    decreases |lo|
  {
    if |lo| == 0 {
      LerpConst(0, r);
    } else {
      var n := |lo| - 1;
      assert LerpAll(lo, hi, r)[..n] == LerpAll(lo[..n], hi[..n], r);
      SumLerpAll(lo[..n], hi[..n], r);
      LerpAdd(Sum(lo[..n]), Sum(hi[..n]), lo[n], hi[n], r);
    }
  }

  lemma BindFirstIsLerpAll(p: seq<Fe>, n: nat, r: Fe)
    requires IsTable(p, n) && n >= 1
    ensures BindOk(p, 0)
    ensures Bind(p, 0, r) == LerpAll(p[..Pow2(n - 1)], p[Pow2(n - 1)..], r)
  {
    BindFirst(p, n, r);
  }

  /**
   * The hypercube sum of a table bound at r is the pair formula applied to
   * the sums of its two halves.
   */
  lemma SumBindFirst(p: seq<Fe>, n: nat, r: Fe)
    requires IsTable(p, n) && n >= 1
    ensures BindOk(p, 0)
    ensures Sum(Bind(p, 0, r)) == Lerp(Sum(p[..Pow2(n - 1)]), Sum(p[Pow2(n - 1)..]), r)
  {
    BindFirstIsLerpAll(p, n, r);
    SumLerpAll(p[..Pow2(n - 1)], p[Pow2(n - 1)..], r);
  }

  /** The two halves together sum to the whole table. */
  lemma SumHalves(p: seq<Fe>, h: nat)
    requires h <= |p|
    ensures Add(Sum(p[..h]), Sum(p[h..])) == Sum(p)
  {
    assert p == p[..h] + p[h..];
    SumAppend(p[..h], p[h..]);
  }

  // ---------------------------------------------------------------------
  // Linearity
  // ---------------------------------------------------------------------

  lemma BindAdd(p: seq<Fe>, q: seq<Fe>, n: nat, r: Fe)
    requires IsTable(p, n) && IsTable(q, n) && n >= 1
    ensures BindOk(p, 0) && BindOk(q, 0) && BindOk(AddPolynomials(p, q), 0)
    ensures Bind(AddPolynomials(p, q), 0, r) == AddPolynomials(Bind(p, 0, r), Bind(q, 0, r))
  {
    var s := AddPolynomials(p, q);
    BindOnTable(p, n, 0);
    BindOnTable(q, n, 0);
    BindOnTable(s, n, 0);
    forall k | 0 <= k < |p| / 2
      ensures Bind(s, 0, r)[k] == Add(Bind(p, 0, r)[k], Bind(q, 0, r)[k])
    {
      BindAddEntry(p, q, n, r, k);
    }
  }

  lemma BindAddEntry(p: seq<Fe>, q: seq<Fe>, n: nat, r: Fe, k: nat)
    requires IsTable(p, n) && IsTable(q, n) && n >= 1 && k < Pow2(n - 1)
    ensures BindOk(p, 0) && BindOk(q, 0) && BindOk(AddPolynomials(p, q), 0)
    ensures Bind(AddPolynomials(p, q), 0, r)[k] == Add(Bind(p, 0, r)[k], Bind(q, 0, r)[k])
  {
    var s := AddPolynomials(p, q);
    var h := Pow2(n - 1);
    BindFirstEntry(p, n, r, k);
    BindFirstEntry(q, n, r, k);
    BindFirstEntry(s, n, r, k);
    assert s[k] == Add(p[k], q[k]) && s[k + h] == Add(p[k + h], q[k + h]);
    LerpAdd(p[k], p[k + h], q[k], q[k + h], r);
  }

  lemma BindScale(p: seq<Fe>, n: nat, c: Fe, r: Fe)
    requires IsTable(p, n) && n >= 1
    ensures BindOk(p, 0) && BindOk(ScalarMul(p, c), 0)
    ensures Bind(ScalarMul(p, c), 0, r) == ScalarMul(Bind(p, 0, r), c)
  {
    var s := ScalarMul(p, c);
    BindOnTable(p, n, 0);
    BindOnTable(s, n, 0);
    forall k | 0 <= k < |p| / 2
      ensures Bind(s, 0, r)[k] == Mul(Bind(p, 0, r)[k], c)
    {
      BindScaleEntry(p, n, c, r, k);
    }
  }

  lemma BindScaleEntry(p: seq<Fe>, n: nat, c: Fe, r: Fe, k: nat)
    requires IsTable(p, n) && n >= 1 && k < Pow2(n - 1)
    ensures BindOk(p, 0) && BindOk(ScalarMul(p, c), 0)
    ensures Bind(ScalarMul(p, c), 0, r)[k] == Mul(Bind(p, 0, r)[k], c)
  {
    var s := ScalarMul(p, c);
    var h := Pow2(n - 1);
    BindFirstEntry(p, n, r, k);
    BindFirstEntry(s, n, r, k);
    assert s[k] == Mul(p[k], c) && s[k + h] == Mul(p[k + h], c);
    MulComm(p[k], c);
    MulComm(p[k + h], c);
    MulComm(Bind(p, 0, r)[k], c);
    LerpScale(c, p[k], p[k + h], r);
  }

  /** Evaluation is additive: `evaluate` of `add_polynomials` is the sum of the evaluations. */
  lemma {:induction false} EvalAdd(p: seq<Fe>, q: seq<Fe>, vs: seq<Fe>)
    requires IsTable(p, |vs|) && IsTable(q, |vs|)
    ensures EvalOk(p, vs) && EvalOk(q, vs) && EvalOk(AddPolynomials(p, q), vs)
    ensures Eval(AddPolynomials(p, q), vs) == Add(Eval(p, vs), Eval(q, vs))
    decreases |vs|
  {
    var s := AddPolynomials(p, q);
    TableEvalOk(p, |vs|, vs);
    TableEvalOk(q, |vs|, vs);
    TableEvalOk(s, |vs|, vs);
    if |vs| > 0 {
      BindAdd(p, q, |vs|, vs[0]);
      BindFirst(p, |vs|, vs[0]);
      BindFirst(q, |vs|, vs[0]);
      EvalAdd(Bind(p, 0, vs[0]), Bind(q, 0, vs[0]), vs[1..]);
    }
  }

  /** Evaluation is homogeneous: `evaluate` of `scalar_mul` scales the evaluation. */
  lemma {:induction false} EvalScale(p: seq<Fe>, c: Fe, vs: seq<Fe>)
    requires IsTable(p, |vs|)
    ensures EvalOk(p, vs) && EvalOk(ScalarMul(p, c), vs)
    ensures Eval(ScalarMul(p, c), vs) == Mul(Eval(p, vs), c)
    decreases |vs|
  {
    var s := ScalarMul(p, c);
    TableEvalOk(p, |vs|, vs);
    TableEvalOk(s, |vs|, vs);
    if |vs| > 0 {
      BindScale(p, |vs|, c, vs[0]);
      BindFirst(p, |vs|, vs[0]);
      EvalScale(Bind(p, 0, vs[0]), c, vs[1..]);
    } else {
      MulComm(p[0], c);
    }
  }

  // ---------------------------------------------------------------------
  // Short literal tables
  // ---------------------------------------------------------------------

  /** A table of two entries is the display of its entries. */
  lemma PairOf(q: seq<Fe>, a: Fe, b: Fe)
    requires |q| == 2 && q[0] == a && q[1] == b
    ensures q == [a, b]
  {
  }

  /** A table of four entries is the display of its entries. */
  lemma QuadOf(q: seq<Fe>, a: Fe, b: Fe, c: Fe, d: Fe)
    requires |q| == 4 && q[0] == a && q[1] == b && q[2] == c && q[3] == d
    ensures q == [a, b, c, d]
  {
  }

  /** The last of n variables of a table has stride 1. */
  lemma StrideOfLast(p: seq<Fe>, n: nat)
    requires IsTable(p, n) && n >= 1
    ensures BindOk(p, n - 1) && |p| >= 2 && Stride(|p|, n - 1) == 1
  {
    BindOnTable(p, n, n - 1);
  }

  /** Binding the last of n variables pairs neighbouring entries. */
  lemma BindLast(p: seq<Fe>, n: nat, r: Fe, k: nat)
    requires IsTable(p, n) && n >= 1 && k < |p| / 2
    ensures BindOk(p, n - 1) && 2 * k + 1 < |p|
    ensures Bind(p, n - 1, r)[k] == Lerp(p[2 * k], p[2 * k + 1], r)
  {
    StrideOfLast(p, n);
    assert Insert0(k, 1) == 2 * k;
    assert Bind(p, n - 1, r)[k] == BindEntry(p, n - 1, r, k);
  }

  /** The pair values the examples below compute. */
  lemma ExampleLerps()
    ensures Lerp(18, 48, 2) == 78 && Lerp(0, 0, 3) == 0 && Lerp(0, 3, 3) == 9 && Lerp(2, 5, 3) == 11
    ensures Lerp(0, 3, 6) == 18 && Lerp(0, 8, 6) == 48
    ensures Lerp(0, 0, 2) == 0 && Lerp(3, 8, 2) == 13
  {
  }

  /** Binding the first variable of `[0, 0, 3, 8]` at 6 gives `[18, 48]`. */
  lemma BindFirstExample()
    ensures BindOk([0, 0, 3, 8], 0) && Bind([0, 0, 3, 8], 0, 6) == [18, 48]
  {
    var p: seq<Fe> := [0, 0, 3, 8];
    assert IsTable(p, 2);
    BindFirstEntry(p, 2, 6, 0);
    BindFirstEntry(p, 2, 6, 1);
    ExampleLerps();
    PairOf(Bind(p, 0, 6), 18, 48);
  }

  /** `[18, 48]` evaluated at 2 is 78. */
  lemma EvalPairExample()
    ensures EvalOk([18, 48], [2]) && Eval([18, 48], [2]) == 78
  {
    var q: seq<Fe> := [18, 48];
    assert IsTable(q, 1);
    TableEvalOk(q, 1, [2]);
    EvalFirst(q, [2]);
    assert [2][1..] == [];
    BindLast(q, 1, 2, 0);
    ExampleLerps();
  }

  /** The gkr crate's second binding test: `[0, 0, 3, 8]` with variable 1 at 2 gives `[0, 13]`. */
  lemma BindSecondExample()
    ensures BindOk([0, 0, 3, 8], 1) && Bind([0, 0, 3, 8], 1, 2) == [0, 13]
  {
    var p: seq<Fe> := [0, 0, 3, 8];
    assert IsTable(p, 2);
    BindLast(p, 2, 2, 0);
    BindLast(p, 2, 2, 1);
    ExampleLerps();
    PairOf(Bind(p, 1, 2), 0, 13);
  }
}
