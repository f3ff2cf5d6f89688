/**
 * One round of the GKR crate's sum-check on a `SumPolynomial` of tables.
 * Binding variable 0 of every factor to t and summing the collapse gives
 * the round function t ↦ g(t).  Three facts make the protocol work:
 * g(0) + g(1) is the sum over the whole hypercube; g is a polynomial of
 * degree at most d (d factors per product), so the Lagrange interpolation
 * of g at 0..d agrees with g everywhere; and once every variable is bound
 * the sum is the polynomial's value at the challenges.
 */
module RoundTheory {
  import opened Field
  import opened Hypercube
  import opened MultilinearEV
  import opened MleTheory
  import opened ProductPoly
  import opened SumPoly
  import opened UniTheory

  /** At least one product, each with at least one factor, all tables of n variables. */
  predicate Shape(pps: seq<ProductPolynomial>, n: nat)
  {
    && |pps| >= 1
    && (forall j :: 0 <= j < |pps| ==> |pps[j].polynomials| >= 1)
    && SumTables(pps, n)
  }

  /** Every product has exactly d factors. */
  predicate Uniform(pps: seq<ProductPolynomial>, d: nat)
  {
    forall j :: 0 <= j < |pps| ==> |pps[j].polynomials| == d
  }

  /** Binding variable 0 keeps the shape, one variable fewer, and the factor counts. */
  lemma ShapeAfterBinding(pps: seq<ProductPolynomial>, n: nat, t: Fe)
    requires Shape(pps, n) && n >= 1
    ensures ProductsBindAt(pps, 0)
    ensures Shape(BindProducts(pps, 0, t), n - 1)
    ensures forall j :: 0 <= j < |pps| ==> |BindProducts(pps, 0, t)[j].polynomials| == |pps[j].polynomials|
  {
    BindProductsOnTables(pps, n, t);
  }

  /** The round function: the sum of the collapse after binding variable 0 to t. */
  function RoundSum(pps: seq<ProductPolynomial>, n: nat, t: Fe): Fe
    requires Shape(pps, n) && n >= 1
  {
    ShapeAfterBinding(pps, n, t);
    Sum(PointwiseSum(BindProducts(pps, 0, t)))
  }

  // ---------------------------------------------------------------------
  // The bound tables, entry by entry
  // ---------------------------------------------------------------------

  /** Entry i of every bound factor, written as the line through entries i and i + 2^(n-1). */
  function LerpColumn(ps: seq<seq<Fe>>, n: nat, i: nat, t: Fe): (c: seq<Fe>)
    requires Tables(ps, n) && n >= 1 && i < Pow2(n - 1)
    ensures |c| == |ps|
  {
    seq(|ps|, k requires 0 <= k < |ps| => Lerp(ps[k][i], ps[k][i + Pow2(n - 1)], t))
  }

  /** The product of the lines, product by product. */
  function LerpTerms(pps: seq<ProductPolynomial>, n: nat, i: nat, t: Fe): (v: seq<Fe>)
    requires SumTables(pps, n) && n >= 1 && i < Pow2(n - 1)
    ensures |v| == |pps|
    ensures forall j :: 0 <= j < |pps| ==> v[j] == Product(LerpColumn(pps[j].polynomials, n, i, t))
  {
    seq(|pps|, j requires 0 <= j < |pps| => Product(LerpColumn(pps[j].polynomials, n, i, t)))
  }

  /** Entry i of the bound product's collapse is the product of the lines. */
  lemma BoundProductEntry(ps: seq<seq<Fe>>, n: nat, t: Fe, i: nat)
    requires Tables(ps, n) && n >= 1 && |ps| >= 1 && i < Pow2(n - 1)
    ensures BindsAt(ps, 0) && |BindFactors(ps, 0, t)| >= 1
    ensures |PointwiseProduct(BindFactors(ps, 0, t))| == Pow2(n - 1)
    ensures PointwiseProduct(BindFactors(ps, 0, t))[i] == Product(LerpColumn(ps, n, i, t))
  {
    BindFactorsOnTables(ps, n, t);
    var qs := BindFactors(ps, 0, t);
    ColumnOfTables(qs, n - 1, i);
    forall k | 0 <= k < |ps|
      ensures qs[k][i] == Lerp(ps[k][i], ps[k][i + Pow2(n - 1)], t)
    {
      BindFirstEntry(ps[k], n, t, i);
    }
    assert Column(qs, i) == LerpColumn(ps, n, i, t);
  }

  /** Entry i of the bound sum's collapse is the sum of the products of the lines. */
  lemma BoundSumEntry(pps: seq<ProductPolynomial>, n: nat, t: Fe, i: nat)
    requires Shape(pps, n) && n >= 1 && i < Pow2(n - 1)
    ensures ProductsBindAt(pps, 0)
    ensures |PointwiseSum(BindProducts(pps, 0, t))| == Pow2(n - 1)
    ensures PointwiseSum(BindProducts(pps, 0, t))[i] == Sum(LerpTerms(pps, n, i, t))
  {
    ShapeAfterBinding(pps, n, t);
    var qs := BindProducts(pps, 0, t);
    assert IsTable(qs[0].polynomials[0], n - 1);
    forall j | 0 <= j < |pps|
      ensures ProductColumn(qs, i)[j] == LerpTerms(pps, n, i, t)[j]
    {
      BoundProductEntry(pps[j].polynomials, n, t, i);
    }
    assert ProductColumn(qs, i) == LerpTerms(pps, n, i, t);
  }

  // ---------------------------------------------------------------------
  // g(0) + g(1) is the hypercube sum
  // ---------------------------------------------------------------------

  /** At 0 the lines pass through the lower half, at 1 through the upper half. */
  lemma LerpColumnEnds(ps: seq<seq<Fe>>, n: nat, i: nat)
    requires Tables(ps, n) && n >= 1 && i < Pow2(n - 1)
    ensures LerpColumn(ps, n, i, 0) == Column(ps, i)
    ensures LerpColumn(ps, n, i, 1) == Column(ps, i + Pow2(n - 1))
  {
    forall k | 0 <= k < |ps|
      ensures LerpColumn(ps, n, i, 0)[k] == Column(ps, i)[k]
      ensures LerpColumn(ps, n, i, 1)[k] == Column(ps, i + Pow2(n - 1))[k]
    {
      LerpEnds(ps[k][i], ps[k][i + Pow2(n - 1)]);
    }
  }

  /** The ends of the product lines are the unbound collapses' entries i and i + 2^(n-1). */
  lemma LerpTermsEnds(pps: seq<ProductPolynomial>, n: nat, i: nat)
    requires Shape(pps, n) && n >= 1 && i < Pow2(n - 1)
    ensures LerpTerms(pps, n, i, 0) == ProductColumn(pps, i)
    ensures LerpTerms(pps, n, i, 1) == ProductColumn(pps, i + Pow2(n - 1))
  {
    forall j | 0 <= j < |pps|
      ensures LerpTerms(pps, n, i, 0)[j] == ProductColumn(pps, i)[j]
      ensures LerpTerms(pps, n, i, 1)[j] == ProductColumn(pps, i + Pow2(n - 1))[j]
    {
      LerpColumnEnds(pps[j].polynomials, n, i);
    }
  }

  /** Entry i of the collapse bound at 0 is entry i of the unbound collapse. */
  lemma LowEntry(pps: seq<ProductPolynomial>, n: nat, i: nat)
    requires Shape(pps, n) && n >= 1 && i < Pow2(n - 1)
    ensures ProductsBindAt(pps, 0) && i < |PointwiseSum(pps)|
    ensures PointwiseSum(BindProducts(pps, 0, 0))[i] == PointwiseSum(pps)[i]
  {
    assert IsTable(pps[0].polynomials[0], n);
    BoundSumEntry(pps, n, 0, i);
    LerpTermsEnds(pps, n, i);
  }

  /** Entry i of the collapse bound at 1 is entry i + 2^(n-1) of the unbound collapse. */
  lemma HighEntry(pps: seq<ProductPolynomial>, n: nat, i: nat)
    requires Shape(pps, n) && n >= 1 && i < Pow2(n - 1)
    ensures ProductsBindAt(pps, 0) && i + Pow2(n - 1) < |PointwiseSum(pps)|
    ensures PointwiseSum(BindProducts(pps, 0, 1))[i] == PointwiseSum(pps)[i + Pow2(n - 1)]
  {
    assert IsTable(pps[0].polynomials[0], n);
    BoundSumEntry(pps, n, 1, i);
    LerpTermsEnds(pps, n, i);
  }

  /** Two sequences with the same entries are equal. */
  lemma SameEntries(a: seq<Fe>, b: seq<Fe>)
    requires |a| == |b| && forall i :: 0 <= i < |a| ==> a[i] == b[i]
    ensures a == b
  {
  }

  /** Binding at 0 keeps the lower half of the collapse. */
  lemma BoundSumLow(pps: seq<ProductPolynomial>, n: nat)
    requires Shape(pps, n) && n >= 1
    ensures ProductsBindAt(pps, 0)
    ensures |PointwiseSum(pps)| == Pow2(n) == 2 * Pow2(n - 1)
    ensures PointwiseSum(BindProducts(pps, 0, 0)) == PointwiseSum(pps)[..Pow2(n - 1)]
  {
    ShapeAfterBinding(pps, n, 0);
    assert IsTable(pps[0].polynomials[0], n);
    var h := Pow2(n - 1);
    var q0, r := PointwiseSum(BindProducts(pps, 0, 0)), PointwiseSum(pps)[..h];
    BoundSumEntry(pps, n, 0, 0);
    forall i | 0 <= i < h
      ensures q0[i] == r[i]
    {
      LowEntry(pps, n, i);
    }
    SameEntries(q0, r);
  }

  /** Binding at 1 keeps the upper half of the collapse. */
  lemma BoundSumHigh(pps: seq<ProductPolynomial>, n: nat)
    requires Shape(pps, n) && n >= 1
    ensures ProductsBindAt(pps, 0)
    ensures |PointwiseSum(pps)| == Pow2(n) == 2 * Pow2(n - 1)
    ensures PointwiseSum(BindProducts(pps, 0, 1)) == PointwiseSum(pps)[Pow2(n - 1)..]
  {
    ShapeAfterBinding(pps, n, 1);
    assert IsTable(pps[0].polynomials[0], n);
    var h := Pow2(n - 1);
    var full := PointwiseSum(pps);
    var q1 := PointwiseSum(BindProducts(pps, 0, 1));
    BoundSumEntry(pps, n, 1, 0);
    assert |q1| == h && |full| == 2 * h;
    forall i | 0 <= i < h
      ensures q1[i] == full[i + h]
    {
      HighEntry(pps, n, i);
    }
    UpperHalf(q1, full, h);
  }

  /** A sequence matching the second half of another, entry by entry, is that half. */
  lemma UpperHalf(a: seq<Fe>, b: seq<Fe>, h: nat)
    requires |a| == h && |b| == 2 * h && forall i :: 0 <= i < h ==> a[i] == b[i + h]
    ensures a == b[h..]
  {
  }

  /** The verifier's round check holds for the honest round function: g(0) + g(1) is the hypercube sum. */
  lemma RoundSumEnds(pps: seq<ProductPolynomial>, n: nat)
    requires Shape(pps, n) && n >= 1
    ensures Add(RoundSum(pps, n, 0), RoundSum(pps, n, 1)) == Sum(PointwiseSum(pps))
  {
    BoundSumLow(pps, n);
    BoundSumHigh(pps, n);
    SumHalves(PointwiseSum(pps), Pow2(n - 1));
  }

  // ---------------------------------------------------------------------
  // g is a polynomial of degree at most d
  // ---------------------------------------------------------------------

  /** The coefficients of t ↦ a + t·(b − a). */
  function Line(a: Fe, b: Fe): (c: seq<Fe>)
    ensures |c| == 2
  {
    [a, Sub(b, a)]
  }

  lemma EvalLine(a: Fe, b: Fe, t: Fe)
    ensures EvalPoly(Line(a, b), t) == Lerp(a, b, t)
  {
    var d := Sub(b, a);
    EvalTail(Line(a, b), t);
    assert Line(a, b)[1..] == [d];
    EvalTail([d], t);
    assert [d][1..] == [];
    MulZero(t);
    AddZero(d);
  }

  lemma EvalOne(t: Fe)
    ensures EvalPoly([1], t) == 1
  {
    EvalTail([1], t);
    assert [1][1..] == [];
    MulZero(t);
    AddZero(1);
  }

  /** The coefficients of the product of the first m lines at entry i. */
  function ProductLines(ps: seq<seq<Fe>>, n: nat, i: nat, m: nat): (c: seq<Fe>)
    requires Tables(ps, n) && n >= 1 && i < Pow2(n - 1) && m <= |ps|
    ensures |c| == m + 1
    decreases m
  {
    if m == 0 then [1]
    else Conv(ProductLines(ps, n, i, m - 1), Line(ps[m - 1][i], ps[m - 1][i + Pow2(n - 1)]))
  }

  /** The product lines evaluate to the product of the first m lines. */
  lemma {:induction false} EvalProductLines(ps: seq<seq<Fe>>, n: nat, i: nat, m: nat, t: Fe)
    requires Tables(ps, n) && n >= 1 && i < Pow2(n - 1) && m <= |ps|
    ensures EvalPoly(ProductLines(ps, n, i, m), t) == Product(LerpColumn(ps, n, i, t)[..m])
    decreases m
  {
    var c := LerpColumn(ps, n, i, t);
    if m == 0 {
      EvalOne(t);
    } else {
      var a, b := ps[m - 1][i], ps[m - 1][i + Pow2(n - 1)];
      EvalProductLines(ps, n, i, m - 1, t);
      EvalConv(ProductLines(ps, n, i, m - 1), Line(a, b), t);
      EvalLine(a, b, t);
      assert c[..m][..m - 1] == c[..m - 1];
    }
  }

  /** One coefficient vector per product at entry i. */
  function TermPolys(pps: seq<ProductPolynomial>, n: nat, i: nat): (v: seq<seq<Fe>>)
    requires SumTables(pps, n) && n >= 1 && i < Pow2(n - 1)
    ensures |v| == |pps|
    ensures forall j :: 0 <= j < |pps| ==> v[j] == ProductLines(pps[j].polynomials, n, i, |pps[j].polynomials|)
  {
    seq(|pps|, j requires 0 <= j < |pps| => ProductLines(pps[j].polynomials, n, i, |pps[j].polynomials|))
  }

  /** The coefficients of entry i of the bound collapse, as a function of t. */
  function ColumnPoly(pps: seq<ProductPolynomial>, n: nat, i: nat): seq<Fe>
    requires SumTables(pps, n) && n >= 1 && i < Pow2(n - 1)
  {
    SumPolys(TermPolys(pps, n, i))
  }

  /** Every entry's coefficient vector. */
  function ColumnPolys(pps: seq<ProductPolynomial>, n: nat): (v: seq<seq<Fe>>)
    requires SumTables(pps, n) && n >= 1
    ensures |v| == Pow2(n - 1)
    ensures forall i :: 0 <= i < Pow2(n - 1) ==> v[i] == ColumnPoly(pps, n, i)
  {
    seq(Pow2(n - 1), i requires 0 <= i < Pow2(n - 1) => ColumnPoly(pps, n, i))
  }

  /** The coefficients of the round function. */
  function RoundPoly(pps: seq<ProductPolynomial>, n: nat): seq<Fe>
    requires SumTables(pps, n) && n >= 1
  {
    SumPolys(ColumnPolys(pps, n))
  }

  lemma EvalColumnPoly(pps: seq<ProductPolynomial>, n: nat, i: nat, t: Fe)
    requires SumTables(pps, n) && n >= 1 && i < Pow2(n - 1)
    ensures EvalPoly(ColumnPoly(pps, n, i), t) == Sum(LerpTerms(pps, n, i, t))
  {
    var v := TermPolys(pps, n, i);
    EvalSumPolys(v, t);
    forall j | 0 <= j < |pps|
      ensures EvalsAt(v, t)[j] == LerpTerms(pps, n, i, t)[j]
    {
      var ps := pps[j].polynomials;
      EvalProductLines(ps, n, i, |ps|, t);
      assert LerpColumn(ps, n, i, t)[..|ps|] == LerpColumn(ps, n, i, t);
    }
    assert EvalsAt(v, t) == LerpTerms(pps, n, i, t);
  }

  /** The round polynomial evaluates to the round function everywhere. */
  lemma EvalRoundPoly(pps: seq<ProductPolynomial>, n: nat, t: Fe)
    requires Shape(pps, n) && n >= 1
    ensures EvalPoly(RoundPoly(pps, n), t) == RoundSum(pps, n, t)
  {
    var v := ColumnPolys(pps, n);
    ShapeAfterBinding(pps, n, t);
    BoundSumEntry(pps, n, t, 0);
    var bound := PointwiseSum(BindProducts(pps, 0, t));
    var e := EvalsAt(v, t);
    assert |e| == |bound| == Pow2(n - 1);
    forall i | 0 <= i < Pow2(n - 1)
      ensures e[i] == bound[i]
    {
      EvalColumnPoly(pps, n, i, t);
      BoundSumEntry(pps, n, t, i);
    }
    SameEntries(e, bound);
    EvalSumPolys(v, t);
  }

  /** With d factors per product the round polynomial has d + 1 coefficients. */
  lemma RoundPolyLength(pps: seq<ProductPolynomial>, n: nat, d: nat)
    requires Shape(pps, n) && n >= 1 && Uniform(pps, d)
    ensures |RoundPoly(pps, n)| == d + 1
  {
    forall i | 0 <= i < Pow2(n - 1)
      ensures |ColumnPoly(pps, n, i)| == d + 1
    {
      SumPolysLength(TermPolys(pps, n, i), d + 1);
    }
    SumPolysLength(ColumnPolys(pps, n), d + 1);
  }

  // ---------------------------------------------------------------------
  // The interpolated message is the round function
  // ---------------------------------------------------------------------

  /** The points 0, 1, …, d at which the prover samples the round function. */
  function Points(d: nat): (xs: seq<Fe>)
    ensures |xs| == d + 1 && forall i :: 0 <= i <= d ==> xs[i] == FromNat(i)
  {
    seq(d + 1, i requires 0 <= i <= d => FromNat(i))
  }

  /** Below the modulus the sample points are pairwise different. */
  lemma PointsDistinct(d: nat)
    requires d < P
    ensures Distinct(Points(d))
  {
  }

  /** The round function sampled at 0, 1, …, d. */
  function RoundValues(pps: seq<ProductPolynomial>, n: nat, d: nat): (ys: seq<Fe>)
    requires Shape(pps, n) && n >= 1
    ensures |ys| == d + 1 && forall i :: 0 <= i <= d ==> ys[i] == RoundSum(pps, n, FromNat(i))
  {
    seq(d + 1, i requires 0 <= i <= d => RoundSum(pps, n, FromNat(i)))
  }

  /**
   * The Lagrange interpolation of the d + 1 samples agrees with the round
   * function at every point: the message the prover sends is g itself.
   */
  lemma MessageIsRoundSum(pps: seq<ProductPolynomial>, n: nat, d: nat, t: Fe)
    requires Shape(pps, n) && n >= 1 && Uniform(pps, d) && d < P
    ensures EvalPoly(Interp(Points(d), RoundValues(pps, n, d), d + 1), t) == RoundSum(pps, n, t)
  {
    var xs, ys, c := Points(d), RoundValues(pps, n, d), RoundPoly(pps, n);
    PointsDistinct(d);
    RoundPolyLength(pps, n, d);
    forall m | 0 <= m < |xs|
      ensures EvalPoly(c, xs[m]) == ys[m]
    {
      EvalRoundPoly(pps, n, xs[m]);
    }
    InterpUnique(xs, ys, c, t);
    EvalRoundPoly(pps, n, t);
  }

  // ---------------------------------------------------------------------
  // The final claim
  // ---------------------------------------------------------------------

  /** With no variable left, the collapse's sum is the polynomial's value at the empty point. */
  lemma SumWithoutVariables(pps: seq<ProductPolynomial>)
    requires Shape(pps, 0)
    ensures ProductsEvaluateAt(pps, [])
    ensures Sum(PointwiseSum(pps)) == Sum(ProductEvaluations(pps, []))
  {
    var q := PointwiseSum(pps);
    PointwiseSumAtBooleanPoint(pps, []);
    assert |q| == 1;
    assert q == [q[0]];
    SumSingleton(q[0]);
  }

  /** Binding variable 0 to c and evaluating at the rest is evaluating at c followed by the rest. */
  lemma BoundProductsEvaluate(pps: seq<ProductPolynomial>, c: Fe, rest: seq<Fe>)
    requires Shape(pps, |rest| + 1)
    ensures ProductsBindAt(pps, 0)
    ensures ProductsEvaluateAt(BindProducts(pps, 0, c), rest) && ProductsEvaluateAt(pps, [c] + rest)
    ensures Sum(ProductEvaluations(BindProducts(pps, 0, c), rest)) == Sum(ProductEvaluations(pps, [c] + rest))
  {
    var values := [c] + rest;
    assert values[0] == c && values[1..] == rest;
    ShapeAfterBinding(pps, |rest| + 1, c);
    SumPoly.PartialEvaluateThenEvaluate(pps, values);
  }
}
