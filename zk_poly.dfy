/**
 * The `Polynomials` type of the zero-knowledge crate: a coefficient vector,
 * lowest degree first, with evaluation, padded addition, convolution, the
 * `Sum` and `Product` folds, the Lagrange basis and interpolation.  The
 * `DenseUnivariatePolynomial` type of the secret-sharing crate is the same
 * code over a field named `coefficients`, and is modelled by this module.
 */
module ZkPolynomials {
  import opened Field
  import opened UniTheory

  datatype Polynomials = Polynomials(value: seq<Fe>)

  /** The terms coef_i · x^i of the coefficient vector, in index order. */
  function Terms(c: seq<Fe>, x: Fe): (t: seq<Fe>)
    ensures |t| == |c|
  {
    seq(|c|, i requires 0 <= i < |c| => Mul(c[i], Pow(x, i)))
  }

  lemma {:induction false} TermsSum(c: seq<Fe>, n: nat, x: Fe)
    requires n <= |c|
    ensures Sum(Terms(c, x)[..n]) == EvalN(c, n, x)
    decreases n
  {
    if n > 0 {
      TermsSum(c, n - 1, x);
      assert Terms(c, x)[..n][..n - 1] == Terms(c, x)[..n - 1];
    }
  }

  /** `evaluate`: the field sum of the terms; it is the value of the polynomial at x. */
  function Evaluate(p: Polynomials, x: Fe): (r: Fe)
    ensures r == EvalPoly(p.value, x)
  {
    TermsSum(p.value, |p.value|, x);
    assert Terms(p.value, x)[..|p.value|] == Terms(p.value, x);
    Sum(Terms(p.value, x))
  }

  /** `degree`: the length minus one, which underflows (panics) on an empty vector. */
  function Degree(p: Polynomials): (d: nat)
    requires |p.value| >= 1
    ensures d + 1 == |p.value|
  {
    |p.value| - 1
  }

  /** `scalar_mul`: every coefficient times y. */
  function ScalarMul(p: Polynomials, y: Fe): (r: Polynomials)
    ensures |r.value| == |p.value|
  {
    Polynomials(seq(|p.value|, i requires 0 <= i < |p.value| => Mul(p.value[i], y)))
  }

  /** Scaling the coefficients scales every value by y. */
  lemma EvalScalarMul(p: Polynomials, y: Fe, t: Fe)
    ensures EvalPoly(ScalarMul(p, y).value, t) == Mul(EvalPoly(p.value, t), y)
  {
    assert ScalarMul(p, y).value == Scale(y, p.value) by {
      forall i | 0 <= i < |p.value|
        ensures ScalarMul(p, y).value[i] == Scale(y, p.value)[i]
      {
        MulComm(p.value[i], y);
      }
    }
    EvalScale(y, p.value, t);
    MulComm(y, EvalPoly(p.value, t));
  }

  /**
   * `Add`: clones the operand of larger degree (the left one on a tie) and
   * adds the other one's coefficients into its leading positions.  Both
   * operands must be nonempty, since `degree` is taken of each.
   */
  method AddPoly(lhs: Polynomials, rhs: Polynomials) returns (sum: Polynomials)
    requires |lhs.value| >= 1 && |rhs.value| >= 1
    ensures sum.value == PaddedAdd(lhs.value, rhs.value)
  {
    var bigger, smaller := lhs.value, rhs.value;
    var swapped := false;
    if Degree(lhs) < Degree(rhs) {
      bigger, smaller, swapped := rhs.value, lhs.value, true;
    }
    ghost var start := bigger;
    ghost var target := PaddedAdd(lhs.value, rhs.value);
    var i := 0;
    while i < |bigger| && i < |smaller|
      invariant 0 <= i <= |smaller| <= |bigger| == |start| == |target|
      invariant forall k :: 0 <= k < i ==> bigger[k] == target[k]
      invariant forall k :: i <= k < |bigger| ==> bigger[k] == start[k]
    {
      AddComm(bigger[i], smaller[i]);
      bigger := bigger[i := Add(bigger[i], smaller[i])];
      i := i + 1;
    }
    forall k | |smaller| <= k < |bigger|
      ensures bigger[k] == target[k]
    {
      AddZero(start[k]);
      AddComm(start[k], 0);
    }
    sum := Polynomials(bigger);
  }

  /**
   * `Mul`: a zero vector of degree(lhs) + degree(rhs) + 1 coefficients into
   * which every product lhs_i · rhs_j is added at i + j, i outermost.
   */
  method MulPoly(lhs: Polynomials, rhs: Polynomials) returns (product: Polynomials)
    requires |lhs.value| >= 1 && |rhs.value| >= 1
    ensures product.value == Conv(lhs.value, rhs.value)
  {
    var l, r := lhs.value, rhs.value;
    var newDeg := Degree(lhs) + Degree(rhs);
    var result := new Fe[newDeg + 1](_ => 0);
    assert result[..] == Zeros(|l| + |r| - 1);
    for i := 0 to |l|
      invariant result[..] == ConvRows(l, r, i)
    {
      for j := 0 to |r|
        invariant result[..] == AddRow(ConvRows(l, r, i), l[i], r, i, j)
      {
        result[i + j] := Add(result[i + j], Mul(l[i], r[j]));
      }
    }
    product := Polynomials(result[..]);
  }

  predicate AllNonempty(ps: seq<Polynomials>)
  {
    forall i :: 0 <= i < |ps| ==> |ps[i].value| >= 1
  }

  /** `Sum`: the fold of `Add` over the polynomials, starting from [0]. */
  function SumPolynomials(ps: seq<Polynomials>): (s: Polynomials)
    requires AllNonempty(ps)
    ensures |s.value| >= 1
  {
    if |ps| == 0 then Polynomials([0])
    else Polynomials(PaddedAdd(SumPolynomials(ps[..|ps| - 1]).value, ps[|ps| - 1].value))
  }

  /** The coefficient vectors of a list of polynomials. */
  function Values(ps: seq<Polynomials>): (vs: seq<seq<Fe>>)
    ensures |vs| == |ps| && forall i :: 0 <= i < |ps| ==> vs[i] == ps[i].value
  {
    seq(|ps|, i requires 0 <= i < |ps| => ps[i].value)
  }

  /** `Sum` is the running padded sum of the coefficient vectors; it evaluates to the sum of the values. */
  lemma {:induction false} SumPolynomialsIsSum(ps: seq<Polynomials>, t: Fe)
    requires AllNonempty(ps)
    ensures SumPolynomials(ps).value == SumPolys(Values(ps))
    ensures EvalPoly(SumPolynomials(ps).value, t) == Sum(EvalsAt(Values(ps), t))
    decreases |ps|
  {
    if |ps| > 0 {
      SumPolynomialsIsSum(ps[..|ps| - 1], t);
      assert Values(ps)[..|ps| - 1] == Values(ps[..|ps| - 1]);
    }
    EvalSumPolys(Values(ps), t);
  }

  /** `Product`: the fold of `Mul` over the polynomials, starting from [1]. */
  function ProductPolynomials(ps: seq<Polynomials>): (s: Polynomials)
    requires AllNonempty(ps)
    ensures |s.value| >= 1
  {
    if |ps| == 0 then Polynomials([1])
    else Polynomials(Conv(ProductPolynomials(ps[..|ps| - 1]).value, ps[|ps| - 1].value))
  }

  /** The points of xs other than x, in their order: the iterator filter of `basis`. */
  function Others(x: Fe, xs: seq<Fe>): (o: seq<Fe>)
    ensures |o| <= |xs|
  {
    if |xs| == 0 then []
    else if xs[|xs| - 1] != x then Others(x, xs[..|xs| - 1]) + [xs[|xs| - 1]]
    else Others(x, xs[..|xs| - 1])
  }

  /** The factors (X - x_n) for the points x_n other than x. */
  function Factors(x: Fe, xs: seq<Fe>): (fs: seq<Polynomials>)
    ensures AllNonempty(fs)
  {
    var o := Others(x, xs);
    seq(|o|, i requires 0 <= i < |o| => Polynomials(LinearFactor(o[i])))
  }

  /** The product of the factors is the Lagrange numerator. */
  lemma {:induction false} ProductIsNumerator(x: Fe, xs: seq<Fe>)
    ensures ProductPolynomials(Factors(x, xs)).value == Numerator(x, xs)
    decreases |xs|
  {
    if |xs| > 0 {
      var init, a := xs[..|xs| - 1], xs[|xs| - 1];
      ProductIsNumerator(x, init);
      var fs := Factors(x, xs);
      if a != x {
        assert fs[..|fs| - 1] == Factors(x, init);
        assert fs[|fs| - 1] == Polynomials(LinearFactor(a));
      } else {
        assert fs == Factors(x, init);
      }
    }
  }

  /**
   * `basis`: the product of the factors, scaled by the inverse of its value
   * at x.  That value is never zero, so `inverse().unwrap()` cannot panic.
   */
  function BasisAt(x: Fe, interpolatingSet: seq<Fe>): (b: Polynomials)
    ensures |b.value| == |Numerator(x, interpolatingSet)|
  {
    var numerator := ProductPolynomials(Factors(x, interpolatingSet));
    ProductIsNumerator(x, interpolatingSet);
    NumeratorAtFocus(x, interpolatingSet);
    ScalarMul(numerator, Inv(Evaluate(numerator, x)))
  }

  /** The basis is 1 at its own point and 0 at every other point of the set. */
  lemma BasisAtEval(x: Fe, interpolatingSet: seq<Fe>, t: Fe)
    ensures t == x ==> EvalPoly(BasisAt(x, interpolatingSet).value, t) == 1
    ensures t in interpolatingSet && t != x ==> EvalPoly(BasisAt(x, interpolatingSet).value, t) == 0
  {
    var n := Numerator(x, interpolatingSet);
    ProductIsNumerator(x, interpolatingSet);
    NumeratorAtFocus(x, interpolatingSet);
    var d := EvalPoly(n, x);
    EvalScalarMul(Polynomials(n), Inv(d), t);
    if t == x {
      assert EvalPoly(BasisAt(x, interpolatingSet).value, t) == Mul(d, Inv(d));
    } else if t in interpolatingSet {
      NumeratorVanishes(x, interpolatingSet, t);
      MulComm(0, Inv(d));
      MulZero(Inv(d));
    }
  }

  /** The basis of x scaled by y is the basis of the reference interpolation. */
  lemma ScaledBasis(y: Fe, x: Fe, xs: seq<Fe>)
    ensures ScalarMul(BasisAt(x, xs), y).value == Basis(y, x, xs)
  {
    var n := Numerator(x, xs);
    ProductIsNumerator(x, xs);
    NumeratorAtFocus(x, xs);
    var inv := Inv(EvalPoly(n, x));
    var lhs, rhs := ScalarMul(BasisAt(x, xs), y).value, Basis(y, x, xs);
    forall i | 0 <= i < |n|
      ensures lhs[i] == rhs[i]
    {
      ScaledEntry(n[i], inv, y);
    }
  }

  lemma ScaledEntry(c: Fe, inv: Fe, y: Fe)
    ensures Mul(Mul(c, inv), y) == Mul(Mul(y, inv), c)
  {
    MulComm(c, inv);
    MulAssoc(inv, c, y);
    MulComm(c, y);
    MulAssoc(inv, y, c);
    MulComm(inv, y);
  }

  /** The scaled bases of the zipped samples, as `interpolate` maps them. */
  function ScaledBases(xs: seq<Fe>, ys: seq<Fe>): (bs: seq<Polynomials>)
    ensures AllNonempty(bs)
  {
    var k := if |xs| < |ys| then |xs| else |ys|;
    seq(k, i requires 0 <= i < k => ScalarMul(BasisAt(xs[i], xs), ys[i]))
  }

  /** `interpolate`: the `Sum` of the scaled bases of the zipped samples. */
  function Interpolate(xs: seq<Fe>, ys: seq<Fe>): (p: Polynomials)
    ensures |p.value| >= 1
  {
    SumPolynomials(ScaledBases(xs, ys))
  }

  /**
   * `interpolate` is the reference interpolation of the first min(|xs|, |ys|)
   * samples: `zip` drops the unpaired tail.
   */
  lemma InterpolateIsInterp(xs: seq<Fe>, ys: seq<Fe>)
    ensures Interpolate(xs, ys).value == Interp(xs, ys, if |xs| < |ys| then |xs| else |ys|)
  {
    var k := if |xs| < |ys| then |xs| else |ys|;
    var bs := ScaledBases(xs, ys);
    SumPolynomialsIsSum(bs, 0);
    forall i | 0 <= i < k
      ensures Values(bs)[i] == Bases(xs, ys, k)[i]
    {
      ScaledBasis(ys[i], xs[i], xs);
    }
    assert Values(bs) == Bases(xs, ys, k);
  }

  /**
   * Through distinct points, `interpolate` takes y_m at x_m for every paired
   * sample, and 0 at the points left without a y.
   */
  lemma InterpolateEval(xs: seq<Fe>, ys: seq<Fe>, m: nat)
    requires Distinct(xs) && m < |xs|
    ensures Evaluate(Interpolate(xs, ys), xs[m]) == if m < |ys| then ys[m] else 0
  {
    var k := if |xs| < |ys| then |xs| else |ys|;
    InterpolateIsInterp(xs, ys);
    InterpPartialEval(xs, ys, k, m);
  }

  /**
   * Through distinct points, `interpolate` is the unique polynomial of fewer
   * than |xs| + 1 coefficients through the samples.
   */
  lemma InterpolateUnique(xs: seq<Fe>, ys: seq<Fe>, c: seq<Fe>, t: Fe)
    requires Distinct(xs) && |xs| <= |ys| && |c| <= |xs|
    requires forall m :: 0 <= m < |xs| ==> EvalPoly(c, xs[m]) == ys[m]
    ensures Evaluate(Interpolate(xs, ys), t) == EvalPoly(c, t)
  {
    InterpolateIsInterp(xs, ys);
    InterpUnique(xs, ys, c, t);
  }

  // ---------------------------------------------------------------------
  // The crate's test vectors
  // ---------------------------------------------------------------------

  /** 1 + 2x + 3x^2 has degree 2 and value 34 at 3. */
  lemma DegreeAndEvaluateExample()
    ensures Degree(Polynomials([1, 2, 3])) == 2
    ensures Evaluate(Polynomials([1, 2, 3]), 3) == 34
  {
    var c: seq<Fe> := [1, 2, 3];
    assert Pow(3, 2) == 9;
    assert EvalN(c, 2, 3) == 7;
  }

  /** (1 + 2x + 3x^2) + (3 + 4x + 5x^11) is 4 + 6x + 3x^2 + 5x^11. */
  lemma AddExample()
    ensures PaddedAdd([1, 2, 3], [3, 4, 0, 0, 0, 0, 0, 0, 0, 0, 0, 5])
         == [4, 6, 3, 0, 0, 0, 0, 0, 0, 0, 0, 5]
  {
  }

  /** Through (2, 4) and (4, 8) `interpolate` gives the polynomial 2x. */
  lemma InterpolateExample(t: Fe)
    ensures Evaluate(Interpolate([2, 4], [4, 8]), t) == EvalPoly([0, 2], t)
  {
    var xs: seq<Fe>, c: seq<Fe> := [2, 4], [0, 2];
    forall x: Fe | x in xs
      ensures EvalPoly(c, x) == Mul(2, x)
    {
      assert EvalN(c, 1, x) == 0;
    }
    assert Distinct(xs);
    InterpolateUnique(xs, [4, 8], c, t);
  }
}
