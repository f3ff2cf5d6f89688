/**
 * `DensedUnivariatePolynomial` of the GKR crate: a coefficient vector,
 * lowest degree first, with loop-based evaluation, product, padded sum,
 * scaling and Lagrange interpolation.  Each method is proved to compute
 * the corresponding definition of `UniTheory`.
 */
module DensedUniPoly {
  import opened Field
  import opened UniTheory

  datatype DensedUnivariatePolynomial = DensedUnivariatePolynomial(coefficients: seq<Fe>)

  const U32Modulus: nat := 0x1_0000_0000

  /**
   * `degree`: the length cast to `u32`, minus one.  The cast keeps the low
   * 32 bits and the subtraction panics when they are zero.
   */
  function Degree(p: DensedUnivariatePolynomial): (d: nat)
    requires |p.coefficients| % U32Modulus >= 1
    ensures d < U32Modulus
    ensures |p.coefficients| < U32Modulus ==> d + 1 == |p.coefficients|
  {
    |p.coefficients| % U32Modulus - 1
  }

  /** `evaluate`: adds coeff_i · value^i in index order. */
  method Evaluate(p: DensedUnivariatePolynomial, value: Fe) returns (result: Fe)
    ensures result == EvalPoly(p.coefficients, value)
  {
    var c := p.coefficients;
    result := 0;
    for i := 0 to |c|
      invariant result == EvalN(c, i, value)
    {
      result := Add(result, Mul(c[i], Pow(value, i)));
    }
  }

  /** `evaluate_advanced`: the same accumulation under another name. */
  method EvaluateAdvanced(p: DensedUnivariatePolynomial, value: Fe) returns (result: Fe)
    ensures result == EvalPoly(p.coefficients, value)
  {
    var c := p.coefficients;
    result := 0;
    for exp := 0 to |c|
      invariant result == EvalN(c, exp, value)
    {
      result := Add(result, Mul(c[exp], Pow(value, exp)));
    }
  }

  /** `scalar_mul`: scalar times every coefficient. */
  method ScalarMul(scalar: Fe, polynomial: seq<Fe>) returns (resultPolynomial: seq<Fe>)
    ensures resultPolynomial == Scale(scalar, polynomial)
  {
    resultPolynomial := [];
    for k := 0 to |polynomial|
      invariant resultPolynomial == Scale(scalar, polynomial)[..k]
    {
      resultPolynomial := resultPolynomial + [Mul(scalar, polynomial[k])];
    }
  }

  /**
   * `multiply_polynomials`: a zero vector of |left| + |right| - 1
   * coefficients (the subtraction panics when both are empty) into which
   * every product left_i · right_j is added at i + j.
   */
  method MultiplyPolynomials(left: seq<Fe>, right: seq<Fe>) returns (polynomialProduct: seq<Fe>)
    requires |left| + |right| >= 1
    ensures polynomialProduct == Conv(left, right)
  {
    polynomialProduct := Zeros(|left| + |right| - 1);
    for leftIndex := 0 to |left|
      invariant polynomialProduct == ConvRows(left, right, leftIndex)
    {
      for rightIndex := 0 to |right|
        invariant polynomialProduct == AddRow(ConvRows(left, right, leftIndex), left[leftIndex], right, leftIndex, rightIndex)
      {
        var k := leftIndex + rightIndex;
        polynomialProduct := polynomialProduct[k := Add(polynomialProduct[k], Mul(left[leftIndex], right[rightIndex]))];
      }
    }
  }

  /**
   * `add_polynomials`: walks the longer vector (the right one on a tie),
   * adding the shorter one's coefficient where it has one.
   */
  method AddPolynomials(left: seq<Fe>, right: seq<Fe>) returns (summedPolynomial: seq<Fe>)
    ensures summedPolynomial == PaddedAdd(left, right)
  {
    var largerPolynomial, smallerPolynomial := right, left;
    if |left| > |right| {
      largerPolynomial, smallerPolynomial := left, right;
    }
    summedPolynomial := [];
    for exp := 0 to |largerPolynomial|
      invariant summedPolynomial == PaddedAdd(left, right)[..exp]
    {
      if exp < |smallerPolynomial| {
        AddComm(largerPolynomial[exp], smallerPolynomial[exp]);
        summedPolynomial := summedPolynomial + [Add(largerPolynomial[exp], smallerPolynomial[exp])];
      } else {
        AddZero(largerPolynomial[exp]);
        summedPolynomial := summedPolynomial + [largerPolynomial[exp]];
      }
    }
  }

  /**
   * `lagrange_basis`: multiplies (X - x) into the numerator for every x of
   * the set other than the focus, then scales by y over the numerator's
   * value at the focus.  That value is never zero, so the division cannot
   * panic.
   */
  method LagrangeBasis(yPoint: Fe, focusXPoint: Fe, interpolatingSet: seq<Fe>) returns (basis: seq<Fe>)
    ensures basis == Basis(yPoint, focusXPoint, interpolatingSet)
  {
    var numerator := [1];
    for k := 0 to |interpolatingSet|
      invariant numerator == Numerator(focusXPoint, interpolatingSet[..k])
    {
      assert interpolatingSet[..k + 1][..k] == interpolatingSet[..k];
      if interpolatingSet[k] != focusXPoint {
        numerator := MultiplyPolynomials(numerator, [Neg(interpolatingSet[k]), 1]);
      }
    }
    assert interpolatingSet[..|interpolatingSet|] == interpolatingSet;
    var univariatePoly := DensedUnivariatePolynomial(numerator);
    var denominator := Evaluate(univariatePoly, focusXPoint);
    NumeratorAtFocus(focusXPoint, interpolatingSet);
    basis := ScalarMul(Div(yPoint, denominator), numerator);
  }

  /**
   * `lagrange_interpolate`: the sum, starting from [0], of the basis of
   * every sample.  Through distinct points it reproduces every sample and
   * has one coefficient per point (at least one).
   */
  method LagrangeInterpolate(xValues: seq<Fe>, yValues: seq<Fe>) returns (p: DensedUnivariatePolynomial)
    requires |xValues| <= |yValues|
    ensures p.coefficients == Interp(xValues, yValues, |xValues|)
    ensures Distinct(xValues) ==>
      && |p.coefficients| == (if |xValues| == 0 then 1 else |xValues|)
      && forall m :: 0 <= m < |xValues| ==> EvalPoly(p.coefficients, xValues[m]) == yValues[m]
  {
    var finalInterpolatedPolynomial := [0];
    assert Bases(xValues, yValues, 0) == [];
    for index := 0 to |xValues|
      invariant finalInterpolatedPolynomial == Interp(xValues, yValues, index)
    {
      var currentPolynomial := LagrangeBasis(yValues[index], xValues[index], xValues);
      finalInterpolatedPolynomial := AddPolynomials(finalInterpolatedPolynomial, currentPolynomial);
      InterpSnoc(xValues, yValues, index);
    }
    p := DensedUnivariatePolynomial(finalInterpolatedPolynomial);
    if Distinct(xValues) {
      InterpThrough(xValues, yValues);
    }
  }

  // ---------------------------------------------------------------------
  // The crate's test vectors
  // ---------------------------------------------------------------------

  /** Eight coefficients give degree 7. */
  lemma DegreeExample()
    ensures Degree(DensedUnivariatePolynomial([0, 0, 2, 0, 0, 0, 0, 3])) == 7
  {
  }

  /** 2x^2 + 3x^7 at 2 is 392, by `evaluate` and `evaluate_advanced` alike. */
  lemma EvaluateExample()
    ensures EvalPoly([0, 0, 2, 0, 0, 0, 0, 3], 2) == 392
  {
    var c: seq<Fe> := [0, 0, 2, 0, 0, 0, 0, 3];
    assert Pow(2, 1) == 2;
    assert Pow(2, 2) == 4;
    assert Pow(2, 3) == 8;
    assert Pow(2, 4) == 16;
    assert Pow(2, 5) == 32;
    assert Pow(2, 6) == 64;
    assert Pow(2, 7) == 128;
    assert EvalN(c, 1, 2) == 0;
    assert EvalN(c, 2, 2) == 0;
    assert EvalN(c, 3, 2) == 8;
    assert EvalN(c, 4, 2) == 8;
    assert EvalN(c, 5, 2) == 8;
    assert EvalN(c, 6, 2) == 8;
    assert EvalN(c, 7, 2) == 8;
  }

  /** (5 + 2x^2)(6 + 2x) is 30 + 10x + 12x^2 + 4x^3. */
  lemma MultiplyExample()
    ensures Conv([5, 0, 2], [6, 2]) == [30, 10, 12, 4]
  {
    var l: seq<Fe>, r: seq<Fe> := [5, 0, 2], [6, 2];
    assert ConvRows(l, r, 0) == [0, 0, 0, 0];
    assert AddRow([0, 0, 0, 0], 5, r, 0, 1) == [30, 0, 0, 0];
    assert ConvRows(l, r, 1) == [30, 10, 0, 0];
    assert AddRow([30, 10, 0, 0], 0, r, 1, 1) == [30, 10, 0, 0];
    assert ConvRows(l, r, 2) == [30, 10, 0, 0];
    assert AddRow([30, 10, 0, 0], 2, r, 2, 1) == [30, 10, 12, 0];
  }

  /** [5, 2, 5] + [2, 1, 8, 10] is [7, 3, 13, 10]: the shorter vector is padded. */
  lemma AddExample()
    ensures PaddedAdd([5, 2, 5], [2, 1, 8, 10]) == [7, 3, 13, 10]
  {
  }

  /**
   * Through (0, 2), (1, 4), (2, 10) the interpolant is the polynomial
   * 2 + 2x^2: it takes the same value at every point.
   */
  lemma InterpolateExample(t: Fe)
    ensures EvalPoly(Interp([0, 1, 2], [2, 4, 10], 3), t) == EvalPoly([2, 0, 2], t)
  {
    var xs: seq<Fe>, ys: seq<Fe> := [0, 1, 2], [2, 4, 10];
    SamplesOfExample();
    assert Distinct(xs);
    InterpUnique(xs, ys, [2, 0, 2], t);
  }

  /** 2 + 2x^2 takes the values 2, 4, 10 at 0, 1, 2. */
  lemma SamplesOfExample()
    ensures EvalPoly([2, 0, 2], 0) == 2 && EvalPoly([2, 0, 2], 1) == 4 && EvalPoly([2, 0, 2], 2) == 10
  {
    var c: seq<Fe> := [2, 0, 2];
    assert Pow(0, 1) == 0 && Pow(0, 2) == 0;
    assert Pow(1, 1) == 1 && Pow(1, 2) == 1;
    assert Pow(2, 1) == 2 && Pow(2, 2) == 4;
    assert EvalN(c, 1, 0) == 2 && EvalN(c, 2, 0) == 2;
    assert EvalN(c, 1, 1) == 2 && EvalN(c, 2, 1) == 2;
    assert EvalN(c, 1, 2) == 2 && EvalN(c, 2, 2) == 2;
  }
}
