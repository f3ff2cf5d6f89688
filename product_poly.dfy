/**
 * `ProductPolynomial` of the GKR crate: a list of multilinear tables (the
 * factors) standing for their product.  The constructor checks that all
 * factors have the same number of variables; evaluation multiplies the
 * factor evaluations; binding binds every factor; the element-wise collapse
 * multiplies the tables entry by entry.
 */
module ProductPoly {
  import opened Field
  import opened Hypercube
  import opened MultilinearEV
  import opened MleTheory
  import opened Wrappers

  datatype ProductPolynomial = ProductPolynomial(polynomials: seq<seq<Fe>>)

  const VariableCountMismatch: string := "different number of variables"

  /** Every factor is non-empty, so `number_of_variables` (`ilog2`) exists for it. */
  predicate NonEmptyFactors(ps: seq<seq<Fe>>)
  {
    forall k :: 0 <= k < |ps| ==> |ps[k]| >= 1
  }

  /** Every factor is a table of 2^n evaluations. */
  predicate Tables(ps: seq<seq<Fe>>, n: nat)
  {
    forall k :: 0 <= k < |ps| ==> IsTable(ps[k], n)
  }

  /**
   * `ProductPolynomial::new`: accepted exactly when every factor has the
   * variable count of the first, rejected with "different number of
   * variables" otherwise.  Indexing the first factor and `ilog2` panic on
   * an empty list or an empty factor.
   */
  function New(polynomials: seq<seq<Fe>>): (r: Result<ProductPolynomial>)
    requires |polynomials| >= 1 && NonEmptyFactors(polynomials)
    ensures r.Success? <==>
      forall k :: 0 <= k < |polynomials| ==> Log2(|polynomials[k]|) == Log2(|polynomials[0]|)
    ensures r.Success? ==> r.value.polynomials == polynomials
    ensures r.Failure? ==> r.error == VariableCountMismatch
  {
    if forall k :: 0 <= k < |polynomials| ==> Log2(|polynomials[k]|) == Log2(|polynomials[0]|) then
      Success(ProductPolynomial(polynomials))
    else
      Failure(VariableCountMismatch)
  }

  /** Factors that are all tables of one size are accepted. */
  lemma NewOnTables(ps: seq<seq<Fe>>, n: nat)
    requires |ps| >= 1 && Tables(ps, n)
    ensures NonEmptyFactors(ps) && New(ps) == Success(ProductPolynomial(ps))
  {
    Log2OfPow2(n);
  }

  /** The crate's test: a 1-variable and a 2-variable factor are rejected. */
  lemma NewRejectsDifferentLengths()
    ensures NonEmptyFactors([[0, 2], [0, 0, 0, 3]])
    ensures New([[0, 2], [0, 0, 0, 3]]) == Failure(VariableCountMismatch)
  {
    var ps: seq<seq<Fe>> := [[0, 2], [0, 0, 0, 3]];
    assert Log2(|ps[0]|) == 1;
    assert Log2(|ps[1]|) == 2;
  }

  /** `degree`: the number of factors. */
  function Degree(pp: ProductPolynomial): nat
  {
    |pp.polynomials|
  }

  // ---------------------------------------------------------------------
  // Evaluation
  // ---------------------------------------------------------------------

  /** Every factor can be evaluated at `values`. */
  predicate EvaluatesAt(ps: seq<seq<Fe>>, values: seq<Fe>)
  {
    forall k :: 0 <= k < |ps| ==> EvalOk(ps[k], values)
  }

  /** The factor evaluations at `values`, in factor order. */
  function FactorEvaluations(ps: seq<seq<Fe>>, values: seq<Fe>): (e: seq<Fe>)
    requires EvaluatesAt(ps, values)
    ensures |e| == |ps| && forall k :: 0 <= k < |ps| ==> e[k] == Eval(ps[k], values)
  {
    seq(|ps|, k requires 0 <= k < |ps| => Eval(ps[k], values))
  }

  /** Tables of n variables can be evaluated at n values. */
  lemma TablesEvaluate(ps: seq<seq<Fe>>, values: seq<Fe>)
    requires Tables(ps, |values|)
    ensures EvaluatesAt(ps, values)
  {
    forall k | 0 <= k < |ps|
      ensures EvalOk(ps[k], values)
    {
      TableEvalOk(ps[k], |values|, values);
    }
  }

  /** `evaluate`: the running product, from one, of the factor evaluations. */
  method Evaluate(pp: ProductPolynomial, values: seq<Fe>) returns (result: Fe)
    requires EvaluatesAt(pp.polynomials, values)
    ensures result == Product(FactorEvaluations(pp.polynomials, values))
  {
    var ps := pp.polynomials;
    result := 1;
    for k := 0 to |ps|
      invariant result == Product(FactorEvaluations(ps[..k], values))
    {
      var e := MultilinearEV.Evaluate(ps[k], values);
      assert FactorEvaluations(ps[..k + 1], values)[..k] == FactorEvaluations(ps[..k], values);
      result := Mul(result, e);
    }
    assert ps[..|ps|] == ps;
  }

  /** A two-variable table bound at a pairs entry k with entry k + 2. */
  lemma BindFour(p: seq<Fe>, a: Fe)
    requires |p| == 4
    ensures BindOk(p, 0) && Bind(p, 0, a) == [Lerp(p[0], p[2], a), Lerp(p[1], p[3], a)]
  {
    assert Pow2(1) == 2 && IsTable(p, 2);
    BindFirstEntry(p, 2, a, 0);
    BindFirstEntry(p, 2, a, 1);
    PairOf(Bind(p, 0, a), Lerp(p[0], p[2], a), Lerp(p[1], p[3], a));
  }

  /** A two-variable table evaluated at (a, b). */
  lemma EvalFour(p: seq<Fe>, a: Fe, b: Fe)
    requires |p| == 4
    ensures EvalOk(p, [a, b])
    ensures Eval(p, [a, b]) == Lerp(Lerp(p[0], p[2], a), Lerp(p[1], p[3], a), b)
  {
    assert IsTable(p, 2);
    TableEvalOk(p, 2, [a, b]);
    EvalFirst(p, [a, b]);
    BindFour(p, a);
    var q := Bind(p, 0, a);
    assert [a, b][1..] == [b];
    assert IsTable(q, 1);
    TableEvalOk(q, 1, [b]);
    EvalFirst(q, [b]);
    BindFirstEntry(q, 1, b, 0);
  }

  /** The pair formula on the entries of the crate's test tables. */
  lemma ExampleLerps()
    ensures Lerp(0, 0, 1) == 0 && Lerp(0, 2, 1) == 2 && Lerp(0, 3, 1) == 3 && Lerp(0, 1, 1) == 1
    ensures Lerp(0, 0, 2) == 0 && Lerp(0, 2, 2) == 4 && Lerp(0, 3, 2) == 6 && Lerp(0, 1, 2) == 2
    ensures Mul(4, 6) == 24 && Mul(2, 4) == 8 && Mul(1, 2) == 2 && Add(24, 8) == 32 && Add(6, 2) == 8
  {
  }

  /** The table of the monomial a·x·y, `[0, 0, 0, a]`, at (1, 2) is 2a. */
  lemma EvalCorner(p: seq<Fe>, a: Fe)
    requires p == [0, 0, 0, a]
    ensures EvalOk(p, [1, 2]) && Eval(p, [1, 2]) == Mul(2, a)
  {
    EvalFour(p, 1, 2);
    LerpEnds(0, 0);
    LerpEnds(0, a);
    LerpConst(0, 2);
    SubSelf(a);
    AddZero(Mul(2, a));
  }

  /** A product of two values. */
  lemma ProductOfPair(a: Fe, b: Fe)
    ensures Product([a, b]) == Mul(a, b)
  {
    assert [a, b][..1] == [a];
    SumSingleton(a);
  }

  /** Two monomial tables a·x·y and b·x·y multiplied at (1, 2). */
  lemma TwoCorners(ps: seq<seq<Fe>>, a: Fe, b: Fe)
    requires ps == [[0, 0, 0, a], [0, 0, 0, b]]
    ensures EvaluatesAt(ps, [1, 2])
    ensures Product(FactorEvaluations(ps, [1, 2])) == Mul(Mul(2, a), Mul(2, b))
  {
    EvalCorner(ps[0], a);
    EvalCorner(ps[1], b);
    var e := FactorEvaluations(ps, [1, 2]);
    assert e == [Mul(2, a), Mul(2, b)];
    ProductOfPair(Mul(2, a), Mul(2, b));
  }

  /** The crate's test: `[0,0,0,2]` times `[0,0,0,3]` at (1, 2) is 24. */
  lemma EvaluateExample(ps: seq<seq<Fe>>)
    requires ps == [[0, 0, 0, 2], [0, 0, 0, 3]]
    ensures EvaluatesAt(ps, [1, 2]) && Product(FactorEvaluations(ps, [1, 2])) == 24
  {
    assert Mul(Mul(2, 2), Mul(2, 3)) == 24 by {
      assert Mul(2, 2) == 4 && Mul(2, 3) == 6;
    }
    TwoCorners(ps, 2, 3);
  }

  // ---------------------------------------------------------------------
  // Binding
  // ---------------------------------------------------------------------

  /** Every factor admits binding variable v. */
  predicate BindsAt(ps: seq<seq<Fe>>, v: nat)
  {
    forall k :: 0 <= k < |ps| ==> BindOk(ps[k], v)
  }

  /** Every factor with variable v bound to `value`, in factor order. */
  function BindFactors(ps: seq<seq<Fe>>, v: nat, value: Fe): (qs: seq<seq<Fe>>)
    requires BindsAt(ps, v)
    ensures |qs| == |ps| && forall k :: 0 <= k < |ps| ==> qs[k] == Bind(ps[k], v, value)
  {
    seq(|ps|, k requires 0 <= k < |ps| => Bind(ps[k], v, value))
  }

  /** `partial_evaluate`: binds the same variable to the same value in every factor. */
  method PartialEvaluate(pp: ProductPolynomial, evaluatingVariable: nat, value: Fe)
    returns (evaluatedPolynomials: seq<seq<Fe>>)
    requires BindsAt(pp.polynomials, evaluatingVariable)
    ensures evaluatedPolynomials == BindFactors(pp.polynomials, evaluatingVariable, value)
  {
    var ps := pp.polynomials;
    evaluatedPolynomials := [];
    for k := 0 to |ps|
      invariant evaluatedPolynomials == BindFactors(ps[..k], evaluatingVariable, value)
    {
      var partiallyEvaluatedPolynomial := MultilinearEV.PartialEvaluate(ps[k], evaluatingVariable, value);
      evaluatedPolynomials := evaluatedPolynomials + [partiallyEvaluatedPolynomial];
    }
    assert ps[..|ps|] == ps;
  }

  /**
   * Binding variable 0 of tables of n >= 1 variables leaves tables of n - 1
   * variables, which `new` accepts again with the same degree.
   */
  lemma BindFactorsOnTables(ps: seq<seq<Fe>>, n: nat, value: Fe)
    requires Tables(ps, n) && n >= 1
    ensures BindsAt(ps, 0) && Tables(BindFactors(ps, 0, value), n - 1)
    ensures |ps| >= 1 ==>
      && NonEmptyFactors(BindFactors(ps, 0, value))
      && New(BindFactors(ps, 0, value)) == Success(ProductPolynomial(BindFactors(ps, 0, value)))
      && Degree(ProductPolynomial(BindFactors(ps, 0, value))) == Degree(ProductPolynomial(ps))
  {
    forall k | 0 <= k < |ps|
      ensures BindOk(ps[k], 0)
    {
      BindFirst(ps[k], n, value);
    }
    var qs := BindFactors(ps, 0, value);
    forall k | 0 <= k < |ps|
      ensures IsTable(qs[k], n - 1)
    {
      BindFirst(ps[k], n, value);
    }
    if |ps| >= 1 {
      NewOnTables(qs, n - 1);
    }
  }

  /**
   * Binding the first value and evaluating at the rest is evaluating at all
   * the values: `partial_evaluate` then `evaluate` agrees with `evaluate`.
   */
  lemma PartialEvaluateThenEvaluate(ps: seq<seq<Fe>>, values: seq<Fe>)
    requires Tables(ps, |values|) && |values| >= 1
    ensures BindsAt(ps, 0) && EvaluatesAt(ps, values)
    ensures EvaluatesAt(BindFactors(ps, 0, values[0]), values[1..])
    ensures Product(FactorEvaluations(BindFactors(ps, 0, values[0]), values[1..]))
         == Product(FactorEvaluations(ps, values))
  {
    var n := |values|;
    BindFactorsOnTables(ps, n, values[0]);
    TablesEvaluate(ps, values);
    var qs := BindFactors(ps, 0, values[0]);
    assert |values[1..]| == n - 1;
    TablesEvaluate(qs, values[1..]);
    forall k | 0 <= k < |ps|
      ensures Eval(qs[k], values[1..]) == Eval(ps[k], values)
    {
      EvalFirst(ps[k], values);
    }
    assert FactorEvaluations(qs, values[1..]) == FactorEvaluations(ps, values);
  }

  /** Two monomial tables a·x·y and b·x·y with x bound at 2. */
  lemma BindCorners(ps: seq<seq<Fe>>, a: Fe, b: Fe)
    requires ps == [[0, 0, 0, a], [0, 0, 0, b]]
    ensures BindsAt(ps, 0) && BindFactors(ps, 0, 2) == [[0, Mul(2, a)], [0, Mul(2, b)]]
  {
    BindFour(ps[0], 2);
    BindFour(ps[1], 2);
    LerpConst(0, 2);
    SubSelf(a);
    SubSelf(b);
    AddZero(Mul(2, a));
    AddZero(Mul(2, b));
    var qs := BindFactors(ps, 0, 2);
    assert qs == [qs[0], qs[1]];
  }

  /** The crate's test: binding variable 0 at 2 gives `[0, 4]` and `[0, 6]`. */
  lemma PartialEvaluateExample(ps: seq<seq<Fe>>)
    requires ps == [[0, 0, 0, 2], [0, 0, 0, 3]]
    ensures BindsAt(ps, 0) && BindFactors(ps, 0, 2) == [[0, 4], [0, 6]]
  {
    assert Mul(2, 2) == 4 && Mul(2, 3) == 6;
    BindCorners(ps, 2, 3);
  }

  // ---------------------------------------------------------------------
  // Element-wise product
  // ---------------------------------------------------------------------

  /** Entry i of a factor, or one where the factor does not reach i (it then skips i). */
  function FactorEntry(p: seq<Fe>, i: nat): Fe
  {
    if i < |p| then p[i] else 1
  }

  /** Entry i of every factor. */
  function Column(ps: seq<seq<Fe>>, i: nat): (c: seq<Fe>)
    ensures |c| == |ps| && forall k :: 0 <= k < |ps| ==> c[k] == FactorEntry(ps[k], i)
  {
    seq(|ps|, k requires 0 <= k < |ps| => FactorEntry(ps[k], i))
  }

  /** The entry-by-entry product of the factors, as long as the first factor. */
  function PointwiseProduct(ps: seq<seq<Fe>>): (q: seq<Fe>)
    requires |ps| >= 1
    ensures |q| == |ps[0]| && forall i :: 0 <= i < |q| ==> q[i] == Product(Column(ps, i))
  {
    seq(|ps[0]|, i requires 0 <= i < |ps[0]| => Product(Column(ps, i)))
  }

  /** One more factor multiplies every column product by its entry. */
  lemma ColumnSnoc(ps: seq<seq<Fe>>, k: nat, i: nat)
    requires k < |ps|
    ensures Product(Column(ps[..k + 1], i)) == Mul(Product(Column(ps[..k], i)), FactorEntry(ps[k], i))
  {
    assert Column(ps[..k + 1], i)[..k] == Column(ps[..k], i);
  }

  /**
   * `multiply_polynomials_element_wise`: copies the first factor and
   * multiplies each later factor into it entry by entry.  It asserts more
   * than one factor, and a later factor longer than the first indexes past
   * the copy.
   */
  method MultiplyPolynomialsElementWise(pp: ProductPolynomial) returns (result: seq<Fe>)
    requires |pp.polynomials| > 1
    requires forall k :: 0 <= k < |pp.polynomials| ==> |pp.polynomials[k]| <= |pp.polynomials[0]|
    ensures result == PointwiseProduct(pp.polynomials)
  {
    var ps := pp.polynomials;
    var resultantValues := new Fe[|ps[0]|](i requires 0 <= i < |ps[0]| => ps[0][i]);
    forall i | 0 <= i < resultantValues.Length
      ensures resultantValues[i] == Product(Column(ps[..1], i))
    {
      ColumnSnoc(ps, 0, i);
      MulOne(ps[0][i]);
    }
    for k := 1 to |ps|
      invariant forall i :: 0 <= i < resultantValues.Length ==> resultantValues[i] == Product(Column(ps[..k], i))
    {
      var polynomial := ps[k];
      for i := 0 to |polynomial|
        invariant forall i' :: 0 <= i' < i ==> resultantValues[i'] == Product(Column(ps[..k + 1], i'))
        invariant forall i' :: i <= i' < resultantValues.Length ==> resultantValues[i'] == Product(Column(ps[..k], i'))
      {
        ColumnSnoc(ps, k, i);
        resultantValues[i] := Mul(resultantValues[i], polynomial[i]);
      }
      forall i' | |polynomial| <= i' < resultantValues.Length
        ensures resultantValues[i'] == Product(Column(ps[..k + 1], i'))
      {
        ColumnSnoc(ps, k, i');
        MulOne(Product(Column(ps[..k], i')));
      }
    }
    assert ps[..|ps|] == ps;
    result := resultantValues[..];
  }

  /** On tables, a column is the factor entries themselves. */
  lemma ColumnOfTables(ps: seq<seq<Fe>>, n: nat, i: nat)
    requires Tables(ps, n) && i < Pow2(n)
    ensures Column(ps, i) == seq(|ps|, k requires 0 <= k < |ps| => ps[k][i])
  {
  }

  /**
   * At a point of the boolean hypercube, the element-wise product evaluates
   * to the product of the factor evaluations: the collapse and `evaluate`
   * describe the same polynomial there.
   */
  lemma PointwiseProductAtBooleanPoint(ps: seq<seq<Fe>>, bits: seq<Fe>)
    requires |ps| >= 1 && Tables(ps, |bits|)
    requires forall i :: 0 <= i < |bits| ==> bits[i] == 0 || bits[i] == 1
    ensures IsTable(PointwiseProduct(ps), |bits|) && EvalOk(PointwiseProduct(ps), bits)
    ensures EvaluatesAt(ps, bits)
    ensures Eval(PointwiseProduct(ps), bits) == Product(FactorEvaluations(ps, bits))
  {
    var q := PointwiseProduct(ps);
    EvalAtBooleanPoint(q, bits);
    TablesEvaluate(ps, bits);
    var idx := BitsIndex(bits);
    forall k | 0 <= k < |ps|
      ensures Column(ps, idx)[k] == FactorEvaluations(ps, bits)[k]
    {
      EvalAtBooleanPoint(ps[k], bits);
    }
    assert Column(ps, idx) == FactorEvaluations(ps, bits);
  }

  /** With two factors, each column product is the product of the two entries. */
  lemma TwoFactorColumn(ps: seq<seq<Fe>>, i: nat)
    requires |ps| == 2
    ensures Product(Column(ps, i)) == Mul(FactorEntry(ps[0], i), FactorEntry(ps[1], i))
  {
    ColumnSnoc(ps, 0, i);
    ColumnSnoc(ps, 1, i);
    assert ps[..2] == ps;
    MulOne(FactorEntry(ps[0], i));
  }

  /** The crate's test: `[0,0,0,2]` times `[0,0,0,3]` entry by entry is `[0,0,0,6]`. */
  lemma MultiplyExample()
    ensures PointwiseProduct([[0, 0, 0, 2], [0, 0, 0, 3]]) == [0, 0, 0, 6]
  {
    var ps: seq<seq<Fe>> := [[0, 0, 0, 2], [0, 0, 0, 3]];
    var q := PointwiseProduct(ps);
    TwoFactorColumn(ps, 0);
    TwoFactorColumn(ps, 1);
    TwoFactorColumn(ps, 2);
    TwoFactorColumn(ps, 3);
    QuadOf(q, 0, 0, 0, 6);
  }
}
