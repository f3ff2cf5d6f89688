/**
 * `SumPolynomial` of the GKR crate: a list of product polynomials standing
 * for their sum.  The constructor checks that every factor of every product
 * has the variable count of the very first factor; evaluation adds the
 * product evaluations; binding binds every product; the element-wise
 * collapse adds the element-wise products entry by entry.
 */
module SumPoly {
  import opened Field
  import opened Hypercube
  import opened MultilinearEV
  import opened MleTheory
  import opened Wrappers
  import opened ProductPoly

  datatype SumPolynomial = SumPolynomial(productPolynomials: seq<ProductPolynomial>)

  /** Every factor of every product is non-empty. */
  predicate NonEmptyProducts(pps: seq<ProductPolynomial>)
  {
    forall j :: 0 <= j < |pps| ==> NonEmptyFactors(pps[j].polynomials)
  }

  /** Every factor of every product is a table of 2^n evaluations. */
  predicate SumTables(pps: seq<ProductPolynomial>, n: nat)
  {
    forall j :: 0 <= j < |pps| ==> Tables(pps[j].polynomials, n)
  }

  /**
   * `SumPolynomial::new`: accepted exactly when every factor of every
   * product has the variable count of the first factor of the first
   * product, rejected with "different number of variables" otherwise.
   */
  function New(productPolynomials: seq<ProductPolynomial>): (r: Result<SumPolynomial>)
    requires |productPolynomials| >= 1 && |productPolynomials[0].polynomials| >= 1
    requires NonEmptyProducts(productPolynomials)
    ensures r.Success? <==>
      forall j, k :: 0 <= j < |productPolynomials| && 0 <= k < |productPolynomials[j].polynomials| ==>
        Log2(|productPolynomials[j].polynomials[k]|) == Log2(|productPolynomials[0].polynomials[0]|)
    ensures r.Success? ==> r.value.productPolynomials == productPolynomials
    ensures r.Failure? ==> r.error == VariableCountMismatch
  {
    var n := Log2(|productPolynomials[0].polynomials[0]|);
    if forall j, k :: 0 <= j < |productPolynomials| && 0 <= k < |productPolynomials[j].polynomials| ==>
        Log2(|productPolynomials[j].polynomials[k]|) == n then
      Success(SumPolynomial(productPolynomials))
    else
      Failure(VariableCountMismatch)
  }

  /** Products whose factors are all tables of one size are accepted. */
  lemma NewOnTables(pps: seq<ProductPolynomial>, n: nat)
    requires |pps| >= 1 && |pps[0].polynomials| >= 1 && SumTables(pps, n)
    ensures NonEmptyProducts(pps) && New(pps) == Success(SumPolynomial(pps))
  {
    Log2OfPow2(n);
  }

  /** The crate's test: products of a 1-variable and of a 2-variable table are rejected. */
  lemma NewRejectsDifferentLengths()
    ensures NonEmptyProducts([ProductPolynomial([[0, 2]]), ProductPolynomial([[0, 0, 0, 3]])])
    ensures New([ProductPolynomial([[0, 2]]), ProductPolynomial([[0, 0, 0, 3]])]) == Failure(VariableCountMismatch)
  {
    var pps := [ProductPolynomial([[0, 2]]), ProductPolynomial([[0, 0, 0, 3]])];
    assert Log2(|pps[0].polynomials[0]|) == 1;
    assert Log2(|pps[1].polynomials[0]|) == 2;
  }

  /** `degree`: the factor count of the first product. */
  function Degree(sp: SumPolynomial): nat
    requires |sp.productPolynomials| >= 1
  {
    ProductPoly.Degree(sp.productPolynomials[0])
  }

  /** `number_of_variables`: that of the first factor of the first product. */
  function NumberOfVariables(sp: SumPolynomial): nat
    requires |sp.productPolynomials| >= 1 && |sp.productPolynomials[0].polynomials| >= 1
    requires |sp.productPolynomials[0].polynomials[0]| >= 1
  {
    MultilinearEV.NumberOfVariables(sp.productPolynomials[0].polynomials[0])
  }

  /** On tables of n variables, `number_of_variables` is n. */
  lemma NumberOfVariablesOfTables(sp: SumPolynomial, n: nat)
    requires |sp.productPolynomials| >= 1 && |sp.productPolynomials[0].polynomials| >= 1
    requires SumTables(sp.productPolynomials, n)
    ensures NumberOfVariables(sp) == n
  {
    assert IsTable(sp.productPolynomials[0].polynomials[0], n);
    Log2OfPow2(n);
  }

  /** The crate's tests: two products of two 2-variable factors have degree 2 and 2 variables. */
  lemma DegreeExample()
    ensures var sp := SumPolynomial([ProductPolynomial([[0, 0, 0, 2], [0, 0, 0, 3]]),
                                     ProductPolynomial([[0, 0, 0, 1], [0, 0, 0, 2]])]);
      Degree(sp) == 2 && NumberOfVariables(sp) == 2
  {
    var sp := SumPolynomial([ProductPolynomial([[0, 0, 0, 2], [0, 0, 0, 3]]),
                             ProductPolynomial([[0, 0, 0, 1], [0, 0, 0, 2]])]);
    NumberOfVariablesOfTables(sp, 2);
  }

  // ---------------------------------------------------------------------
  // Evaluation
  // ---------------------------------------------------------------------

  /** Every product can be evaluated at `values`. */
  predicate ProductsEvaluateAt(pps: seq<ProductPolynomial>, values: seq<Fe>)
  {
    forall j :: 0 <= j < |pps| ==> EvaluatesAt(pps[j].polynomials, values)
  }

  /** The product evaluations at `values`, in product order. */
  function ProductEvaluations(pps: seq<ProductPolynomial>, values: seq<Fe>): (e: seq<Fe>)
    requires ProductsEvaluateAt(pps, values)
    ensures |e| == |pps|
    ensures forall j :: 0 <= j < |pps| ==> e[j] == Product(FactorEvaluations(pps[j].polynomials, values))
  {
    seq(|pps|, j requires 0 <= j < |pps| => Product(FactorEvaluations(pps[j].polynomials, values)))
  }

  /** Tables of n variables can be evaluated at n values. */
  lemma SumTablesEvaluate(pps: seq<ProductPolynomial>, values: seq<Fe>)
    requires SumTables(pps, |values|)
    ensures ProductsEvaluateAt(pps, values)
  {
    forall j | 0 <= j < |pps|
      ensures EvaluatesAt(pps[j].polynomials, values)
    {
      TablesEvaluate(pps[j].polynomials, values);
    }
  }

  /** `evaluate`: the running sum, from zero, of the product evaluations. */
  method Evaluate(sp: SumPolynomial, values: seq<Fe>) returns (result: Fe)
    requires ProductsEvaluateAt(sp.productPolynomials, values)
    ensures result == Sum(ProductEvaluations(sp.productPolynomials, values))
  {
    var pps := sp.productPolynomials;
    result := 0;
    for j := 0 to |pps|
      invariant result == Sum(ProductEvaluations(pps[..j], values))
    {
      var e := ProductPoly.Evaluate(pps[j], values);
      assert ProductEvaluations(pps[..j + 1], values)[..j] == ProductEvaluations(pps[..j], values);
      result := Add(result, e);
    }
    assert pps[..|pps|] == pps;
  }

  /** The sum of two products' evaluations. */
  lemma TwoProductsEvaluate(pps: seq<ProductPolynomial>, values: seq<Fe>, x: Fe, y: Fe)
    requires |pps| == 2
    requires EvaluatesAt(pps[0].polynomials, values) && Product(FactorEvaluations(pps[0].polynomials, values)) == x
    requires EvaluatesAt(pps[1].polynomials, values) && Product(FactorEvaluations(pps[1].polynomials, values)) == y
    ensures ProductsEvaluateAt(pps, values) && Sum(ProductEvaluations(pps, values)) == Add(x, y)
  {
    var e := ProductEvaluations(pps, values);
    assert e == [x, y];
    SumOfPair(x, y);
  }

  /** The crate's test: (2xy)(3xy) + (xy)(2xy) tables at (1, 2) give 32. */
  lemma EvaluateExample(pps: seq<ProductPolynomial>)
    requires pps == [ProductPolynomial([[0, 0, 0, 2], [0, 0, 0, 3]]),
                     ProductPolynomial([[0, 0, 0, 1], [0, 0, 0, 2]])]
    ensures ProductsEvaluateAt(pps, [1, 2]) && Sum(ProductEvaluations(pps, [1, 2])) == 32
  {
    assert Mul(Mul(2, 2), Mul(2, 3)) == 24 && Mul(Mul(2, 1), Mul(2, 2)) == 8 && Add(24, 8) == 32 by {
      assert Mul(2, 2) == 4 && Mul(2, 3) == 6 && Mul(2, 1) == 2;
    }
    TwoCorners(pps[0].polynomials, 2, 3);
    TwoCorners(pps[1].polynomials, 1, 2);
    TwoProductsEvaluate(pps, [1, 2], 24, 8);
  }

  /** A sum of two values. */
  lemma SumOfPair(a: Fe, b: Fe)
    ensures Sum([a, b]) == Add(a, b)
  {
    assert [a, b][..1] == [a];
    SumSingleton(a);
  }

  // ---------------------------------------------------------------------
  // Binding
  // ---------------------------------------------------------------------

  /**
   * `partial_evaluate` runs without panicking: every product has a factor,
   * every factor admits the binding, and `ProductPolynomial::new` accepts
   * the bound factors (non-empty, and halving keeps their variable counts
   * equal).
   */
  predicate ProductsBindAt(pps: seq<ProductPolynomial>, v: nat)
  {
    forall j :: 0 <= j < |pps| ==>
      && |pps[j].polynomials| >= 1
      && BindsAt(pps[j].polynomials, v)
      && |pps[j].polynomials[0]| >= 2
      && forall k :: 0 <= k < |pps[j].polynomials| ==>
        |pps[j].polynomials[k]| >= 2 && Log2(|pps[j].polynomials[k]| / 2) == Log2(|pps[j].polynomials[0]| / 2)
  }

  /** Every product with variable v of every factor bound to `value`. */
  function BindProducts(pps: seq<ProductPolynomial>, v: nat, value: Fe): (qs: seq<ProductPolynomial>)
    requires forall j :: 0 <= j < |pps| ==> BindsAt(pps[j].polynomials, v)
    ensures |qs| == |pps|
    ensures forall j :: 0 <= j < |pps| ==> qs[j] == ProductPolynomial(BindFactors(pps[j].polynomials, v, value))
  {
    seq(|pps|, j requires 0 <= j < |pps| => ProductPolynomial(BindFactors(pps[j].polynomials, v, value)))
  }

  /**
   * `partial_evaluate`: binds the same variable to the same value in every
   * product, rebuilding each with `ProductPolynomial::new`.
   */
  method PartialEvaluate(sp: SumPolynomial, evaluatingVariable: nat, value: Fe) returns (evaluated: SumPolynomial)
    requires ProductsBindAt(sp.productPolynomials, evaluatingVariable)
    ensures evaluated == SumPolynomial(BindProducts(sp.productPolynomials, evaluatingVariable, value))
  {
    var pps := sp.productPolynomials;
    var evaluatedPolynomials: seq<ProductPolynomial> := [];
    for j := 0 to |pps|
      invariant evaluatedPolynomials == BindProducts(pps[..j], evaluatingVariable, value)
    {
      var evaluatedProductPoly := ProductPoly.PartialEvaluate(pps[j], evaluatingVariable, value);
      var made := ProductPoly.New(evaluatedProductPoly);
      evaluatedPolynomials := evaluatedPolynomials + [made.value];
    }
    assert pps[..|pps|] == pps;
    evaluated := SumPolynomial(evaluatedPolynomials);
  }

  /** Tables of n >= 1 variables can be bound, and leave tables of n - 1 variables. */
  lemma BindProductsOnTables(pps: seq<ProductPolynomial>, n: nat, value: Fe)
    requires SumTables(pps, n) && n >= 1 && forall j :: 0 <= j < |pps| ==> |pps[j].polynomials| >= 1
    ensures ProductsBindAt(pps, 0)
    ensures SumTables(BindProducts(pps, 0, value), n - 1)
  {
    Pow2Mono(1, n);
    forall j | 0 <= j < |pps|
      ensures BindsAt(pps[j].polynomials, 0) && Tables(BindFactors(pps[j].polynomials, 0, value), n - 1)
    {
      BindFactorsOnTables(pps[j].polynomials, n, value);
    }
  }

  /** Binding the first value and evaluating at the rest is evaluating at all the values. */
  lemma PartialEvaluateThenEvaluate(pps: seq<ProductPolynomial>, values: seq<Fe>)
    requires SumTables(pps, |values|) && |values| >= 1
    ensures ProductsEvaluateAt(pps, values)
    ensures forall j :: 0 <= j < |pps| ==> BindsAt(pps[j].polynomials, 0)
    ensures ProductsEvaluateAt(BindProducts(pps, 0, values[0]), values[1..])
    ensures Sum(ProductEvaluations(BindProducts(pps, 0, values[0]), values[1..]))
         == Sum(ProductEvaluations(pps, values))
  {
    SumTablesEvaluate(pps, values);
    forall j | 0 <= j < |pps|
      ensures BindsAt(pps[j].polynomials, 0)
      ensures EvaluatesAt(BindFactors(pps[j].polynomials, 0, values[0]), values[1..])
      ensures Product(FactorEvaluations(BindFactors(pps[j].polynomials, 0, values[0]), values[1..]))
           == Product(FactorEvaluations(pps[j].polynomials, values))
    {
      ProductPoly.PartialEvaluateThenEvaluate(pps[j].polynomials, values);
    }
    var qs := BindProducts(pps, 0, values[0]);
    assert ProductEvaluations(qs, values[1..]) == ProductEvaluations(pps, values);
  }

  /** The crate's test: binding variable 0 at 2 gives `[0,4]`,`[0,6]` and `[0,2]`,`[0,4]`. */
  lemma PartialEvaluateExample(pps: seq<ProductPolynomial>)
    requires pps == [ProductPolynomial([[0, 0, 0, 2], [0, 0, 0, 3]]),
                     ProductPolynomial([[0, 0, 0, 1], [0, 0, 0, 2]])]
    ensures ProductsBindAt(pps, 0)
    ensures BindProducts(pps, 0, 2) == [ProductPolynomial([[0, 4], [0, 6]]), ProductPolynomial([[0, 2], [0, 4]])]
  {
    assert Mul(2, 2) == 4 && Mul(2, 3) == 6 && Mul(2, 1) == 2;
    assert SumTables(pps, 2);
    BindProductsOnTables(pps, 2, 2);
    BindCorners(pps[0].polynomials, 2, 3);
    BindCorners(pps[1].polynomials, 1, 2);
    var qs := BindProducts(pps, 0, 2);
    assert qs == [qs[0], qs[1]];
  }

  // ---------------------------------------------------------------------
  // Element-wise sum
  // ---------------------------------------------------------------------

  /**
   * `add_polynomials_element_wise` runs without panicking: more than one
   * product (its assertion), each product collapsible (more than one
   * factor, none longer than its first), and no product's collapse longer
   * than the first product's.
   */
  predicate Collapsible(pps: seq<ProductPolynomial>)
  {
    && |pps| > 1
    && (forall j :: 0 <= j < |pps| ==>
         && |pps[j].polynomials| > 1
         && forall k :: 0 <= k < |pps[j].polynomials| ==> |pps[j].polynomials[k]| <= |pps[j].polynomials[0]|)
    && forall j :: 0 <= j < |pps| ==> |pps[j].polynomials[0]| <= |pps[0].polynomials[0]|
  }

  /** Entry i of a collapsed product, or zero where it does not reach i. */
  function TermEntry(q: seq<Fe>, i: nat): Fe
  {
    if i < |q| then q[i] else 0
  }

  /** Entry i of the element-wise product of every product. */
  function ProductColumn(pps: seq<ProductPolynomial>, i: nat): (c: seq<Fe>)
    requires forall j :: 0 <= j < |pps| ==> |pps[j].polynomials| >= 1
    ensures |c| == |pps| && forall j :: 0 <= j < |pps| ==> c[j] == TermEntry(PointwiseProduct(pps[j].polynomials), i)
  {
    seq(|pps|, j requires 0 <= j < |pps| => TermEntry(PointwiseProduct(pps[j].polynomials), i))
  }

  /** The entry-by-entry sum of the element-wise products, as long as the first. */
  function PointwiseSum(pps: seq<ProductPolynomial>): (q: seq<Fe>)
    requires |pps| >= 1 && forall j :: 0 <= j < |pps| ==> |pps[j].polynomials| >= 1
    ensures |q| == |pps[0].polynomials[0]| && forall i :: 0 <= i < |q| ==> q[i] == Sum(ProductColumn(pps, i))
  {
    seq(|pps[0].polynomials[0]|, i requires 0 <= i < |pps[0].polynomials[0]| => Sum(ProductColumn(pps, i)))
  }

  /** One more product adds its entry to every column sum. */
  lemma ProductColumnSnoc(pps: seq<ProductPolynomial>, j: nat, i: nat)
    requires j < |pps| && forall j' :: 0 <= j' < |pps| ==> |pps[j'].polynomials| >= 1
    ensures Sum(ProductColumn(pps[..j + 1], i))
         == Add(Sum(ProductColumn(pps[..j], i)), TermEntry(PointwiseProduct(pps[j].polynomials), i))
  {
    assert ProductColumn(pps[..j + 1], i)[..j] == ProductColumn(pps[..j], i);
  }

  /** Entries lo..hi of r are the column sums over the first m products. */
  ghost predicate ColumnSums(r: seq<Fe>, pps: seq<ProductPolynomial>, m: nat, lo: nat, hi: nat)
    requires m <= |pps| && forall j :: 0 <= j < |pps| ==> |pps[j].polynomials| >= 1
  {
    forall i :: lo <= i < hi && i < |r| ==> r[i] == Sum(ProductColumn(pps[..m], i))
  }

  /** Adding product j's entry at i moves entry i from the j-product sums to the (j+1)-product sums. */
  lemma ColumnSumStep(r: seq<Fe>, pps: seq<ProductPolynomial>, j: nat, i: nat, v: Fe)
    requires j < |pps| && i < |r| && forall j' :: 0 <= j' < |pps| ==> |pps[j'].polynomials| >= 1
    requires ColumnSums(r, pps, j + 1, 0, i) && ColumnSums(r, pps, j, i, |r|)
    requires v == Add(r[i], TermEntry(PointwiseProduct(pps[j].polynomials), i))
    ensures ColumnSums(r[i := v], pps, j + 1, 0, i + 1) && ColumnSums(r[i := v], pps, j, i + 1, |r|)
  {
    ProductColumnSnoc(pps, j, i);
  }

  /** Where product j does not reach, the j-product sums are already the (j+1)-product sums. */
  lemma ColumnSumsBeyond(r: seq<Fe>, pps: seq<ProductPolynomial>, j: nat, len: nat)
    requires j < |pps| && forall j' :: 0 <= j' < |pps| ==> |pps[j'].polynomials| >= 1
    requires len == |PointwiseProduct(pps[j].polynomials)|
    requires ColumnSums(r, pps, j + 1, 0, len) && ColumnSums(r, pps, j, len, |r|)
    ensures ColumnSums(r, pps, j + 1, 0, |r|)
  {
    forall i | len <= i < |r|
      ensures r[i] == Sum(ProductColumn(pps[..j + 1], i))
    {
      ProductColumnSnoc(pps, j, i);
      AddZero(Sum(ProductColumn(pps[..j], i)));
    }
  }

  /**
   * `add_polynomials_element_wise`: copies the first product's element-wise
   * product and adds each later one into it entry by entry.
   */
  method AddPolynomialsElementWise(sp: SumPolynomial) returns (result: seq<Fe>)
    requires Collapsible(sp.productPolynomials)
    ensures result == PointwiseSum(sp.productPolynomials)
  {
    var pps := sp.productPolynomials;
    var firstProduct := MultiplyPolynomialsElementWise(pps[0]);
    var resultantValues := new Fe[|firstProduct|](i requires 0 <= i < |firstProduct| => firstProduct[i]);
    forall i | 0 <= i < resultantValues.Length
      ensures resultantValues[i] == Sum(ProductColumn(pps[..1], i))
    {
      ProductColumnSnoc(pps, 0, i);
      AddZero(firstProduct[i]);
    }
    for j := 1 to |pps|
      invariant ColumnSums(resultantValues[..], pps, j, 0, resultantValues.Length)
    {
      var multipliedPoly := MultiplyPolynomialsElementWise(pps[j]);
      for i := 0 to |multipliedPoly|
        invariant ColumnSums(resultantValues[..], pps, j + 1, 0, i)
        invariant ColumnSums(resultantValues[..], pps, j, i, resultantValues.Length)
      {
        ColumnSumStep(resultantValues[..], pps, j, i, Add(resultantValues[i], multipliedPoly[i]));
        resultantValues[i] := Add(resultantValues[i], multipliedPoly[i]);
      }
      ColumnSumsBeyond(resultantValues[..], pps, j, |multipliedPoly|);
    }
    assert pps[..|pps|] == pps;
    result := resultantValues[..];
  }

  /** Tables of one size are collapsible when there are several products of several factors. */
  lemma TablesCollapsible(pps: seq<ProductPolynomial>, n: nat)
    requires SumTables(pps, n) && |pps| > 1 && forall j :: 0 <= j < |pps| ==> |pps[j].polynomials| > 1
    ensures Collapsible(pps)
  {
  }

  /**
   * At a point of the boolean hypercube the element-wise sum evaluates to
   * `evaluate`: the collapse describes the same polynomial there.
   */
  lemma PointwiseSumAtBooleanPoint(pps: seq<ProductPolynomial>, bits: seq<Fe>)
    requires |pps| >= 1 && SumTables(pps, |bits|) && forall j :: 0 <= j < |pps| ==> |pps[j].polynomials| >= 1
    requires forall i :: 0 <= i < |bits| ==> bits[i] == 0 || bits[i] == 1
    ensures IsTable(PointwiseSum(pps), |bits|) && EvalOk(PointwiseSum(pps), bits)
    ensures ProductsEvaluateAt(pps, bits)
    ensures Eval(PointwiseSum(pps), bits) == Sum(ProductEvaluations(pps, bits))
  {
    var q := PointwiseSum(pps);
    assert IsTable(pps[0].polynomials[0], |bits|);
    EvalAtBooleanPoint(q, bits);
    SumTablesEvaluate(pps, bits);
    var idx := BitsIndex(bits);
    forall j | 0 <= j < |pps|
      ensures ProductColumn(pps, idx)[j] == ProductEvaluations(pps, bits)[j]
    {
      PointwiseProductAtBooleanPoint(pps[j].polynomials, bits);
      EvalAtBooleanPoint(PointwiseProduct(pps[j].polynomials), bits);
    }
    assert ProductColumn(pps, idx) == ProductEvaluations(pps, bits);
  }

  /** The crate's test: (2x)(3y) + (1x)(2y) collapses to `[0,0,0,8]`. */
  lemma AddExample()
    ensures var pps := [ProductPolynomial([[0, 0, 0, 2], [0, 0, 0, 3]]),
                        ProductPolynomial([[0, 0, 0, 1], [0, 0, 0, 2]])];
      PointwiseSum(pps) == [0, 0, 0, 8]
  {
    var a, b: seq<seq<Fe>> := [[0, 0, 0, 2], [0, 0, 0, 3]], [[0, 0, 0, 1], [0, 0, 0, 2]];
    var pps := [ProductPolynomial(a), ProductPolynomial(b)];
    var pa, pb := PointwiseProduct(a), PointwiseProduct(b);
    MultiplyExample();
    forall i | 0 <= i < 4
      ensures pb[i] == Mul(b[0][i], b[1][i])
    {
      TwoFactorColumn(b, i);
    }
    QuadOf(pb, 0, 0, 0, 2);
    var q := PointwiseSum(pps);
    forall i | 0 <= i < 4
      ensures q[i] == Add(pa[i], pb[i])
    {
      assert ProductColumn(pps, i) == [pa[i], pb[i]];
      SumOfPair(pa[i], pb[i]);
    }
    QuadOf(q, 0, 0, 0, 8);
  }
}
