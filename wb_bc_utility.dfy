/**
 * The helpers the GKR prover and verifier share: the polynomial
 * f(b, c) = add_i(b, c)·(W(b) + W(c)) + mul_i(b, c)·(W(b)·W(c)) that each
 * layer's sumcheck runs on, the folding of two wiring claims into one with
 * α and β, and the verifier's closed form of the last sumcheck claim.
 */
module WbBcUtility {
  import opened Field
  import opened Hypercube
  import opened MultilinearEV
  import opened MleTheory
  import opened Gates
  import opened Circuits
  import ProductPoly
  import SumPoly

  /** The challenges of the current layer's sumcheck and of the one before it. */
  datatype SumcheckChallenges = SumcheckChallenges(current: seq<Fe>, previous: seq<Fe>)

  /** The claimed W(r_b), W(r_c) and the folding constants α, β. */
  datatype Evaluations = Evaluations(wb: Fe, wc: Fe, alpha: Fe, beta: Fe)

  /** add·(wb + wc) + mul·(wb·wc): the value of f at a point, from its parts. */
  function WiringClaim(addR: Fe, mulR: Fe, wb: Fe, wc: Fe): Fe
  {
    Add(Mul(addR, Add(wb, wc)), Mul(mulR, Mul(wb, wc)))
  }

  // ---------------------------------------------------------------------
  // Evaluating tensors
  // ---------------------------------------------------------------------

  /** An index below h · m is x · m + y with x < h and y < m. */
  lemma RowIndex(j: nat, m: nat, h: nat) returns (x: nat, y: nat)
    requires m >= 1 && j < h * m
    ensures x < h && y < m && j == x * m + y
  {
    x := j / m;
    y := j % m;
    if x >= h {
      MulMonoLeft(x, h, m);
    }
  }

  /** The pair formula commutes with adding or multiplying by a fixed value. */
  lemma LerpCombine(a1: Fe, a2: Fe, k: Fe, r: Fe, mul: bool)
    ensures Lerp(if mul then Mul(a1, k) else Add(a1, k), if mul then Mul(a2, k) else Add(a2, k), r)
         == if mul then Mul(Lerp(a1, a2, r), k) else Add(Lerp(a1, a2, r), k)
  {
    if mul {
      MulComm(a1, k);
      MulComm(a2, k);
      MulComm(Lerp(a1, a2, r), k);
      LerpScale(k, a1, a2, r);
    } else {
      AddComm(a1, k);
      AddComm(a2, k);
      AddComm(Lerp(a1, a2, r), k);
      LerpShift(k, a1, a2, r);
    }
  }

  /** The tensor of tables of kb and kc variables is a table of kb + kc variables. */
  lemma TensorTable(b: seq<Fe>, c: seq<Fe>, kb: nat, kc: nat, mul: bool)
    requires IsTable(b, kb) && IsTable(c, kc)
    ensures IsTable(Tensor(b, c, mul), kb + kc)
  {
    Pow2Add(kb, kc);
  }

  /** The row and column of an index below h · m, and of the same index in the second half. */
  lemma RowArithmetic(j: nat, m: nat, h: nat) returns (x: nat, y: nat)
    requires m >= 1 && j < h * m
    ensures x < h && y < m && j == x * m + y
    ensures j + h * m == (x + h) * m + y
  {
    x, y := RowIndex(j, m, h);
  }

  /** `TensorEntry` at an index given by name. */
  lemma TensorEntryAt(b: seq<Fe>, c: seq<Fe>, mul: bool, x: nat, y: nat, j: nat)
    requires x < |b| && y < |c| && j == x * |c| + y
    ensures j < |Tensor(b, c, mul)|
    ensures Tensor(b, c, mul)[j] == if mul then Mul(b[x], c[y]) else Add(b[x], c[y])
  {
    TensorEntry(b, c, mul, x, y);
  }

  /** Binding variable 0 of p pairs entry k with entry k + h, for the h entries of the result. */
  predicate PairsHalf(p: seq<Fe>, h: nat, r: Fe)
  {
    && BindOk(p, 0) && |p| == 2 * h && |Bind(p, 0, r)| == h
    && forall k :: 0 <= k < h ==> Bind(p, 0, r)[k] == Lerp(p[k], p[k + h], r)
  }

  lemma TableHalves(p: seq<Fe>, n: nat, r: Fe)
    requires IsTable(p, n) && n >= 1
    ensures PairsHalf(p, Pow2(n - 1), r)
  {
    BindFirst(p, n, r);
  }

  /** One entry of `TensorBindFirst`. */
  lemma TensorBindFirstEntry(b: seq<Fe>, c: seq<Fe>, mul: bool, r: Fe, hb: nat, j: nat)
    requires |c| >= 1 && j < hb * |c| && PairsHalf(b, hb, r) && PairsHalf(Tensor(b, c, mul), hb * |c|, r)
    ensures j < |Bind(Tensor(b, c, mul), 0, r)| && j < |Tensor(Bind(b, 0, r), c, mul)|
    ensures Bind(Tensor(b, c, mul), 0, r)[j] == Tensor(Bind(b, 0, r), c, mul)[j]
  {
    var t := Tensor(b, c, mul);
    var x, y := RowArithmetic(j, |c|, hb);
    var j2 := j + hb * |c|;
    assert Bind(t, 0, r)[j] == Lerp(t[j], t[j2], r);
    TensorEntryAt(b, c, mul, x, y, j);
    TensorEntryAt(b, c, mul, x + hb, y, j2);
    TensorEntryAt(Bind(b, 0, r), c, mul, x, y, j);
    LerpCombine(b[x], b[x + hb], c[y], r, mul);
  }

  /** Binding the first variable of a tensor binds the first variable of its left table. */
  lemma TensorBindFirst(b: seq<Fe>, c: seq<Fe>, kb: nat, kc: nat, mul: bool, r: Fe)
    requires IsTable(b, kb) && IsTable(c, kc) && kb >= 1
    ensures IsTable(Tensor(b, c, mul), kb + kc) && BindOk(Tensor(b, c, mul), 0) && BindOk(b, 0)
    ensures IsTable(Bind(b, 0, r), kb - 1)
    ensures Bind(Tensor(b, c, mul), 0, r) == Tensor(Bind(b, 0, r), c, mul)
  {
    var t := Tensor(b, c, mul);
    var hb := Pow2(kb - 1);
    TensorTable(b, c, kb, kc, mul);
    TableHalves(b, kb, r);
    TableHalves(t, kb + kc, r);
    Pow2Add(kb - 1, kc);
    assert kb - 1 + kc == kb + kc - 1;
    assert Pow2(kb + kc - 1) == hb * |c|;
    var lhs, rhs := Bind(t, 0, r), Tensor(Bind(b, 0, r), c, mul);
    forall j | 0 <= j < |rhs|
      ensures j < |lhs| && lhs[j] == rhs[j]
    {
      TensorBindFirstEntry(b, c, mul, r, hb, j);
    }
    assert |lhs| == |rhs|;
  }

  /** Evaluating a table shifted by k gives k plus the evaluation. */
  lemma {:induction false} EvalShift(k: Fe, c: seq<Fe>, rc: seq<Fe>)
    requires IsTable(c, |rc|)
    ensures EvalOk(c, rc) && EvalOk(TensorRow(k, c, false), rc)
    ensures Eval(TensorRow(k, c, false), rc) == Add(k, Eval(c, rc))
    decreases |rc|
  {
    var row := TensorRow(k, c, false);
    TableEvalOk(c, |rc|, rc);
    TableEvalOk(row, |rc|, rc);
    if |rc| > 0 {
      ShiftBindFirst(k, c, |rc|, rc[0]);
      EvalShift(k, Bind(c, 0, rc[0]), rc[1..]);
    }
  }

  /** Binding the first variable of a shifted row gives the shifted row of the binding. */
  lemma ShiftBindFirst(k: Fe, c: seq<Fe>, n: nat, r: Fe)
    requires IsTable(c, n) && n >= 1
    ensures BindOk(c, 0) && BindOk(TensorRow(k, c, false), 0) && IsTable(Bind(c, 0, r), n - 1)
    ensures Bind(TensorRow(k, c, false), 0, r) == TensorRow(k, Bind(c, 0, r), false)
  {
    var row := TensorRow(k, c, false);
    var h := Pow2(n - 1);
    BindFirst(c, n, r);
    BindOnTable(row, n, 0);
    forall i | 0 <= i < h
      ensures Bind(row, 0, r)[i] == TensorRow(k, Bind(c, 0, r), false)[i]
    {
      BindFirstEntry(c, n, r, i);
      BindFirstEntry(row, n, r, i);
      LerpShift(k, c[i], c[i + h], r);
    }
  }

  /** Evaluating a table scaled by k gives k times the evaluation. */
  lemma EvalRowScale(k: Fe, c: seq<Fe>, rc: seq<Fe>)
    requires IsTable(c, |rc|)
    ensures EvalOk(c, rc) && EvalOk(TensorRow(k, c, true), rc)
    ensures Eval(TensorRow(k, c, true), rc) == Mul(k, Eval(c, rc))
  {
    forall i | 0 <= i < |c|
      ensures TensorRow(k, c, true)[i] == ScalarMul(c, k)[i]
    {
      MulComm(k, c[i]);
    }
    assert TensorRow(k, c, true) == ScalarMul(c, k);
    EvalScale(c, k, rc);
    TableEvalOk(c, |rc|, rc);
    MulComm(Eval(c, rc), k);
  }

  /** The tensor of a one-entry table with c is a single scaled or shifted row. */
  lemma EvalTensorBase(b: seq<Fe>, c: seq<Fe>, mul: bool, rc: seq<Fe>)
    requires IsTable(b, 0) && IsTable(c, |rc|)
    ensures EvalOk(b, []) && EvalOk(c, rc) && EvalOk(Tensor(b, c, mul), rc)
    ensures Eval(Tensor(b, c, mul), rc)
         == if mul then Mul(Eval(b, []), Eval(c, rc)) else Add(Eval(b, []), Eval(c, rc))
  {
    TableEvalOk(b, 0, []);
    TableEvalOk(c, |rc|, rc);
    assert b[..0] == [];
    assert Tensor(b, c, mul) == TensorRow(b[0], c, mul);
    if mul {
      EvalRowScale(b[0], c, rc);
    } else {
      EvalShift(b[0], c, rc);
    }
  }

  /** One step of EvalTensor: binding the first variable of b commutes with the tensor. */
  lemma EvalTensorStep(b: seq<Fe>, c: seq<Fe>, mul: bool, rb: seq<Fe>, rc: seq<Fe>)
    requires |rb| >= 1 && IsTable(b, |rb|) && IsTable(c, |rc|)
    requires BindOk(b, 0) && EvalOk(Bind(b, 0, rb[0]), rb[1..]) && EvalOk(c, rc)
    requires EvalOk(Tensor(Bind(b, 0, rb[0]), c, mul), rb[1..] + rc)
    requires Eval(Tensor(Bind(b, 0, rb[0]), c, mul), rb[1..] + rc)
          == if mul then Mul(Eval(Bind(b, 0, rb[0]), rb[1..]), Eval(c, rc))
             else Add(Eval(Bind(b, 0, rb[0]), rb[1..]), Eval(c, rc))
    ensures EvalOk(b, rb) && EvalOk(Tensor(b, c, mul), rb + rc)
    ensures Eval(Tensor(b, c, mul), rb + rc)
         == if mul then Mul(Eval(b, rb), Eval(c, rc)) else Add(Eval(b, rb), Eval(c, rc))
  {
    var t := Tensor(b, c, mul);
    TableEvalOk(b, |rb|, rb);
    TensorTable(b, c, |rb|, |rc|, mul);
    TableEvalOk(t, |rb| + |rc|, rb + rc);
    TensorBindFirst(b, c, |rb|, |rc|, mul, rb[0]);
    ConcatFirst(rb, rc);
    EvalFirst(t, rb + rc);
    EvalFirst(b, rb);
  }

  /** The head and tail of a concatenation whose left part is not empty. */
  lemma ConcatFirst(u: seq<Fe>, v: seq<Fe>)
    requires |u| >= 1
    ensures (u + v)[0] == u[0] && (u + v)[1..] == u[1..] + v
  {
    assert (u + v)[1..] == u[1..] + v;
  }

  /**
   * The tensor of two tables is the multilinear polynomial
   * b(x) + c(y) (or b(x)·c(y)): evaluating it at rb followed by rc
   * combines the evaluation of b at rb with that of c at rc.
   */
  lemma {:induction false} EvalTensor(b: seq<Fe>, c: seq<Fe>, mul: bool, rb: seq<Fe>, rc: seq<Fe>)
    requires IsTable(b, |rb|) && IsTable(c, |rc|)
    ensures EvalOk(b, rb) && EvalOk(c, rc) && EvalOk(Tensor(b, c, mul), rb + rc)
    ensures Eval(Tensor(b, c, mul), rb + rc)
         == if mul then Mul(Eval(b, rb), Eval(c, rc)) else Add(Eval(b, rb), Eval(c, rc))
    decreases |rb|
  {
    if |rb| == 0 {
      assert rb + rc == rc && rb == [];
      EvalTensorBase(b, c, mul, rc);
    } else {
      BindFirst(b, |rb|, rb[0]);
      EvalTensor(Bind(b, 0, rb[0]), c, mul, rb[1..], rc);
      EvalTensorStep(b, c, mul, rb, rc);
    }
  }

  // ---------------------------------------------------------------------
  // f(b, c)
  // ---------------------------------------------------------------------

  /**
   * The shape `compute_fbc_polynomial` needs for `ProductPolynomial::new`
   * and `SumPolynomial::new` to accept their factors: W_b and W_c are
   * tables of k variables and the wiring tables have 2k.
   */
  predicate FbcInputs(addIBc: seq<Fe>, mulIBc: seq<Fe>, wB: seq<Fe>, wC: seq<Fe>, k: nat)
  {
    IsTable(wB, k) && IsTable(wC, k) && IsTable(addIBc, 2 * k) && IsTable(mulIBc, 2 * k)
  }

  /** The two products of f: add_i(b, c)·(W(b) + W(c)) and mul_i(b, c)·(W(b)·W(c)). */
  function FbcProducts(addIBc: seq<Fe>, mulIBc: seq<Fe>, wB: seq<Fe>, wC: seq<Fe>): seq<ProductPoly.ProductPolynomial>
  {
    [ProductPoly.ProductPolynomial([addIBc, Tensor(wB, wC, false)]),
     ProductPoly.ProductPolynomial([mulIBc, Tensor(wB, wC, true)])]
  }

  /** Every factor of f is a table of 2k variables. */
  lemma FbcTables(addIBc: seq<Fe>, mulIBc: seq<Fe>, wB: seq<Fe>, wC: seq<Fe>, k: nat)
    requires FbcInputs(addIBc, mulIBc, wB, wC, k)
    ensures SumPoly.SumTables(FbcProducts(addIBc, mulIBc, wB, wC), 2 * k)
  {
    var pps := FbcProducts(addIBc, mulIBc, wB, wC);
    TensorTable(wB, wC, k, k, false);
    TensorTable(wB, wC, k, k, true);
    assert k + k == 2 * k;
    assert ProductPoly.Tables(pps[0].polynomials, 2 * k);
    assert ProductPoly.Tables(pps[1].polynomials, 2 * k);
  }

  /**
   * `compute_fbc_polynomial`: the sum polynomial of the two products of f,
   * each of degree two.
   */
  method ComputeFbcPolynomial(addIBc: seq<Fe>, mulIBc: seq<Fe>, wBPolynomial: seq<Fe>, wCPolynomial: seq<Fe>)
    returns (fbc: SumPoly.SumPolynomial)
    requires |wBPolynomial| >= 1 && FbcInputs(addIBc, mulIBc, wBPolynomial, wCPolynomial, Log2(|wBPolynomial|))
    ensures fbc.productPolynomials == FbcProducts(addIBc, mulIBc, wBPolynomial, wCPolynomial)
    ensures SumPoly.SumTables(fbc.productPolynomials, 2 * Log2(|wBPolynomial|))
    ensures SumPoly.Degree(fbc) == 2
  {
    var addWbc := PolynomialTensorAdd(wBPolynomial, wCPolynomial);
    var mulWbc := PolynomialTensorMul(wBPolynomial, wCPolynomial);
    var k := Log2(|wBPolynomial|);
    var n := 2 * k;
    FbcTables(addIBc, mulIBc, wBPolynomial, wCPolynomial, k);
    ghost var pps := FbcProducts(addIBc, mulIBc, wBPolynomial, wCPolynomial);
    assert ProductPoly.Tables(pps[0].polynomials, n) && ProductPoly.Tables(pps[1].polynomials, n);
    ProductPoly.NewOnTables([addIBc, addWbc], n);
    ProductPoly.NewOnTables([mulIBc, mulWbc], n);
    var addITerm := ProductPoly.New([addIBc, addWbc]).value;
    var mulITerm := ProductPoly.New([mulIBc, mulWbc]).value;
    SumPoly.NewOnTables([addITerm, mulITerm], n);
    fbc := SumPoly.New([addITerm, mulITerm]).value;
  }

  /** The two factor evaluations of a product of two tables, multiplied. */
  lemma ProductOfTwo(p: seq<Fe>, q: seq<Fe>, values: seq<Fe>)
    requires EvalOk(p, values) && EvalOk(q, values)
    ensures ProductPoly.EvaluatesAt([p, q], values)
    ensures Product(ProductPoly.FactorEvaluations([p, q], values)) == Mul(Eval(p, values), Eval(q, values))
  {
    var e := ProductPoly.FactorEvaluations([p, q], values);
    assert e == [Eval(p, values), Eval(q, values)];
    ProductPoly.ProductOfPair(e[0], e[1]);
  }

  /**
   * f evaluated at r = (r_b, r_c) is the wiring claim formed from
   * add_i(r), mul_i(r), W_b(r_b) and W_c(r_c): the value the verifier
   * computes for the last claim of the layer's sumcheck.
   */
  lemma FbcEvaluation(addIBc: seq<Fe>, mulIBc: seq<Fe>, wB: seq<Fe>, wC: seq<Fe>, k: nat, challenges: seq<Fe>)
    requires FbcInputs(addIBc, mulIBc, wB, wC, k) && |challenges| == 2 * k
    ensures SumPoly.ProductsEvaluateAt(FbcProducts(addIBc, mulIBc, wB, wC), challenges)
    ensures EvalOk(addIBc, challenges) && EvalOk(mulIBc, challenges)
    ensures EvalOk(wB, challenges[..k]) && EvalOk(wC, challenges[k..])
    ensures Sum(SumPoly.ProductEvaluations(FbcProducts(addIBc, mulIBc, wB, wC), challenges))
         == WiringClaim(Eval(addIBc, challenges), Eval(mulIBc, challenges), Eval(wB, challenges[..k]), Eval(wC, challenges[k..]))
  {
    var pps := FbcProducts(addIBc, mulIBc, wB, wC);
    FbcTables(addIBc, mulIBc, wB, wC, k);
    SumPoly.SumTablesEvaluate(pps, challenges);
    TableEvalOk(addIBc, 2 * k, challenges);
    TableEvalOk(mulIBc, 2 * k, challenges);
    var rb, rc := challenges[..k], challenges[k..];
    assert rb + rc == challenges;
    EvalTensor(wB, wC, false, rb, rc);
    EvalTensor(wB, wC, true, rb, rc);
    ProductOfTwo(addIBc, Tensor(wB, wC, false), challenges);
    ProductOfTwo(mulIBc, Tensor(wB, wC, true), challenges);
    var x := Product(ProductPoly.FactorEvaluations(pps[0].polynomials, challenges));
    var y := Product(ProductPoly.FactorEvaluations(pps[1].polynomials, challenges));
    assert SumPoly.ProductEvaluations(pps, challenges) == [x, y];
    SumPoly.SumOfPair(x, y);
  }

  // ---------------------------------------------------------------------
  // Folding two wiring claims into one
  // ---------------------------------------------------------------------

  /** Evaluating after binding the first values is evaluating at all of them. */
  lemma {:induction false} EvalBindAll(p: seq<Fe>, rb: seq<Fe>, vs: seq<Fe>)
    requires IsTable(p, |rb| + |vs|)
    ensures BindAllOk(p, rb) && IsTable(BindAll(p, rb), |vs|)
    ensures EvalOk(BindAll(p, rb), vs) && EvalOk(p, rb + vs)
    ensures Eval(BindAll(p, rb), vs) == Eval(p, rb + vs)
    decreases |rb|
  {
    TableEvalOk(p, |rb| + |vs|, rb);
    TableEvalOk(p, |rb| + |vs|, rb + vs);
    TableEvalOk(BindAll(p, rb), |vs|, vs);
    if |rb| == 0 {
      assert rb + vs == vs;
    } else {
      BindFirst(p, |rb| + |vs|, rb[0]);
      EvalBindAll(Bind(p, 0, rb[0]), rb[1..], vs);
      ConcatFirst(rb, vs);
      EvalFirst(p, rb + vs);
    }
  }

  /**
   * What `compute_new_add_i_mul_i` needs: at least one value to bind
   * first (`rb_values[0]`, `rc_values[0]`), tables of one size, and as many
   * values for b as for c, so that `add_polynomials` adds tables of one size.
   */
  predicate FoldInputs(addIAbc: seq<Fe>, mulIAbc: seq<Fe>, rbValues: seq<Fe>, rcValues: seq<Fe>, n: nat)
  {
    1 <= |rbValues| == |rcValues| <= n && IsTable(addIAbc, n) && IsTable(mulIAbc, n)
  }

  /** α·p(rb, ·) + β·p(rc, ·): one table from the two bindings of the output variables of p. */
  function Folded(p: seq<Fe>, n: nat, alpha: Fe, beta: Fe, rbValues: seq<Fe>, rcValues: seq<Fe>): (q: seq<Fe>)
    requires IsTable(p, n) && |rbValues| == |rcValues| <= n
    ensures IsTable(q, n - |rbValues|)
  {
    TableEvalOk(p, n, rbValues);
    TableEvalOk(p, n, rcValues);
    AddPolynomials(ScalarMul(BindAll(p, rbValues), alpha), ScalarMul(BindAll(p, rcValues), beta))
  }

  /**
   * The folded table is the multilinear polynomial
   * α·p(rb, x) + β·p(rc, x): at any point it evaluates to α times the
   * value at (rb, x) plus β times the value at (rc, x).
   */
  lemma FoldedEvaluation(p: seq<Fe>, n: nat, alpha: Fe, beta: Fe, rbValues: seq<Fe>, rcValues: seq<Fe>, vs: seq<Fe>)
    requires IsTable(p, n) && |rbValues| == |rcValues| && |rbValues| + |vs| == n
    ensures EvalOk(Folded(p, n, alpha, beta, rbValues, rcValues), vs)
    ensures EvalOk(p, rbValues + vs) && EvalOk(p, rcValues + vs)
    ensures Eval(Folded(p, n, alpha, beta, rbValues, rcValues), vs)
         == Add(Mul(Eval(p, rbValues + vs), alpha), Mul(Eval(p, rcValues + vs), beta))
  {
    EvalBindAll(p, rbValues, vs);
    EvalBindAll(p, rcValues, vs);
    var b, c := BindAll(p, rbValues), BindAll(p, rcValues);
    EvalScale(b, alpha, vs);
    EvalScale(c, beta, vs);
    EvalAdd(ScalarMul(b, alpha), ScalarMul(c, beta), vs);
  }

  /** Binding variable 0 to each value of `values` in turn, the first one before the loop. */
  method BindRest(p: seq<Fe>, ghost n: nat, values: seq<Fe>) returns (q: seq<Fe>)
    requires IsTable(p, n) && 1 <= |values| <= n
    ensures BindAllOk(p, values) && q == BindAll(p, values)
  {
    TableEvalOk(p, n, values);
    BindAllSnoc(p, values, 0);
    assert values[..0] == [];
    q := PartialEvaluate(p, 0, values[0]);
    for i := 1 to |values|
      invariant BindAllOk(p, values[..i]) && q == BindAll(p, values[..i])
    {
      BindAllSnoc(p, values, i);
      q := PartialEvaluate(q, 0, values[i]);
    }
    assert values[..|values|] == values;
  }

  /**
   * `compute_new_add_i_mul_i`: binds the output variables of add_i and
   * mul_i to rb and, separately, to rc, and combines the two bindings
   * with α and β.
   */
  method ComputeNewAddIMulI(alpha: Fe, beta: Fe, addIAbc: seq<Fe>, mulIAbc: seq<Fe>, rbValues: seq<Fe>, rcValues: seq<Fe>,
                            ghost n: nat)
    returns (newAddI: seq<Fe>, newMulI: seq<Fe>)
    requires FoldInputs(addIAbc, mulIAbc, rbValues, rcValues, n)
    ensures newAddI == Folded(addIAbc, n, alpha, beta, rbValues, rcValues)
    ensures newMulI == Folded(mulIAbc, n, alpha, beta, rbValues, rcValues)
  {
    var addRbBc := BindRest(addIAbc, n, rbValues);
    var addRcBc := BindRest(addIAbc, n, rcValues);
    var mulRbBc := BindRest(mulIAbc, n, rbValues);
    var mulRcBc := BindRest(mulIAbc, n, rcValues);
    TableEvalOk(addIAbc, n, rbValues);
    TableEvalOk(addIAbc, n, rcValues);
    TableEvalOk(mulIAbc, n, rbValues);
    TableEvalOk(mulIAbc, n, rcValues);
    newAddI := AddPolynomials(ScalarMul(addRbBc, alpha), ScalarMul(addRcBc, beta));
    newMulI := AddPolynomials(ScalarMul(mulRbBc, alpha), ScalarMul(mulRcBc, beta));
  }

  // ---------------------------------------------------------------------
  // The verifier's closed form of the last sumcheck claim
  // ---------------------------------------------------------------------

  /**
   * `evaluate_wb_wc`: W_b at the first half of the sumcheck challenges and
   * W_c at the second half.
   */
  method EvaluateWbWc(wbPoly: seq<Fe>, wcPoly: seq<Fe>, sumcheckChallenges: seq<Fe>) returns (wb: Fe, wc: Fe)
    requires EvalOk(wbPoly, sumcheckChallenges[..|sumcheckChallenges| / 2])
    requires EvalOk(wcPoly, sumcheckChallenges[|sumcheckChallenges| / 2..])
    ensures wb == Eval(wbPoly, sumcheckChallenges[..|sumcheckChallenges| / 2])
    ensures wc == Eval(wcPoly, sumcheckChallenges[|sumcheckChallenges| / 2..])
  {
    var middle := |sumcheckChallenges| / 2;
    var rbValues, rcValues := sumcheckChallenges[..middle], sumcheckChallenges[middle..];
    wb := Evaluate(wbPoly, rbValues);
    wc := Evaluate(wcPoly, rcValues);
  }

  /** The wiring tables of a layer of the circuit, with the output variables bound to r_0. */
  function InitialWiring(gates: seq<Gate>, layerIndex: nat, operation: Operation, initialRandomChallenge: Fe): (w: seq<Fe>)
    ensures BindOk(Indicator(gates, operation, layerIndex), 0)
    ensures IsTable(w, NumOfLayerVariables(layerIndex) - 1)
  {
    BindFirst(Indicator(gates, operation, layerIndex), NumOfLayerVariables(layerIndex), initialRandomChallenge);
    Bind(Indicator(gates, operation, layerIndex), 0, initialRandomChallenge)
  }

  /** What the layer's circuit must allow for `add_i_and_mul_i_mle` to run. */
  predicate WiringReady(circuit: Circuit, layerIndex: nat)
    reads circuit.layers
  {
    && layerIndex < |circuit.layers|
    && NumOfLayerVariables(layerIndex) < 64
    && PositionsFit(circuit.Gates()[layerIndex], layerIndex)
  }

  /**
   * `compute_verifier_initial_claim`: binds the output variable of the
   * output layer's wiring tables to r_0, evaluates them at the sumcheck
   * challenges and forms the wiring claim with the claimed W(r_b), W(r_c).
   * At most one challenge per remaining variable: a further challenge
   * binds the one-entry table to an empty one, and `evaluate` then panics
   * reading its entry 0.
   */
  method ComputeVerifierInitialClaim(circuit: Circuit, layerIndex: nat, initialRandomChallenge: Fe,
                                     sumcheckChallenges: seq<Fe>, wbEvaluation: Fe, wcEvaluation: Fe)
    returns (claim: Fe)
    requires WiringReady(circuit, layerIndex)
    requires |sumcheckChallenges| <= NumOfLayerVariables(layerIndex) - 1
    ensures EvalOk(InitialWiring(circuit.Gates()[layerIndex], layerIndex, ADD, initialRandomChallenge), sumcheckChallenges)
    ensures EvalOk(InitialWiring(circuit.Gates()[layerIndex], layerIndex, MUL, initialRandomChallenge), sumcheckChallenges)
    ensures claim == WiringClaim(
      Eval(InitialWiring(circuit.Gates()[layerIndex], layerIndex, ADD, initialRandomChallenge), sumcheckChallenges),
      Eval(InitialWiring(circuit.Gates()[layerIndex], layerIndex, MUL, initialRandomChallenge), sumcheckChallenges),
      wbEvaluation, wcEvaluation)
  {
    ghost var gates := circuit.Gates()[layerIndex];
    var addIAbc, mulIAbc := circuit.AddIAndMulIMle(layerIndex);
    ghost var addW := InitialWiring(gates, layerIndex, ADD, initialRandomChallenge);
    ghost var mulW := InitialWiring(gates, layerIndex, MUL, initialRandomChallenge);
    var addIBc := PartialEvaluate(addIAbc, 0, initialRandomChallenge);
    var mulIBc := PartialEvaluate(mulIAbc, 0, initialRandomChallenge);
    TableEvalOk(addW, NumOfLayerVariables(layerIndex) - 1, sumcheckChallenges);
    TableEvalOk(mulW, NumOfLayerVariables(layerIndex) - 1, sumcheckChallenges);
    var addIR := Evaluate(addIBc, sumcheckChallenges);
    var mulIR := Evaluate(mulIBc, sumcheckChallenges);
    claim := Add(Mul(addIR, Add(wbEvaluation, wcEvaluation)), Mul(mulIR, Mul(wbEvaluation, wcEvaluation)));
  }

  /**
   * What `compute_verifier_folded_claim` needs: the previous challenges
   * split into two non-empty halves of one length, no more of them than
   * the layer has output variables, and at most one current challenge per
   * remaining variable.
   */
  predicate FoldedClaimReady(circuit: Circuit, layerIndex: nat, challenges: SumcheckChallenges)
    reads circuit.layers
  {
    && WiringReady(circuit, layerIndex)
    && |challenges.previous| >= 2 && |challenges.previous| % 2 == 0
    && |challenges.previous| / 2 <= NumOfLayerVariables(layerIndex)
    && |challenges.current| + |challenges.previous| / 2 <= NumOfLayerVariables(layerIndex)
  }

  /** The folded wiring table of an operation for a layer of the circuit. */
  function FoldedWiring(gates: seq<Gate>, layerIndex: nat, operation: Operation, challenges: SumcheckChallenges, evals: Evaluations): seq<Fe>
    requires |challenges.previous| / 2 <= NumOfLayerVariables(layerIndex)
  {
    var half := |challenges.previous| / 2;
    Folded(Indicator(gates, operation, layerIndex), NumOfLayerVariables(layerIndex), evals.alpha, evals.beta,
           challenges.previous[..half], challenges.previous[half..half + half])
  }

  /**
   * `compute_verifier_folded_claim`: folds the layer's wiring tables at
   * the previous layer's r_b and r_c with α and β, evaluates them at the
   * current challenges and forms the wiring claim with the claimed W(r_b),
   * W(r_c).
   */
  method ComputeVerifierFoldedClaim(circuit: Circuit, layerIndex: nat, challenges: SumcheckChallenges, evals: Evaluations)
    returns (claim: Fe)
    requires FoldedClaimReady(circuit, layerIndex, challenges)
    ensures EvalOk(FoldedWiring(circuit.Gates()[layerIndex], layerIndex, ADD, challenges, evals), challenges.current)
    ensures EvalOk(FoldedWiring(circuit.Gates()[layerIndex], layerIndex, MUL, challenges, evals), challenges.current)
    ensures claim == WiringClaim(
      Eval(FoldedWiring(circuit.Gates()[layerIndex], layerIndex, ADD, challenges, evals), challenges.current),
      Eval(FoldedWiring(circuit.Gates()[layerIndex], layerIndex, MUL, challenges, evals), challenges.current),
      evals.wb, evals.wc)
  {
    var half := |challenges.previous| / 2;
    var prevRb, prevRc := challenges.previous[..half], challenges.previous[half..];
    assert prevRc == challenges.previous[half..half + half];
    ghost var n := NumOfLayerVariables(layerIndex);
    var addIAbc, mulIAbc := circuit.AddIAndMulIMle(layerIndex);
    var newAddI, newMulI := ComputeNewAddIMulI(evals.alpha, evals.beta, addIAbc, mulIAbc, prevRb, prevRc, n);
    TableEvalOk(newAddI, n - half, challenges.current);
    TableEvalOk(newMulI, n - half, challenges.current);
    var addR := Evaluate(newAddI, challenges.current);
    var mulR := Evaluate(newMulI, challenges.current);
    claim := Add(Mul(addR, Add(evals.wb, evals.wc)), Mul(mulR, Mul(evals.wb, evals.wc)));
  }
}
