/**
 * `MultilinearPolynomial` of the Fiat–Shamir crate: the same evaluation
 * form as `MultilinearEV`, with partial evaluation written as a fold over
 * (next index, entries so far), evaluation as repeated binding of
 * variable 0, and a byte codec.  Every routine is proved to compute the
 * corresponding reference definition of `MultilinearEV`.
 */
module FiatShamirMultilinear {
  import opened Field
  import opened Encoding
  import opened Hypercube
  import opened MultilinearEV
  import opened MleTheory

  datatype MultilinearPolynomial = MultilinearPolynomial(evaluations: seq<Fe>)

  /**
   * One step of the fold: reads the pair (j, j | 2^power), pushes
   * `y1 + r * (y2 - y1)` and moves j to the next index whose bit is clear.
   */
  function FoldStep(polynomial: seq<Fe>, evaluatingVariable: nat, rValue: Fe, n: nat, state: (nat, seq<Fe>)): (next: (nat, seq<Fe>))
    requires |polynomial| >= 2 && BindOk(polynomial, evaluatingVariable) && n < |polynomial| / 2
    requires state.0 == Insert0(n, Stride(|polynomial|, evaluatingVariable))
    requires state.1 == Bind(polynomial, evaluatingVariable, rValue)[..n]
    ensures next.0 == Insert0(n + 1, Stride(|polynomial|, evaluatingVariable))
    ensures next.1 == Bind(polynomial, evaluatingVariable, rValue)[..n + 1]
  {
    var (j, result) := state;
    var step := BindPairStep(polynomial, evaluatingVariable, rValue, n, j);
    TakeSnoc(Bind(polynomial, evaluatingVariable, rValue), n, step.0);
    (step.1, result + [step.0])
  }

  /** The fold's state after n steps of `partial_evaluation`, starting from (0, []). */
  function FoldSteps(polynomial: seq<Fe>, evaluatingVariable: nat, rValue: Fe, n: nat): (state: (nat, seq<Fe>))
    requires |polynomial| >= 2 && BindOk(polynomial, evaluatingVariable) && n <= |polynomial| / 2
    ensures state.0 == Insert0(n, Stride(|polynomial|, evaluatingVariable))
    ensures state.1 == Bind(polynomial, evaluatingVariable, rValue)[..n]
    decreases n
  {
    if n == 0 then
      Insert0Low(0, Stride(|polynomial|, evaluatingVariable));
      (0, [])
    else
      FoldStep(polynomial, evaluatingVariable, rValue, n - 1, FoldSteps(polynomial, evaluatingVariable, rValue, n - 1))
  }

  /**
   * `partial_evaluation`: computes `ilog2` of the length up front, so it
   * panics on tables of fewer than two entries; otherwise it binds the
   * variable exactly as `Bind` does.
   */
  function PartialEvaluation(polynomial: seq<Fe>, evaluatingVariable: nat, rValue: Fe): (result: seq<Fe>)
    requires |polynomial| >= 2 && BindOk(polynomial, evaluatingVariable)
    ensures result == Bind(polynomial, evaluatingVariable, rValue)
  {
    var b := Bind(polynomial, evaluatingVariable, rValue);
    assert b[..|polynomial| / 2] == b;
    FoldSteps(polynomial, evaluatingVariable, rValue, |polynomial| / 2).1
  }

  /** Binding variable 0 to each of `vs` in turn never meets a table of fewer than two entries. */
  predicate StrictBindAllOk(p: seq<Fe>, vs: seq<Fe>)
    decreases |vs|
  {
    |vs| == 0 || (|p| >= 2 && BindOk(p, 0) && StrictBindAllOk(Bind(p, 0, vs[0]), vs[1..]))
  }

  /** When `evaluate(values)` runs without panicking: every binding sees a pair and an entry is left. */
  predicate ReadOk(p: seq<Fe>, vs: seq<Fe>)
  {
    StrictBindAllOk(p, vs) && |p| >= 1
  }

  /** Such an evaluation is also one `MultilinearEV::evaluate` can perform. */
  lemma {:induction false} ReadOkEvalOk(p: seq<Fe>, vs: seq<Fe>)
    requires ReadOk(p, vs)
    ensures EvalOk(p, vs)
    decreases |vs|
  {
    if |vs| > 0 {
      ReadOkEvalOk(Bind(p, 0, vs[0]), vs[1..]);
    }
  }

  /** A table in n variables can be read at any n or fewer points. */
  lemma {:induction false} TableReadOk(p: seq<Fe>, n: nat, vs: seq<Fe>)
    requires IsTable(p, n) && |vs| <= n
    ensures ReadOk(p, vs)
    decreases |vs|
  {
    if |vs| > 0 {
      BindFirst(p, n, vs[0]);
      assert Pow2(n) == 2 * Pow2(n - 1);
      TableReadOk(Bind(p, 0, vs[0]), n - 1, vs[1..]);
    }
  }

  /** `evaluate`: binds variable 0 at each value in turn and reads entry 0. */
  method Evaluate(polynomial: MultilinearPolynomial, values: seq<Fe>) returns (result: Fe)
    requires ReadOk(polynomial.evaluations, values)
    ensures EvalOk(polynomial.evaluations, values)
    ensures result == Eval(polynomial.evaluations, values)
  {
    ReadOkEvalOk(polynomial.evaluations, values);
    var rPolynomial := polynomial.evaluations;
    var expectedNumberOfPartialEval := |values|;
    for index := 0 to expectedNumberOfPartialEval
      invariant BindAllOk(polynomial.evaluations, values[..index])
      invariant rPolynomial == BindAll(polynomial.evaluations, values[..index])
      invariant ReadOk(rPolynomial, values[index..])
    {
      BindAllSnoc(polynomial.evaluations, values, index);
      assert values[index..][1..] == values[index + 1..];
      rPolynomial := PartialEvaluation(rPolynomial, 0, values[index]);
    }
    assert values[..|values|] == values;
    result := rPolynomial[0];
  }

  /** `get_number_of_var`: `len().ilog2()`, which panics on an empty table. */
  function GetNumberOfVar(polynomial: MultilinearPolynomial): (n: nat)
    requires |polynomial.evaluations| >= 1
    ensures Pow2(n) <= |polynomial.evaluations| < Pow2(n + 1)
  {
    Log2(|polynomial.evaluations|)
  }

  /** On a table of 2^n entries the variable count is n. */
  lemma NumberOfVarOfTable(polynomial: MultilinearPolynomial, n: nat)
    requires IsTable(polynomial.evaluations, n)
    ensures GetNumberOfVar(polynomial) == n
  {
    Log2OfPow2(n);
  }

  /** `convert_to_bytes`: the 32-byte big-endian encodings of the entries, in order. */
  method ConvertToBytes(polynomial: MultilinearPolynomial) returns (bytes: Bytes)
    ensures bytes == EncodeBe(polynomial.evaluations)
  {
    var values := polynomial.evaluations;
    bytes := [];
    for i := 0 to |values|
      invariant bytes == EncodeBe(values[..i])
    {
      assert values[..i + 1][..i] == values[..i];
      bytes := bytes + ToBytesBe(values[i]);
    }
    assert values[..|values|] == values;
  }

  /** The elements a byte string of whole 32-byte blocks decodes to, one per block, reduced modulo P. */
  function DecodeBe(bytes: Bytes): (values: seq<Fe>)
    requires |bytes| % ElementWidth == 0
    ensures |values| == |bytes| / ElementWidth
  {
    if |bytes| == 0 then []
    else DecodeBe(bytes[..|bytes| - ElementWidth]) + [FromBeBytesModOrder(bytes[|bytes| - ElementWidth..])]
  }

  /**
   * `from_bytes`: reads 32-byte blocks while any bytes remain; the slice
   * `bytes[i..i + 32]` panics unless the length is a multiple of 32.
   */
  method FromBytes(bytes: Bytes) returns (computation: seq<Fe>)
    requires |bytes| % ElementWidth == 0
    ensures computation == DecodeBe(bytes)
    ensures |computation| == |bytes| / ElementWidth
  {
    computation := [];
    var i := 0;
    while i < |bytes|
      invariant 0 <= i <= |bytes| && i % ElementWidth == 0
      invariant computation == DecodeBe(bytes[..i])
    {
      var bytesArray := bytes[i..i + ElementWidth];
      assert bytes[..i + ElementWidth][..i] == bytes[..i];
      assert bytes[..i + ElementWidth][i..] == bytesArray;
      computation := computation + [FromBeBytesModOrder(bytesArray)];
      i := i + ElementWidth;
    }
    assert bytes[..|bytes|] == bytes;
  }

  /** Decoding the encoding of a table gives the table back. */
  lemma {:induction false} DecodeEncode(p: seq<Fe>)
    ensures |EncodeBe(p)| % ElementWidth == 0
    ensures DecodeBe(EncodeBe(p)) == p
    decreases |p|
  {
    if |p| > 0 {
      var init, last := p[..|p| - 1], p[|p| - 1];
      var e := EncodeBe(p);
      assert e == EncodeBe(init) + ToBytesBe(last);
      assert e[..|e| - ElementWidth] == EncodeBe(init);
      assert e[|e| - ElementWidth..] == ToBytesBe(last);
      DecodeEncode(init);
      ToBytesBeDecodes(last);
      assert p == init + [last];
    }
  }
}

/**
 * The standalone partial evaluator of `multilinear_poly_impl`: the same
 * fold, read as a loop carrying (j, result) from the initial state
 * (0, []), and the same repeated-binding evaluation.
 */
module MultilinearPolyImpl {
  import opened Field
  import opened Hypercube
  import opened MultilinearEV
  import opened MleTheory
  import FiatShamirMultilinear

  datatype MultilinearPolynomial = MultilinearPolynomial(evaluations: seq<Fe>)

  /**
   * The rest of the fold from step i, with j and the accumulated entries
   * as that step receives them: it completes the binding.
   */
  function FoldFrom(polynomial: seq<Fe>, evaluatingVariable: nat, rValue: Fe, i: nat, j: nat, acc: seq<Fe>): (result: seq<Fe>)
    requires |polynomial| >= 2 && BindOk(polynomial, evaluatingVariable) && i <= |polynomial| / 2
    requires j == Insert0(i, Stride(|polynomial|, evaluatingVariable))
    requires acc == Bind(polynomial, evaluatingVariable, rValue)[..i]
    ensures result == Bind(polynomial, evaluatingVariable, rValue)
    decreases |polynomial| / 2 - i
  {
    var b := Bind(polynomial, evaluatingVariable, rValue);
    if i == |polynomial| / 2 then
      assert acc == b;
      acc
    else
      var step := BindPairStep(polynomial, evaluatingVariable, rValue, i, j);
      TakeSnoc(b, i, step.0);
      FoldFrom(polynomial, evaluatingVariable, rValue, i + 1, step.1, acc + [step.0])
  }

  /** `partial_evaluation`: panics below two entries, otherwise binds exactly as `Bind` does. */
  function PartialEvaluation(polynomial: seq<Fe>, evaluatingVariable: nat, rValue: Fe): (result: seq<Fe>)
    requires |polynomial| >= 2 && BindOk(polynomial, evaluatingVariable)
    ensures result == Bind(polynomial, evaluatingVariable, rValue)
  {
    Insert0Low(0, Stride(|polynomial|, evaluatingVariable));
    FoldFrom(polynomial, evaluatingVariable, rValue, 0, 0, [])
  }

  /** `evaluate`: binds variable 0 at each value in turn and reads entry 0. */
  method Evaluate(polynomial: MultilinearPolynomial, values: seq<Fe>) returns (result: Fe)
    requires FiatShamirMultilinear.ReadOk(polynomial.evaluations, values)
    ensures EvalOk(polynomial.evaluations, values)
    ensures result == Eval(polynomial.evaluations, values)
  {
    FiatShamirMultilinear.ReadOkEvalOk(polynomial.evaluations, values);
    var rPolynomial := polynomial.evaluations;
    var expectedNumberOfPartialEval := |values|;
    for index := 0 to expectedNumberOfPartialEval
      invariant BindAllOk(polynomial.evaluations, values[..index])
      invariant rPolynomial == BindAll(polynomial.evaluations, values[..index])
      invariant FiatShamirMultilinear.ReadOk(rPolynomial, values[index..])
    {
      BindAllSnoc(polynomial.evaluations, values, index);
      assert values[index..][1..] == values[index + 1..];
      rPolynomial := PartialEvaluation(rPolynomial, 0, values[index]);
    }
    assert values[..|values|] == values;
    result := rPolynomial[0];
  }

  /** The first case of the crate's tests: [18, 48] at 2 is [78]. */
  lemma PartialEvaluationPair()
    ensures BindOk([18, 48], 0) && PartialEvaluation([18, 48], 0, 2) == [78]
  {
    BindLast([18, 48], 1, 2, 0);
    ExampleLerps();
  }

  /** Binding the last variable of an eight-entry table pairs neighbours. */
  lemma BindLastOfEight(p: seq<Fe>, r: Fe)
    requires |p| == 8
    ensures BindOk(p, 2)
    ensures Bind(p, 2, r) == [Lerp(p[0], p[1], r), Lerp(p[2], p[3], r), Lerp(p[4], p[5], r), Lerp(p[6], p[7], r)]
  {
    assert IsTable(p, 3);
    StrideOfLast(p, 3);
    var b := Bind(p, 2, r);
    forall k | 0 <= k < 4
      ensures b[k] == Lerp(p[2 * k], p[2 * k + 1], r)
    {
      BindLast(p, 3, r, k);
    }
    QuadOf(b, b[0], b[1], b[2], b[3]);
  }

  /** The second case: the eight-entry table's last variable bound at 3. */
  lemma PartialEvaluationEight()
    ensures BindOk([0, 0, 0, 3, 0, 0, 2, 5], 2)
    ensures PartialEvaluation([0, 0, 0, 3, 0, 0, 2, 5], 2, 3) == [0, 9, 0, 11]
  {
    BindLastOfEight([0, 0, 0, 3, 0, 0, 2, 5], 3);
    ExampleLerps();
  }

  /** `[0, 0, 3, 8]` evaluated at (6, 2) is 78. */
  lemma EvaluateExample()
    ensures EvalOk([0, 0, 3, 8], [6, 2]) && Eval([0, 0, 3, 8], [6, 2]) == 78
  {
    var p: seq<Fe> := [0, 0, 3, 8];
    var vs: seq<Fe> := [6, 2];
    assert IsTable(p, 2);
    TableEvalOk(p, 2, vs);
    EvalFirst(p, vs);
    BindFirstExample();
    assert vs[1..] == [2];
    EvalPairExample();
  }
}
