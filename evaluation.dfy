/**
 * `MultilinearPolynomialEV`: a multilinear polynomial given by its
 * evaluations over the boolean hypercube, indexed big-endian (variable 0 is
 * the most significant bit of the index).  The struct only wraps its vector,
 * so the model works on the sequence of evaluations directly.
 */
module MultilinearEV {
  import opened Field
  import opened Encoding
  import opened Hypercube

  /** The formula `y1 + r * (y2 - y1)` that binds one variable of one pair. */
  function Lerp(y1: Fe, y2: Fe, r: Fe): Fe
  {
    Add(y1, Mul(r, Sub(y2, y1)))
  }

  lemma LerpEnds(y1: Fe, y2: Fe)
    ensures Lerp(y1, y2, 0) == y1 && Lerp(y1, y2, 1) == y2
  {
    MulZero(Sub(y2, y1));
    AddZero(y1);
    MulOne(Sub(y2, y1));
    AddComm(y1, Sub(y2, y1));
    SubAdd(y2, y1);
  }

  /** The stride 2^(n-1-v) between the two members of a pair when variable v of n is bound. */
  function Stride(size: nat, v: nat): nat
    requires size >= 2 && v < Log2(size)
  {
    Pow2(Log2(size) - 1 - v)
  }

  /**
   * When `partial_evaluate(p, v, _)` runs without panicking: the variable
   * exists (the `usize` subtraction does not underflow) and the last pair it
   * reads lies inside the table.  Tables of fewer than two entries are never
   * read at all.
   */
  predicate BindOk(p: seq<Fe>, v: nat)
  {
    PairsInRange(|p|, v)
  }

  /** `BindOk` depends only on the table's size. */
  predicate PairsInRange(size: nat, v: nat)
  {
    size < 2 || (v < Log2(size) && Insert0(size / 2 - 1, Stride(size, v)) + Stride(size, v) < size)
  }

  /**
   * The reference definition of binding variable v to r: entry k pairs the
   * k-th index j whose bit for the stride is clear with j + stride.
   */
  function Bind(p: seq<Fe>, v: nat, r: Fe): (q: seq<Fe>)
    requires BindOk(p, v)
    ensures |q| == |p| / 2
  {
    if |p| < 2 then [] else seq(|p| / 2, k requires 0 <= k < |p| / 2 => BindEntry(p, v, r, k))
  }

  /** Entry k of `Bind(p, v, r)`. */
  function BindEntry(p: seq<Fe>, v: nat, r: Fe, k: nat): Fe
    requires BindOk(p, v) && |p| >= 2 && k < |p| / 2
  {
    var s := Stride(|p|, v);
    Insert0Mono(k, |p| / 2 - 1, s);
    Lerp(p[Insert0(k, s)], p[Insert0(k, s) + s], r)
  }

  /** The facts one iteration of `partial_evaluate` needs about its pair and its next `j`. */
  lemma NextPair(p: seq<Fe>, v: nat, i: nat)
    requires BindOk(p, v) && i < |p| / 2
    ensures var s := Stride(|p|, v);
      && Insert0(i, s) + s < |p|
      && SetBit(Insert0(i, s), s) == Insert0(i, s) + s
      && Insert0(i + 1, s) == (if (Insert0(i, s) + 1) % s == 0 then Insert0(i, s) + 1 + s else Insert0(i, s) + 1)
  {
    var s := Stride(|p|, v);
    assert Insert0(i, s) + s < |p| by {
      Insert0Mono(i, |p| / 2 - 1, s);
    }
    assert SetBit(Insert0(i, s), s) == Insert0(i, s) + s by {
      Insert0Clear(i, s);
    }
    assert Insert0(i + 1, s) == (if (Insert0(i, s) + 1) % s == 0 then Insert0(i, s) + 1 + s else Insert0(i, s) + 1) by {
      Insert0Step(i, s);
    }
  }

  /**
   * One pair of the binding loop: entry i of the bound table, interpolated
   * at the value between the pair at j and `set_bit(j, 2^power)`, and the
   * next j, which skips the block of indices with the variable's bit set.
   */
  function BindPairStep(polynomial: seq<Fe>, evaluatingVariable: nat, value: Fe, i: nat, j: nat): (step: (Fe, nat))
    requires BindOk(polynomial, evaluatingVariable) && i < |polynomial| / 2
    requires j == Insert0(i, Stride(|polynomial|, evaluatingVariable))
    ensures step.0 == Bind(polynomial, evaluatingVariable, value)[i]
    ensures step.1 == Insert0(i + 1, Stride(|polynomial|, evaluatingVariable))
  {
    NextPair(polynomial, evaluatingVariable, i);
    var power := Log2(|polynomial|) - 1 - evaluatingVariable;
    var firstPairValue := polynomial[j];
    var secondPairValue := polynomial[SetBit(j, Pow2(power))];
    assert Bind(polynomial, evaluatingVariable, value)[i] == BindEntry(polynomial, evaluatingVariable, value, i);
    (Add(firstPairValue, Mul(value, Sub(secondPairValue, firstPairValue))),
     if (j + 1) % Pow2(power) == 0 then j + 1 + Pow2(power) else j + 1)
  }

  /** A prefix one longer is the prefix followed by the next element. */
  lemma TakeSnoc<T>(b: seq<T>, i: nat, x: T)
    requires i < |b| && x == b[i]
    ensures b[..i] + [x] == b[..i + 1]
  {
  }

  /** `MultilinearPolynomialEV::partial_evaluate`. */
  method PartialEvaluate(polynomial: seq<Fe>, evaluatingVariable: nat, value: Fe) returns (result: seq<Fe>)
    requires BindOk(polynomial, evaluatingVariable)
    ensures result == Bind(polynomial, evaluatingVariable, value)
  {
    var polynomialSize := |polynomial|;
    var expectedPolynomialSize := polynomialSize / 2;
    result := [];
    var i := 0;
    var j := 0;
    if expectedPolynomialSize > 0 {
      Insert0Low(0, Stride(polynomialSize, evaluatingVariable));
    }
    while i < expectedPolynomialSize
      invariant 0 <= i <= expectedPolynomialSize
      invariant expectedPolynomialSize > 0 ==> j == Insert0(i, Stride(polynomialSize, evaluatingVariable))
      invariant result == Bind(polynomial, evaluatingVariable, value)[..i]
    {
      var step := BindPairStep(polynomial, evaluatingVariable, value, i, j);
      TakeSnoc(Bind(polynomial, evaluatingVariable, value), i, step.0);
      result := result + [step.0];
      j := step.1;
      i := i + 1;
    }
  }

  /** `number_of_variables`: `len().ilog2()`, so it panics on an empty table. */
  function NumberOfVariables(p: seq<Fe>): (n: nat)
    requires |p| >= 1
    ensures Pow2(n) <= |p| < Pow2(n + 1)
  {
    Log2(|p|)
  }

  /** Binding variable 0 to each of `vs` in turn succeeds. */
  predicate BindAllOk(p: seq<Fe>, vs: seq<Fe>)
    decreases |vs|
  {
    |vs| == 0 || (BindOk(p, 0) && BindAllOk(Bind(p, 0, vs[0]), vs[1..]))
  }

  /** The table left after binding variable 0 to each of `vs` in turn. */
  function BindAll(p: seq<Fe>, vs: seq<Fe>): seq<Fe>
    requires BindAllOk(p, vs)
    decreases |vs|
  {
    if |vs| == 0 then p else BindAll(Bind(p, 0, vs[0]), vs[1..])
  }

  /** `evaluate(values)` runs without panicking: every binding succeeds and an entry is left to read. */
  predicate EvalOk(p: seq<Fe>, vs: seq<Fe>)
  {
    BindAllOk(p, vs) && |BindAll(p, vs)| >= 1
  }

  /** What `evaluate(values)` returns. */
  function Eval(p: seq<Fe>, vs: seq<Fe>): Fe
    requires EvalOk(p, vs)
  {
    BindAll(p, vs)[0]
  }

  /** Binding one more value extends the bindings made so far. */
  lemma {:induction false} BindAllSnoc(p: seq<Fe>, vs: seq<Fe>, i: nat)
    requires BindAllOk(p, vs) && i < |vs|
    ensures BindAllOk(p, vs[..i]) && BindOk(BindAll(p, vs[..i]), 0)
    ensures BindAllOk(p, vs[..i + 1])
    ensures BindAll(p, vs[..i + 1]) == Bind(BindAll(p, vs[..i]), 0, vs[i])
    decreases i
  {
    var q := Bind(p, 0, vs[0]);
    if i == 0 {
      assert vs[..1][1..] == [];
      assert vs[..0] == [];
    } else {
      BindAllSnoc(q, vs[1..], i - 1);
      assert vs[..i + 1][1..] == vs[1..][..i];
      assert vs[..i][1..] == vs[1..][..i - 1];
    }
  }

  /** `MultilinearPolynomialEV::evaluate`. */
  method Evaluate(polynomial: seq<Fe>, values: seq<Fe>) returns (result: Fe)
    requires EvalOk(polynomial, values)
    ensures result == Eval(polynomial, values)
  {
    var rPolynomial := polynomial;
    var expectedNumberOfPartialEval := |values|;
    var i := 0;
    while i < expectedNumberOfPartialEval
      invariant 0 <= i <= expectedNumberOfPartialEval
      invariant BindAllOk(polynomial, values[..i]) && rPolynomial == BindAll(polynomial, values[..i])
    {
      BindAllSnoc(polynomial, values, i);
      rPolynomial := PartialEvaluate(rPolynomial, 0, values[i]);
      i := i + 1;
    }
    assert values[..i] == values;
    result := rPolynomial[0];
  }

  /** The concatenated 32-byte big-endian encodings of the entries. */
  function EncodeBe(p: seq<Fe>): (bytes: Bytes)
    ensures |bytes| == ElementWidth * |p|
  {
    if |p| == 0 then [] else EncodeBe(p[..|p| - 1]) + ToBytesBe(p[|p| - 1])
  }

  /** `convert_to_bytes`. */
  method ConvertToBytes(polynomial: seq<Fe>) returns (bytes: Bytes)
    ensures bytes == EncodeBe(polynomial)
  {
    bytes := [];
    for i := 0 to |polynomial|
      invariant bytes == EncodeBe(polynomial[..i])
    {
      assert polynomial[..i + 1][..i] == polynomial[..i];
      bytes := bytes + ToBytesBe(polynomial[i]);
    }
    assert polynomial[..|polynomial|] == polynomial;
  }

  /** `scalar_mul`: every evaluation times the scalar. */
  function ScalarMul(p: seq<Fe>, scalar: Fe): (q: seq<Fe>)
    ensures |q| == |p|
  {
    seq(|p|, i requires 0 <= i < |p| => Mul(p[i], scalar))
  }

  /** `add_polynomials`: pointwise sum; the lengths must agree. */
  function AddPolynomials(p: seq<Fe>, q: seq<Fe>): (r: seq<Fe>)
    requires |p| == |q|
    ensures |r| == |p|
  {
    seq(|p|, i requires 0 <= i < |p| => Add(p[i], q[i]))
  }

  /** One row of a tensor: `b` combined with every entry of `c`. */
  function TensorRow(b: Fe, c: seq<Fe>, mul: bool): seq<Fe>
  {
    seq(|c|, j requires 0 <= j < |c| => if mul then Mul(b, c[j]) else Add(b, c[j]))
  }

  /**
   * The tensor of two tables, rows in the order of `b`: with `mul` false the
   * table of b(x) + c(y), with `mul` true that of b(x) * c(y).
   */
  function Tensor(b: seq<Fe>, c: seq<Fe>, mul: bool): (t: seq<Fe>)
    ensures |t| == |b| * |c|
  {
    if |b| == 0 then [] else Tensor(b[..|b| - 1], c, mul) + TensorRow(b[|b| - 1], c, mul)
  }

  /** Entry x * |c| + y of the tensor combines b[x] with c[y]. */
  lemma {:induction false} TensorEntry(b: seq<Fe>, c: seq<Fe>, mul: bool, x: nat, y: nat)
    requires x < |b| && y < |c|
    ensures x * |c| + y < |b| * |c|
    ensures Tensor(b, c, mul)[x * |c| + y] == if mul then Mul(b[x], c[y]) else Add(b[x], c[y])
    decreases |b|
  {
    var n, m := |b| - 1, |c|;
    var t := Tensor(b[..n], c, mul);
    assert |t| == n * m;
    assert |b| * m == n * m + m;
    if x < n {
      TensorEntry(b[..n], c, mul, x, y);
      assert x * m + y < n * m;
      assert Tensor(b, c, mul)[x * m + y] == t[x * m + y];
    } else {
      assert x * m + y == n * m + y;
    }
  }

  /** `polynomial_tensor_add`. */
  method PolynomialTensorAdd(wB: seq<Fe>, wC: seq<Fe>) returns (addResult: seq<Fe>)
    requires |wB| == |wC|
    ensures addResult == Tensor(wB, wC, false)
  {
    addResult := [];
    for i := 0 to |wB|
      invariant addResult == Tensor(wB[..i], wC, false)
    {
      for j := 0 to |wC|
        invariant addResult == Tensor(wB[..i], wC, false) + TensorRow(wB[i], wC, false)[..j]
      {
        addResult := addResult + [Add(wB[i], wC[j])];
      }
      assert wB[..i + 1][..i] == wB[..i];
    }
    assert wB[..|wB|] == wB;
  }

  /** `polynomial_tensor_mul` (panics with "different polynomial length"). */
  method PolynomialTensorMul(wB: seq<Fe>, wC: seq<Fe>) returns (mulResult: seq<Fe>)
    requires |wB| == |wC|
    ensures mulResult == Tensor(wB, wC, true)
  {
    mulResult := [];
    for i := 0 to |wB|
      invariant mulResult == Tensor(wB[..i], wC, true)
    {
      for j := 0 to |wC|
        invariant mulResult == Tensor(wB[..i], wC, true) + TensorRow(wB[i], wC, true)[..j]
      {
        mulResult := mulResult + [Mul(wB[i], wC[j])];
      }
      assert wB[..i + 1][..i] == wB[..i];
    }
    assert wB[..|wB|] == wB;
  }

  /** The crate's tensor-sum test: [1, 2] and [3, 4] give [4, 5, 5, 6]. */
  lemma TensorAddExample()
    ensures Tensor([1, 2], [3, 4], false) == [4, 5, 5, 6]
  {
    assert Tensor([1], [3, 4], false) == [4, 5];
  }

  /** The crate's tensor-product test: [2, 3] and [4, 5] give [8, 10, 12, 15]. */
  lemma TensorMulExample()
    ensures Tensor([2, 3], [4, 5], true) == [8, 10, 12, 15]
  {
    assert Tensor([2], [4, 5], true) == [8, 10];
  }
}
