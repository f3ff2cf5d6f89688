/**
 * The layered arithmetic circuit of the GKR crate.  Layer 0 is the output
 * layer; the last layer's gates read the inputs.  `evaluate` runs the layers
 * from the inputs upwards; `add_i_and_mul_i_mle` builds the wiring
 * predicates of a layer as 0/1 tables over the hypercube of its
 * (output, left, right) index bits.
 */
module Circuits {
  import opened Field
  import opened Hypercube
  import opened Wrappers
  import opened Gates
  import opened Layers

  // ---------------------------------------------------------------------
  // One layer: the reference definition
  // ---------------------------------------------------------------------

  /** The largest output index of the gates, 0 when there are none (`max().unwrap_or(0)`). */
  function MaxOutputIndex(gates: seq<Gate>): (m: nat)
    ensures forall k :: 0 <= k < |gates| ==> gates[k].output <= m
    ensures |gates| > 0 ==> exists k :: 0 <= k < |gates| && gates[k].output == m
    ensures |gates| == 0 ==> m == 0
  {
    if |gates| == 0 then 0
    else
      var m := MaxOutputIndex(gates[..|gates| - 1]);
      if gates[|gates| - 1].output > m then gates[|gates| - 1].output else m
  }

  /** Every gate reads entries of an input of `size` entries. */
  predicate InputsInRange(gates: seq<Gate>, size: nat)
  {
    forall k :: 0 <= k < |gates| ==> gates[k].left < size && gates[k].right < size
  }

  /** What a gate adds to entry o: its operation on the entries it reads if it targets o, else zero. */
  function Contribution(gate: Gate, input: seq<Fe>, o: nat): Fe
    requires gate.left < |input| && gate.right < |input|
  {
    if gate.output == o then Operations(gate.operation, input[gate.left], input[gate.right]) else 0
  }

  /** The contributions of the gates to entry o, in gate order. */
  function Contributions(gates: seq<Gate>, input: seq<Fe>, o: nat): (c: seq<Fe>)
    requires InputsInRange(gates, |input|)
    ensures |c| == |gates|
  {
    seq(|gates|, k requires 0 <= k < |gates| => Contribution(gates[k], input, o))
  }

  /**
   * The values of a layer: one entry per index up to the largest output,
   * entry o the sum over the gates with output o of their operation.
   */
  function LayerValues(gates: seq<Gate>, input: seq<Fe>): (values: seq<Fe>)
    requires InputsInRange(gates, |input|)
    ensures |values| == MaxOutputIndex(gates) + 1
  {
    seq(MaxOutputIndex(gates) + 1, o requires 0 <= o <= MaxOutputIndex(gates) => Sum(Contributions(gates, input, o)))
  }

  lemma {:induction false} SumOfZeros(s: seq<Fe>)
    requires forall k :: 0 <= k < |s| ==> s[k] == 0
    ensures Sum(s) == 0
    decreases |s|
  {
    if |s| > 0 {
      SumOfZeros(s[..|s| - 1]);
    }
  }

  lemma SumOfOne(s: seq<Fe>, j: nat)
    requires j < |s| && forall k :: 0 <= k < |s| && k != j ==> s[k] == 0
    ensures Sum(s) == s[j]
  {
    assert s == s[..j] + [s[j]] + s[j + 1..];
    SumOfZeros(s[..j]);
    SumOfZeros(s[j + 1..]);
    SumAppend(s[..j] + [s[j]], s[j + 1..]);
    SumAppend(s[..j], [s[j]]);
    SumSingleton(s[j]);
    AddZero(s[j]);
    AddComm(0, s[j]);
  }

  /** An entry that no gate targets stays zero. */
  lemma UntargetedEntry(gates: seq<Gate>, input: seq<Fe>, o: nat)
    requires InputsInRange(gates, |input|) && o <= MaxOutputIndex(gates)
    requires forall k :: 0 <= k < |gates| ==> gates[k].output != o
    ensures LayerValues(gates, input)[o] == 0
  {
    SumOfZeros(Contributions(gates, input, o));
  }

  /** An entry that exactly one gate targets holds that gate's operation on the entries it reads. */
  lemma SingleTargetEntry(gates: seq<Gate>, input: seq<Fe>, j: nat)
    requires InputsInRange(gates, |input|) && j < |gates|
    requires forall k :: 0 <= k < |gates| && k != j ==> gates[k].output != gates[j].output
    ensures LayerValues(gates, input)[gates[j].output]
         == Operations(gates[j].operation, input[gates[j].left], input[gates[j].right])
  {
    SumOfOne(Contributions(gates, input, gates[j].output), j);
  }

  /** Gates sharing an output add up: the gates g1 + g2 give each entry the sum of what each group gives it. */
  lemma ContributionsSplit(g1: seq<Gate>, g2: seq<Gate>, input: seq<Fe>, o: nat)
    requires InputsInRange(g1, |input|) && InputsInRange(g2, |input|)
    ensures InputsInRange(g1 + g2, |input|)
    ensures Sum(Contributions(g1 + g2, input, o))
         == Add(Sum(Contributions(g1, input, o)), Sum(Contributions(g2, input, o)))
  {
    assert Contributions(g1 + g2, input, o) == Contributions(g1, input, o) + Contributions(g2, input, o);
    SumAppend(Contributions(g1, input, o), Contributions(g2, input, o));
  }

  /** The contributions of one more gate. */
  lemma ContributionsSnoc(gates: seq<Gate>, input: seq<Fe>, o: nat, k: nat)
    requires InputsInRange(gates, |input|) && k < |gates|
    ensures InputsInRange(gates[..k], |input|) && InputsInRange(gates[..k + 1], |input|)
    ensures Sum(Contributions(gates[..k + 1], input, o))
         == Add(Sum(Contributions(gates[..k], input, o)), Contribution(gates[k], input, o))
  {
    assert Contributions(gates[..k + 1], input, o)[..k] == Contributions(gates[..k], input, o);
  }

  /**
   * The loop over one layer's gates in `evaluate`: a zero vector of
   * 1 + the largest output index, and each gate's operation on the two
   * entries it reads added into entry `output`.
   */
  method EvaluateLayer(gates: seq<Gate>, currentInput: seq<Fe>) returns (resultantEvaluations: seq<Fe>)
    requires InputsInRange(gates, |currentInput|)
    ensures resultantEvaluations == LayerValues(gates, currentInput)
  {
    var maxOutputIndex := MaxOutputIndex(gates);
    var values := new Fe[maxOutputIndex + 1](_ => 0);
    for k := 0 to |gates|
      invariant forall o :: 0 <= o < values.Length ==> values[o] == Sum(Contributions(gates[..k], currentInput, o))
    {
      var gate := gates[k];
      var leftIndexValue := currentInput[gate.left];
      var rightIndexValue := currentInput[gate.right];
      var currentGateEvaluation := match gate.operation
        case ADD => Add(leftIndexValue, rightIndexValue)
        case MUL => Mul(leftIndexValue, rightIndexValue);
      values[gate.output] := Add(values[gate.output], currentGateEvaluation);
      forall o | 0 <= o < values.Length
        ensures values[o] == Sum(Contributions(gates[..k + 1], currentInput, o))
      {
        ContributionsSnoc(gates, currentInput, o, k);
        if o != gate.output {
          AddZero(Sum(Contributions(gates[..k], currentInput, o)));
        }
      }
    }
    assert gates[..|gates|] == gates;
    resultantEvaluations := values[..];
  }

  // ---------------------------------------------------------------------
  // The whole circuit
  // ---------------------------------------------------------------------

  /** Every layer's gates read entries of the layer below it (the inputs for the last layer). */
  predicate Evaluable(layers: seq<seq<Gate>>, values: seq<Fe>)
    decreases |layers|, 0
  {
    |layers| == 0 || (Evaluable(layers[1..], values) && InputsInRange(layers[0], |Evaluations(layers[1..], values)[0]|))
  }

  /**
   * The values of every layer, output layer first and the inputs last:
   * each layer is computed from the one below it.
   */
  function Evaluations(layers: seq<seq<Gate>>, values: seq<Fe>): (e: seq<seq<Fe>>)
    requires Evaluable(layers, values)
    ensures |e| == |layers| + 1 && e[|layers|] == values
    decreases |layers|, 1
  {
    if |layers| == 0 then [values]
    else
      var below := Evaluations(layers[1..], values);
      [LayerValues(layers[0], below[0])] + below
  }

  /** Every suffix of an evaluable circuit is evaluable. */
  lemma {:induction false} EvaluableSuffix(layers: seq<seq<Gate>>, values: seq<Fe>, j: nat)
    requires Evaluable(layers, values) && j <= |layers|
    ensures Evaluable(layers[j..], values)
    decreases j
  {
    if j > 0 {
      EvaluableSuffix(layers, values, j - 1);
      assert layers[j - 1..][1..] == layers[j..];
    }
  }

  /** Entry i of the evaluations is layer i applied to entry i + 1. */
  lemma {:induction false} EvaluationsLayer(layers: seq<seq<Gate>>, values: seq<Fe>, i: nat)
    requires Evaluable(layers, values) && i < |layers|
    ensures InputsInRange(layers[i], |Evaluations(layers, values)[i + 1]|)
    ensures Evaluations(layers, values)[i] == LayerValues(layers[i], Evaluations(layers, values)[i + 1])
    decreases i
  {
    if i > 0 {
      EvaluationsLayer(layers[1..], values, i - 1);
    }
  }

  function Reversed<T>(s: seq<T>): (r: seq<T>)
    ensures |r| == |s|
  {
    if |s| == 0 then [] else Reversed(s[1..]) + [s[0]]
  }

  lemma {:induction false} ReversedTwice<T>(s: seq<T>)
    ensures Reversed(Reversed(s)) == s
    decreases |s|
  {
    if |s| > 0 {
      ReversedSnoc(Reversed(s[1..]), s[0]);
      ReversedTwice(s[1..]);
    }
  }

  lemma {:induction false} ReversedSnoc<T>(s: seq<T>, x: T)
    ensures Reversed(s + [x]) == [x] + Reversed(s)
    decreases |s|
  {
    if |s| > 0 {
      assert (s + [x])[1..] == s[1..] + [x];
      ReversedSnoc(s[1..], x);
    } else {
      assert s + [x] == [x];
    }
  }

  datatype CircuitEvaluationResult = CircuitEvaluationResult(output: seq<Fe>, layerEvaluations: seq<seq<Fe>>)

  const LayerIndexOutOfBounds: string := "layer index out of bounds"

  /** `w_i_polynomial`: the values of layer i as a table, or "layer index out of bounds". */
  function WIPolynomial(circuitEvaluation: CircuitEvaluationResult, layerIndex: nat): (r: Result<seq<Fe>>)
    ensures r.Success? <==> layerIndex < |circuitEvaluation.layerEvaluations|
    ensures r.Success? ==> r.value == circuitEvaluation.layerEvaluations[layerIndex]
    ensures r.Failure? ==> r.error == LayerIndexOutOfBounds
  {
    if layerIndex < |circuitEvaluation.layerEvaluations| then
      Success(circuitEvaluation.layerEvaluations[layerIndex])
    else
      Failure(LayerIndexOutOfBounds)
  }

  class Circuit {
    const layers: seq<Layer>

    /** `Circuit::new`. */
    constructor (layers: seq<Layer>)
      ensures this.layers == layers
    {
      this.layers := layers;
    }

    /** The gates of every layer, output layer first. */
    function Gates(): (gates: seq<seq<Gate>>)
      reads layers
      ensures |gates| == |layers| && forall i :: 0 <= i < |layers| ==> gates[i] == layers[i].gates
    {
      seq(|layers|, i requires 0 <= i < |layers| reads layers => layers[i].gates)
    }

    /**
     * `evaluate`: runs the layers from the last one (on the inputs) to the
     * first, collecting each layer's values, then reverses the list so that
     * it starts with the output layer.
     */
    method Evaluate(values: seq<Fe>) returns (result: CircuitEvaluationResult)
      requires Evaluable(Gates(), values)
      ensures result.layerEvaluations == Evaluations(Gates(), values)
      ensures result.output == result.layerEvaluations[0]
    {
      ghost var gates := Gates();
      var currentInput := values;
      var reversedEvaluations := [currentInput];
      var j := |layers|;
      while j > 0
        invariant 0 <= j <= |layers|
        invariant Evaluable(gates[j..], values)
        invariant currentInput == Evaluations(gates[j..], values)[0]
        invariant reversedEvaluations == Reversed(Evaluations(gates[j..], values))
      {
        j := j - 1;
        EvaluableSuffix(gates, values, j);
        assert gates[j..][1..] == gates[j + 1..];
        var layer := layers[j];
        ghost var below := Evaluations(gates[j + 1..], values);
        currentInput := EvaluateLayer(layer.gates, currentInput);
        assert Evaluations(gates[j..], values) == [currentInput] + below;
        ReversedSnoc(below, currentInput);
        ReversedTwice(Evaluations(gates[j..], values));
        reversedEvaluations := reversedEvaluations + [currentInput];
      }
      assert gates[0..] == gates;
      ReversedTwice(Evaluations(gates, values));
      reversedEvaluations := Reversed(reversedEvaluations);
      result := CircuitEvaluationResult(reversedEvaluations[0], reversedEvaluations);
    }

    /**
     * `add_i_and_mul_i_mle`: two zero tables over the 2^n indices of layer
     * i's (output, left, right) bits, with a one at the position of every
     * ADD (respectively MUL) gate.
     */
    method AddIAndMulIMle(layerIndex: nat) returns (addI: seq<Fe>, mulI: seq<Fe>)
      requires layerIndex < |layers|
      requires NumOfLayerVariables(layerIndex) < 64
      requires PositionsFit(layers[layerIndex].gates, layerIndex)
      ensures addI == Indicator(layers[layerIndex].gates, ADD, layerIndex)
      ensures mulI == Indicator(layers[layerIndex].gates, MUL, layerIndex)
    {
      var numberOfLayerVariables := NumOfLayerVariables(layerIndex);
      var booleanHypercubeCombinations := Pow2(numberOfLayerVariables);
      var addIValues := new Fe[booleanHypercubeCombinations](_ => 0);
      var mulIValues := new Fe[booleanHypercubeCombinations](_ => 0);
      var gates := layers[layerIndex].gates;
      assert addIValues[..] == Indicator(gates[..0], ADD, layerIndex);
      assert mulIValues[..] == Indicator(gates[..0], MUL, layerIndex);
      for j := 0 to |gates|
        invariant addIValues[..] == Indicator(gates[..j], ADD, layerIndex)
        invariant mulIValues[..] == Indicator(gates[..j], MUL, layerIndex)
      {
        MarkGate(addIValues, mulIValues, gates, j, layerIndex);
      }
      assert gates[..|gates|] == gates;
      addI := addIValues[..];
      mulI := mulIValues[..];
    }
  }

  // ---------------------------------------------------------------------
  // Wiring predicates
  // ---------------------------------------------------------------------

  /** `num_of_layer_variables`: 3 for the output layer, i + (i + 1) + (i + 1) after it. */
  function NumOfLayerVariables(layerIndex: nat): (n: nat)
    ensures n == OutputBits(layerIndex) + 2 * InputBits(layerIndex)
  {
    if layerIndex == 0 then 3
    else
      var varALength := layerIndex;
      var varBLength := varALength + 1;
      var varCLength := varALength + 1;
      varALength + varBLength + varCLength
  }

  /** The digits of an in-range output index of layer i: i, but one for layer 0 (a width of 0 still gives a digit). */
  function OutputBits(layerIndex: nat): nat
  {
    if layerIndex == 0 then 1 else layerIndex
  }

  /** The digits of an in-range input index of layer i. */
  function InputBits(layerIndex: nat): nat
  {
    layerIndex + 1
  }

  /** Where a gate sits in the wiring tables of layer i. */
  function GatePosition(layerIndex: nat, gate: Gate): nat
  {
    ConvertToBinaryAndToDecimal(layerIndex, gate.output, gate.left, gate.right)
  }

  /** Every gate's position lies inside the tables (otherwise the write panics). */
  predicate PositionsFit(gates: seq<Gate>, layerIndex: nat)
  {
    forall j :: 0 <= j < |gates| ==> GatePosition(layerIndex, gates[j]) < Pow2(NumOfLayerVariables(layerIndex))
  }

  /** Some gate with operation `operation` sits at position k. */
  predicate Marked(gates: seq<Gate>, operation: Operation, layerIndex: nat, k: nat)
  {
    exists j :: 0 <= j < |gates| && gates[j].operation == operation && GatePosition(layerIndex, gates[j]) == k
  }

  function Mark(gates: seq<Gate>, operation: Operation, layerIndex: nat, k: nat): Fe
  {
    if Marked(gates, operation, layerIndex, k) then 1 else 0
  }

  /** The reference wiring table: one at the positions of the gates with the operation, zero elsewhere. */
  function Indicator(gates: seq<Gate>, operation: Operation, layerIndex: nat): (table: seq<Fe>)
    ensures |table| == Pow2(NumOfLayerVariables(layerIndex))
  {
    seq(Pow2(NumOfLayerVariables(layerIndex)), k requires 0 <= k < Pow2(NumOfLayerVariables(layerIndex)) =>
      Mark(gates, operation, layerIndex, k))
  }

  /** Taking one more gate marks its position for its operation and nothing else. */
  lemma MarkedSnoc(gates: seq<Gate>, operation: Operation, layerIndex: nat, j: nat, k: nat)
    requires j < |gates|
    ensures Marked(gates[..j + 1], operation, layerIndex, k) <==>
        (Marked(gates[..j], operation, layerIndex, k)
         || (gates[j].operation == operation && GatePosition(layerIndex, gates[j]) == k))
  {
    var prefix, longer := gates[..j], gates[..j + 1];
    if Marked(longer, operation, layerIndex, k) {
      var m :| 0 <= m < j + 1 && longer[m].operation == operation && GatePosition(layerIndex, longer[m]) == k;
      if m < j {
        assert prefix[m] == longer[m];
      }
    }
    if Marked(prefix, operation, layerIndex, k) {
      var m :| 0 <= m < j && prefix[m].operation == operation && GatePosition(layerIndex, prefix[m]) == k;
      assert longer[m] == prefix[m];
    }
    if gates[j].operation == operation && GatePosition(layerIndex, gates[j]) == k {
      assert longer[j] == gates[j];
    }
  }

  /**
   * The body of `add_i_and_mul_i_mle`'s loop: gate j sets its position to
   * one in the table of its operation, so both tables take one more gate.
   */
  method MarkGate(addIValues: array<Fe>, mulIValues: array<Fe>, gates: seq<Gate>, j: nat, layerIndex: nat)
    requires addIValues != mulIValues && j < |gates| && PositionsFit(gates, layerIndex)
    requires addIValues[..] == Indicator(gates[..j], ADD, layerIndex)
    requires mulIValues[..] == Indicator(gates[..j], MUL, layerIndex)
    modifies addIValues, mulIValues
    ensures addIValues[..] == Indicator(gates[..j + 1], ADD, layerIndex)
    ensures mulIValues[..] == Indicator(gates[..j + 1], MUL, layerIndex)
  {
    var gate := gates[j];
    IndicatorSnoc(gates, ADD, layerIndex, j);
    IndicatorSnoc(gates, MUL, layerIndex, j);
    match gate.operation {
      case ADD =>
        var positionIndex := ConvertToBinaryAndToDecimal(layerIndex, gate.output, gate.left, gate.right);
        addIValues[positionIndex] := 1;
      case MUL =>
        var positionIndex := ConvertToBinaryAndToDecimal(layerIndex, gate.output, gate.left, gate.right);
        mulIValues[positionIndex] := 1;
    }
  }

  /** The wiring table after one more gate: a one written at its position if it has the operation. */
  lemma IndicatorSnoc(gates: seq<Gate>, operation: Operation, layerIndex: nat, j: nat)
    requires j < |gates| && GatePosition(layerIndex, gates[j]) < Pow2(NumOfLayerVariables(layerIndex))
    ensures Indicator(gates[..j + 1], operation, layerIndex)
         == if gates[j].operation == operation
            then Indicator(gates[..j], operation, layerIndex)[GatePosition(layerIndex, gates[j]) := 1]
            else Indicator(gates[..j], operation, layerIndex)
  {
    var before := Indicator(gates[..j], operation, layerIndex);
    var after := Indicator(gates[..j + 1], operation, layerIndex);
    var expected := if gates[j].operation == operation then before[GatePosition(layerIndex, gates[j]) := 1] else before;
    forall k | 0 <= k < |after|
      ensures after[k] == expected[k]
    {
      MarkedSnoc(gates, operation, layerIndex, j, k);
    }
  }

  // ---------------------------------------------------------------------
  // Binary strings
  // ---------------------------------------------------------------------

  predicate IsBinary(s: string)
  {
    forall k :: 0 <= k < |s| ==> s[k] == '0' || s[k] == '1'
  }

  /** The number a string of binary digits names, most significant digit first. */
  function BinaryValue(s: string): nat
    requires IsBinary(s)
  {
    if |s| == 0 then 0 else 2 * BinaryValue(s[..|s| - 1]) + (if s[|s| - 1] == '1' then 1 else 0)
  }

  function Digit(bit: nat): char
    requires bit < 2
  {
    if bit == 0 then '0' else '1'
  }

  /** `format!("{:b}", n)`: the binary digits of n without leading zeros, "0" for zero. */
  function Binary(n: nat): (s: string)
    ensures |s| >= 1 && IsBinary(s)
  {
    if n < 2 then [Digit(n)] else Binary(n / 2) + [Digit(n % 2)]
  }

  function Zeros(k: nat): (s: string)
    ensures |s| == k && IsBinary(s)
  {
    seq(k, _ => '0')
  }

  /** The binary digits of n name n. */
  lemma {:induction false} BinaryValueOfBinary(n: nat)
    ensures BinaryValue(Binary(n)) == n
    decreases n
  {
    if n >= 2 {
      BinaryValueOfBinary(n / 2);
      var s := Binary(n);
      assert s[..|s| - 1] == Binary(n / 2);
    }
  }

  /** For w >= 1, n has at most w binary digits exactly when n < 2^w. */
  lemma {:induction false} BinaryLength(n: nat, w: nat)
    requires w >= 1
    ensures |Binary(n)| <= w <==> n < Pow2(w)
    decreases n
  {
    Pow2Mono(1, w);
    if n >= 2 {
      if w == 1 {
        assert |Binary(n)| == |Binary(n / 2)| + 1;
      } else {
        BinaryLength(n / 2, w - 1);
        assert Pow2(w) == 2 * Pow2(w - 1);
      }
    }
  }

  /** Appending the digits y to x: value(x + y) = value(x) · 2^|y| + value(y). */
  lemma {:induction false} BinaryValueAppend(x: string, y: string)
    requires IsBinary(x) && IsBinary(y)
    ensures IsBinary(x + y)
    ensures BinaryValue(x + y) == BinaryValue(x) * Pow2(|y|) + BinaryValue(y)
    decreases |y|
  {
    if |y| == 0 {
      assert x + y == x;
    } else {
      var y' := y[..|y| - 1];
      assert (x + y)[..|x + y| - 1] == x + y';
      BinaryValueAppend(x, y');
      assert Pow2(|y|) == 2 * Pow2(|y'|);
      ShiftDigit(BinaryValue(x), Pow2(|y'|), BinaryValue(y'), if y[|y| - 1] == '1' then 1 else 0);
    }
  }

  lemma ShiftDigit(v: int, p: int, w: int, b: int)
    ensures 2 * (v * p + w) + b == v * (2 * p) + (2 * w + b)
  {
  }

  /** (a · p + b) · p + c = a · p² + b · p + c. */
  lemma Horner(a: int, b: int, c: int, p: int)
    ensures (a * p + b) * p + c == a * (p * p) + b * p + c
  {
    assert (a * p) * p == a * (p * p);
  }

  lemma MulMonoLeft(x: int, y: int, z: int)
    requires x >= y && z >= 0
    ensures x * z >= y * z
  {
    assert x * z - y * z == (x - y) * z;
  }

  /** A run of zeros names zero. */
  lemma {:induction false} ZerosValue(k: nat)
    ensures BinaryValue(Zeros(k)) == 0
    decreases k
  {
    if k > 0 {
      assert Zeros(k)[..k - 1] == Zeros(k - 1);
      ZerosValue(k - 1);
    }
  }

  /** A string of w binary digits names a number below 2^w. */
  lemma {:induction false} BinaryValueBound(s: string)
    requires IsBinary(s)
    ensures BinaryValue(s) < Pow2(|s|)
    decreases |s|
  {
    if |s| > 0 {
      BinaryValueBound(s[..|s| - 1]);
    }
  }

  /**
   * `convert_decimal_to_padded_binary` (`format!("{:0>width$b}")`): the
   * binary digits of the number, left-padded with zeros to the width.
   */
  function ConvertDecimalToPaddedBinary(decimalNumber: nat, bitLength: nat): (s: string)
    ensures IsBinary(s)
  {
    var binary := Binary(decimalNumber);
    if |binary| < bitLength then Zeros(bitLength - |binary|) + binary else binary
  }

  /**
   * The padded string names the number and has at least `bitLength` and
   * at least one digit; a number below 2^bitLength takes exactly
   * `bitLength` digits, and a width of 0 still gives the unpadded digits.
   */
  lemma PaddedBinary(decimalNumber: nat, bitLength: nat)
    ensures var s := ConvertDecimalToPaddedBinary(decimalNumber, bitLength);
      && BinaryValue(s) == decimalNumber
      && |s| >= 1 && |s| >= bitLength
      && (bitLength >= 1 && decimalNumber < Pow2(bitLength) ==> |s| == bitLength)
      && (bitLength == 0 ==> s == Binary(decimalNumber))
  {
    var binary := Binary(decimalNumber);
    BinaryValueOfBinary(decimalNumber);
    if bitLength >= 1 {
      BinaryLength(decimalNumber, bitLength);
    }
    if |binary| < bitLength {
      ZerosValue(bitLength - |binary|);
      BinaryValueAppend(Zeros(bitLength - |binary|), binary);
    }
  }

  /** The crate's padding of 0 to width 0 is "0", one digit. */
  lemma ZeroWidthStillOneDigit()
    ensures ConvertDecimalToPaddedBinary(0, 0) == "0"
    ensures ConvertDecimalToPaddedBinary(5, 0) == "101"
  {
    assert Binary(5) == Binary(2) + ['1'];
    assert Binary(2) == Binary(1) + ['0'];
  }

  /**
   * `transform_decimal_to_padded_binary` (unused by the crate): raises a
   * width of 0 to 1, then prepends `width - digits` zeros, saturating at 0.
   */
  function TransformDecimalToPaddedBinary(decimalNumber: nat, bitLength: nat): string
  {
    var width := if bitLength == 0 then 1 else bitLength;
    var binary := Binary(decimalNumber);
    var padding := if width >= |binary| then width - |binary| else 0;
    Zeros(padding) + binary
  }

  /** Both conversions give the same string for every number and width. */
  lemma TransformAgrees(decimalNumber: nat, bitLength: nat)
    ensures TransformDecimalToPaddedBinary(decimalNumber, bitLength)
         == ConvertDecimalToPaddedBinary(decimalNumber, bitLength)
  {
    var binary := Binary(decimalNumber);
    if bitLength <= |binary| {
      assert Zeros(0) + binary == binary;
    }
  }

  /** 2^64: `usize` values are below it. */
  const UsizeModulus: nat := Pow2(64)

  /**
   * `usize::from_str_radix(src, 2)`: an optional '+' sign followed by at
   * least one binary digit; a value of 2^64 or more is an overflow error.
   */
  function FromStrRadix2(src: string): (r: Option<nat>)
    ensures r.Some? ==> r.value < UsizeModulus
  {
    var digits := if |src| >= 1 && src[0] == '+' then src[1..] else src;
    if |digits| == 0 || !IsBinary(digits) then None
    else if BinaryValue(digits) >= UsizeModulus then None
    else Some(BinaryValue(digits))
  }

  /** The output index in `layerIndex` digits and the two input indices in `layerIndex + 1` digits each. */
  function CombinedBinary(layerIndex: nat, variableA: nat, variableB: nat, variableC: nat): (s: string)
    ensures IsBinary(s)
  {
    var aInBinary := ConvertDecimalToPaddedBinary(variableA, layerIndex);
    var bInBinary := ConvertDecimalToPaddedBinary(variableB, layerIndex + 1);
    var cInBinary := ConvertDecimalToPaddedBinary(variableC, layerIndex + 1);
    assert IsBinary(aInBinary + bInBinary);
    aInBinary + bInBinary + cInBinary
  }

  /**
   * `convert_to_binary_and_to_decimal`: the number the concatenated digits
   * name, or 0 when it does not fit in a `usize` (`unwrap_or(0)`).
   */
  function ConvertToBinaryAndToDecimal(layerIndex: nat, variableA: nat, variableB: nat, variableC: nat): nat
  {
    match FromStrRadix2(CombinedBinary(layerIndex, variableA, variableB, variableC))
    case Some(value) => value
    case None => 0
  }

  /** The index the three variables name: a · 2^(2(i+1)) + b · 2^(i+1) + c. */
  function PositionValue(layerIndex: nat, a: nat, b: nat, c: nat): nat
  {
    a * Pow2(2 * InputBits(layerIndex)) + b * Pow2(InputBits(layerIndex)) + c
  }

  /** The concatenated digits name the position a · 2^(2(i+1)) + b · 2^(i+1) + c. */
  lemma CombinedValue(layerIndex: nat, a: nat, b: nat, c: nat)
    requires b < Pow2(InputBits(layerIndex)) && c < Pow2(InputBits(layerIndex))
    ensures BinaryValue(CombinedBinary(layerIndex, a, b, c)) == PositionValue(layerIndex, a, b, c)
    ensures |CombinedBinary(layerIndex, a, b, c)| >= 1 && CombinedBinary(layerIndex, a, b, c)[0] != '+'
  {
    var m := InputBits(layerIndex);
    var p := Pow2(m);
    var sa := ConvertDecimalToPaddedBinary(a, layerIndex);
    var sb := ConvertDecimalToPaddedBinary(b, m);
    var sc := ConvertDecimalToPaddedBinary(c, m);
    PaddedBinary(a, layerIndex);
    PaddedBinary(b, m);
    PaddedBinary(c, m);
    BinaryValueAppend(sa, sb);
    BinaryValueAppend(sa + sb, sc);
    assert BinaryValue(sa + sb + sc) == (a * p + b) * p + c;
    Pow2Add(m, m);
    assert m + m == 2 * m;
    Horner(a, b, c, p);
    assert CombinedBinary(layerIndex, a, b, c) == sa + sb + sc;
    assert (sa + sb + sc)[0] == sa[0];
  }

  /**
   * With b and c below 2^(i+1), the position is a · 2^(2(i+1)) + b ·
   * 2^(i+1) + c, or 0 when that does not fit in 64 bits.
   */
  lemma ConvertToBinaryValue(layerIndex: nat, a: nat, b: nat, c: nat)
    requires b < Pow2(InputBits(layerIndex)) && c < Pow2(InputBits(layerIndex))
    ensures var v := PositionValue(layerIndex, a, b, c);
      ConvertToBinaryAndToDecimal(layerIndex, a, b, c) == if v < UsizeModulus then v else 0
  {
    CombinedValue(layerIndex, a, b, c);
  }

  /** The indices of a gate of layer i that fit its digits. */
  predicate TripleInRange(layerIndex: nat, a: nat, b: nat, c: nat)
  {
    a < Pow2(OutputBits(layerIndex)) && b < Pow2(InputBits(layerIndex)) && c < Pow2(InputBits(layerIndex))
  }

  /**
   * For indices that fit their digits, the digits number
   * `num_of_layer_variables(i)` and the position is a · 2^(2(i+1)) +
   * b · 2^(i+1) + c, below 2^num_of_layer_variables(i).
   */
  lemma PositionInRange(layerIndex: nat, a: nat, b: nat, c: nat)
    requires TripleInRange(layerIndex, a, b, c) && NumOfLayerVariables(layerIndex) <= 64
    ensures |CombinedBinary(layerIndex, a, b, c)| == NumOfLayerVariables(layerIndex)
    ensures ConvertToBinaryAndToDecimal(layerIndex, a, b, c) == PositionValue(layerIndex, a, b, c)
    ensures PositionValue(layerIndex, a, b, c) < Pow2(NumOfLayerVariables(layerIndex))
  {
    var m := InputBits(layerIndex);
    PaddedBinary(a, layerIndex);
    PaddedBinary(b, m);
    PaddedBinary(c, m);
    if layerIndex == 0 {
      BinaryLength(a, 1);
    }
    var combined := CombinedBinary(layerIndex, a, b, c);
    BinaryValueBound(combined);
    CombinedValue(layerIndex, a, b, c);
    ConvertToBinaryValue(layerIndex, a, b, c);
    Pow2Mono(NumOfLayerVariables(layerIndex), 64);
  }

  /** Different in-range index triples sit at different positions. */
  lemma PositionInjective(layerIndex: nat, a: nat, b: nat, c: nat, a': nat, b': nat, c': nat)
    requires TripleInRange(layerIndex, a, b, c) && TripleInRange(layerIndex, a', b', c')
    requires PositionValue(layerIndex, a, b, c) == PositionValue(layerIndex, a', b', c')
    ensures a == a' && b == b' && c == c'
  {
    var p := Pow2(InputBits(layerIndex));
    Pow2Add(InputBits(layerIndex), InputBits(layerIndex));
    assert InputBits(layerIndex) + InputBits(layerIndex) == 2 * InputBits(layerIndex);
    var v := PositionValue(layerIndex, a, b, c);
    Horner(a, b, c, p);
    Horner(a', b', c', p);
    DivModUnique(v, p, a * p + b, c);
    DivModUnique(v, p, a' * p + b', c');
    DivModUnique(a * p + b, p, a, b);
    DivModUnique(a' * p + b', p, a', b');
  }

  /** Every gate of layer i has indices that fit their digits. */
  predicate GatesInRange(gates: seq<Gate>, layerIndex: nat)
  {
    forall j :: 0 <= j < |gates| ==> TripleInRange(layerIndex, gates[j].output, gates[j].left, gates[j].right)
  }

  /** Gates whose indices fit their digits have positions inside the tables. */
  lemma GatesInRangeFit(gates: seq<Gate>, layerIndex: nat)
    requires GatesInRange(gates, layerIndex) && NumOfLayerVariables(layerIndex) <= 64
    ensures PositionsFit(gates, layerIndex)
  {
    forall j | 0 <= j < |gates|
      ensures GatePosition(layerIndex, gates[j]) < Pow2(NumOfLayerVariables(layerIndex))
    {
      PositionInRange(layerIndex, gates[j].output, gates[j].left, gates[j].right);
    }
  }

  /** A gate marked at the position of an in-range triple has exactly those indices. */
  lemma MarkedGate(gates: seq<Gate>, operation: Operation, layerIndex: nat, a: nat, b: nat, c: nat)
    requires GatesInRange(gates, layerIndex) && NumOfLayerVariables(layerIndex) <= 64
    requires TripleInRange(layerIndex, a, b, c)
    requires Marked(gates, operation, layerIndex, PositionValue(layerIndex, a, b, c))
    ensures exists j :: 0 <= j < |gates| && gates[j] == Gate(b, c, a, operation)
  {
    var j :| 0 <= j < |gates| && gates[j].operation == operation
             && GatePosition(layerIndex, gates[j]) == PositionValue(layerIndex, a, b, c);
    var g := gates[j];
    PositionInRange(layerIndex, g.output, g.left, g.right);
    PositionInjective(layerIndex, a, b, c, g.output, g.left, g.right);
    assert gates[j] == Gate(b, c, a, operation);
  }

  /**
   * The wiring table of an operation is one at the position of (a, b, c)
   * exactly when the layer has a gate with that operation, output a, left
   * input b and right input c.
   */
  lemma IndicatorAtGate(gates: seq<Gate>, operation: Operation, layerIndex: nat, a: nat, b: nat, c: nat)
    requires GatesInRange(gates, layerIndex) && NumOfLayerVariables(layerIndex) <= 64
    requires TripleInRange(layerIndex, a, b, c)
    ensures PositionValue(layerIndex, a, b, c) < Pow2(NumOfLayerVariables(layerIndex))
    ensures Indicator(gates, operation, layerIndex)[PositionValue(layerIndex, a, b, c)] == 1
        <==> exists j :: 0 <= j < |gates| && gates[j] == Gate(b, c, a, operation)
    ensures Indicator(gates, operation, layerIndex)[PositionValue(layerIndex, a, b, c)] in {0, 1}
  {
    PositionInRange(layerIndex, a, b, c);
    var k := PositionValue(layerIndex, a, b, c);
    if Marked(gates, operation, layerIndex, k) {
      MarkedGate(gates, operation, layerIndex, a, b, c);
    }
    if exists j :: 0 <= j < |gates| && gates[j] == Gate(b, c, a, operation) {
      GateMarked(gates, operation, layerIndex, a, b, c);
    }
  }

  lemma GateMarked(gates: seq<Gate>, operation: Operation, layerIndex: nat, a: nat, b: nat, c: nat)
    requires exists j :: 0 <= j < |gates| && gates[j] == Gate(b, c, a, operation)
    ensures Marked(gates, operation, layerIndex, GatePosition(layerIndex, Gate(b, c, a, operation)))
  {
    var j :| 0 <= j < |gates| && gates[j] == Gate(b, c, a, operation);
    assert gates[j].operation == operation;
  }

  /** Every index of the tables is the position of exactly one in-range triple. */
  lemma PositionOnto(layerIndex: nat, k: nat) returns (a: nat, b: nat, c: nat)
    requires k < Pow2(NumOfLayerVariables(layerIndex))
    ensures TripleInRange(layerIndex, a, b, c) && PositionValue(layerIndex, a, b, c) == k
  {
    var p := Pow2(InputBits(layerIndex));
    Pow2Add(InputBits(layerIndex), InputBits(layerIndex));
    Pow2Add(OutputBits(layerIndex), 2 * InputBits(layerIndex));
    assert InputBits(layerIndex) + InputBits(layerIndex) == 2 * InputBits(layerIndex);
    a, b, c := Digits3(k, p, Pow2(OutputBits(layerIndex)));
  }

  /** A number below t · p² has base-p digits a < t, b < p, c < p. */
  lemma Digits3(k: nat, p: nat, t: nat) returns (a: nat, b: nat, c: nat)
    requires p >= 1 && t >= 1 && k < t * (p * p)
    ensures a < t && b < p && c < p && a * (p * p) + b * p + c == k
  {
    var q: nat := k / p;
    c := k % p;
    b := q % p;
    a := q / p;
    Horner(a, b, c, p);
    assert b * p + c >= 0;
    if a >= t {
      MulMonoLeft(a, t, p * p);
    }
  }
}
