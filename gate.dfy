/**
 * A gate of a layered arithmetic circuit: it reads entries `left` and
 * `right` of the layer below, combines them by addition or multiplication,
 * and contributes the result to entry `output` of its own layer.
 */
module Gates {
  import opened Field

  datatype Operation = ADD | MUL

  /** `Operation::operations`: ADD adds the two values, MUL multiplies them. */
  function Operations(operation: Operation, left: Fe, right: Fe): (r: Fe)
    ensures operation == ADD ==> r == Add(left, right)
    ensures operation == MUL ==> r == Mul(left, right)
  {
    match operation
    case ADD => Add(left, right)
    case MUL => Mul(left, right)
  }

  /** The indices are `usize` in the crate; the model leaves them unbounded. */
  datatype Gate = Gate(left: nat, right: nat, output: nat, operation: Operation)

  /** `Gate::new`: stores the four arguments as given. */
  function NewGate(left: nat, right: nat, output: nat, operation: Operation): (gate: Gate)
    ensures gate.left == left && gate.right == right && gate.output == output && gate.operation == operation
  {
    Gate(left, right, output, operation)
  }
}
