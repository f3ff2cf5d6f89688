/** A layer of a circuit: its gates, in the order they were given and appended. */
module Layers {
  import opened Gates

  class Layer {
    var gates: seq<Gate>

    /** `Layer::new`: keeps the gates in the given order. */
    constructor (gates: seq<Gate>)
      ensures this.gates == gates
    {
      this.gates := gates;
    }

    /** `update_layer`: pushes one gate at the end; the earlier gates stay where they were. */
    method UpdateLayer(layerGate: Gate)
      modifies this
      ensures gates == old(gates) + [layerGate]
      ensures |gates| == |old(gates)| + 1 && gates[|gates| - 1] == layerGate
      ensures forall k :: 0 <= k < |old(gates)| ==> gates[k] == old(gates)[k]
    {
      gates := gates + [layerGate];
    }
  }
}
