/**
 * The GKR protocol over a layered circuit (gkr_p.rs).  The prover
 * commits to the output layer, draws r_a, and runs one sum-check per
 * layer, output layer first, on f(b, c) = add_i(b, c)·(W(b) + W(c)) +
 * mul_i(b, c)·W(b)·W(c); between layers it sends W(r_b), W(r_c) and the
 * transcript folds the two into one claim with α and β.  The verifier
 * replays the transcript, checks each sum-check and recomputes the last
 * claim of each from the wiring tables, evaluating the inputs itself at
 * the last layer.
 *
 * Both sides are given first as functions of the layer reached
 * (`ProverAfter`, `VerifierAfter`); `Prove` and `Verify` are proved to
 * compute them.  Keccak-256 is the parameter `hash` of the transcripts.
 */
module Gkr {
  import opened Field
  import opened Encoding
  import opened Hypercube
  import opened MultilinearEV
  import opened MleTheory
  import opened Wrappers
  import opened Transcripts
  import opened Gates
  import opened Layers
  import opened Circuits
  import opened SumcheckUtility
  import WB = WbBcUtility
  import SC = GkrSumcheck
  import SumPoly
  import ProductPoly

  /** `Proof`: the output, the last running claim, one sum-check per layer and W(r_b), W(r_c) between layers. */
  datatype Proof = Proof(
    circuitOutput: seq<Fe>,
    claimedSum: Fe,
    sumcheckProofs: seq<SC.SumcheckProverProof>,
    wbEvaluations: seq<Fe>,
    wcEvaluations: seq<Fe>)

  // ---------------------------------------------------------------------
  // Shapes
  // ---------------------------------------------------------------------

  /**
   * The circuits the protocol is modelled on: at least one layer; each
   * layer's wiring fits its tables; the output has one or two values and
   * the values of layer j ≥ 1 (layer L being the inputs) form a table of
   * j variables, the number of input variables of layer j - 1.
   */
  predicate Layered(gates: seq<seq<Gate>>, evals: seq<seq<Fe>>)
  {
    && |gates| >= 1 && |evals| == |gates| + 1
    && 1 <= |evals[0]| <= 2
    && (forall i :: 0 <= i < |gates| ==> NumOfLayerVariables(i) < 64 && PositionsFit(gates[i], i))
    && (forall j :: 1 <= j <= |gates| ==> IsTable(evals[j], j))
  }

  /**
   * The output table the transcript absorbs: a single value is padded
   * with a zero so that it has one variable.
   */
  function W0Table(output: seq<Fe>): (w0: seq<Fe>)
    ensures |output| == 1 ==> w0 == [output[0], 0]
    ensures |output| != 1 ==> w0 == output
  {
    if |output| == 1 then output + [0] else output
  }

  /**
   * The first claim, W_0 evaluated at r_a: on one or two output values it
   * is the line through the first value and the second (or zero) at r_a.
   */
  lemma InitialClaimValue(output: seq<Fe>, ra: Fe)
    requires 1 <= |output| <= 2
    ensures IsTable(W0Table(output), 1) && EvalOk(W0Table(output), [ra])
    ensures Eval(W0Table(output), [ra]) == Lerp(output[0], if |output| == 2 then output[1] else 0, ra)
  {
    var hi := if |output| == 2 then output[1] else 0;
    assert W0Table(output) == [output[0], hi];
    EvalLine(output[0], hi, ra);
  }

  /** r_a: the challenge drawn after a fresh transcript absorbs the padded output. */
  function FirstChallenge(hash: Bytes -> Digest, output: seq<Fe>): Fe
  {
    Challenged(Absorbed(Fresh(hash), EncodeBe(W0Table(output)))).0
  }

  // ---------------------------------------------------------------------
  // The prover, layer by layer
  // ---------------------------------------------------------------------

  /** The prover's loop variables: transcript, running claim, α, β, r_b, r_c and what it has sent. */
  datatype ProverState = ProverState(
    sponge: Sponge, claimedSum: Fe, alpha: Fe, beta: Fe,
    rbValues: seq<Fe>, rcValues: seq<Fe>,
    layerProofs: seq<SC.SumcheckProverProof>, wbEvaluations: seq<Fe>, wcEvaluations: seq<Fe>)

  /** Before layer i ≥ 1, r_b and r_c each hold one value per output variable of layer i. */
  predicate ProverReady(i: nat, st: ProverState)
  {
    i == 0 || |st.rbValues| == |st.rcValues| == i
  }

  /**
   * add_i(b, c) or mul_i(b, c) of layer i: layer 0 binds the output
   * variable to r_a, a later layer folds its output variables at r_b and
   * r_c with α and β.  Either way a table of the 2(i+1) input variables.
   */
  function LayerWiring(gates: seq<Gate>, i: nat, operation: Operation, ra: Fe, st: ProverState): (w: seq<Fe>)
    requires ProverReady(i, st)
    ensures IsTable(w, 2 * InputBits(i))
  {
    if i == 0 then WB.InitialWiring(gates, 0, operation, ra)
    else WB.Folded(Indicator(gates, operation, i), NumOfLayerVariables(i), st.alpha, st.beta, st.rbValues, st.rcValues)
  }

  /** The products of f(b, c) for layer i, with W the values of layer i + 1. */
  function LayerProducts(gates: seq<Gate>, i: nat, w: seq<Fe>, ra: Fe, st: ProverState): (pps: seq<ProductPoly.ProductPolynomial>)
    requires ProverReady(i, st) && IsTable(w, InputBits(i))
    ensures SC.RoundReady(pps, 2 * InputBits(i))
  {
    WB.FbcTables(LayerWiring(gates, i, ADD, ra, st), LayerWiring(gates, i, MUL, ra, st), w, w, InputBits(i));
    WB.FbcProducts(LayerWiring(gates, i, ADD, ra, st), LayerWiring(gates, i, MUL, ra, st), w, w)
  }

  /**
   * The sum-check the prover runs for layer i: the claimed sum absorbed,
   * then 2(i+1) rounds whose messages the strategy chooses (`prove` plays
   * `SC.Honest(2)`, f(b, c) being of degree 2 in each variable).
   */
  function LayerRun(strategy: SC.Strategy, gates: seq<Gate>, i: nat, w: seq<Fe>, ra: Fe, st: ProverState): (out: SC.ProverRun)
    requires ProverReady(i, st) && IsTable(w, InputBits(i))
    ensures |out.messages| == 2 * InputBits(i) && |out.challenges| == 2 * InputBits(i)
  {
    var s := Absorbed(st.sponge, FieldElementToBytes(st.claimedSum));
    SC.ProveRoundsLength(s, LayerProducts(gates, i, w, ra, st), 2 * InputBits(i), strategy);
    SC.ProveRounds(s, LayerProducts(gates, i, w, ra, st), 2 * InputBits(i), strategy)
  }

  /**
   * What the prover does after a sum-check that is not the last: it sends
   * W(r_b) and W(r_c) at the two halves of the challenges, absorbing each
   * and drawing α after the first and β after the second, and the claim
   * becomes α·W(r_b) + β·W(r_c).
   */
  function Forwarded(w: seq<Fe>, k: nat, out: SC.ProverRun, st: ProverState): (next: ProverState)
    requires IsTable(w, k) && |out.challenges| == 2 * k
    ensures |next.rbValues| == |next.rcValues| == k
  {
    var rb, rc := out.challenges[..k], out.challenges[k..];
    TableEvalOk(w, k, rb);
    TableEvalOk(w, k, rc);
    var wb, wc := Eval(w, rb), Eval(w, rc);
    var drawnAlpha := Challenged(Absorbed(out.sponge, FieldElementToBytes(wb)));
    var drawnBeta := Challenged(Absorbed(drawnAlpha.1, FieldElementToBytes(wc)));
    ProverState(drawnBeta.1, Add(Mul(drawnAlpha.0, wb), Mul(drawnBeta.0, wc)), drawnAlpha.0, drawnBeta.0,
                rb, rc, st.layerProofs, st.wbEvaluations + [wb], st.wcEvaluations + [wc])
  }

  /** The k-th sum-check proof has two rounds per input variable of layer k. */
  predicate RoundCounts(proofs: seq<SC.SumcheckProverProof>)
  {
    forall k :: 0 <= k < |proofs| ==> |proofs[k].roundUnivariatePolynomials| == 2 * InputBits(k)
  }

  /** Appending a proof with the round count of the next layer keeps `RoundCounts`. */
  lemma RoundCountsAppended(proofs: seq<SC.SumcheckProverProof>, p: SC.SumcheckProverProof, i: nat)
    ensures |proofs| == i && RoundCounts(proofs) && |p.roundUnivariatePolynomials| == 2 * InputBits(i)
            ==> RoundCounts(proofs + [p])
  {
    if |proofs| == i && RoundCounts(proofs) && |p.roundUnivariatePolynomials| == 2 * InputBits(i) {
      forall k | 0 <= k < |proofs| + 1
        ensures |(proofs + [p])[k].roundUnivariatePolynomials| == 2 * InputBits(k)
      {
        if k < |proofs| {
          assert (proofs + [p])[k] == proofs[k];
        }
      }
    }
  }

  /** The state with layer i's sum-check proof, claiming the running claim, appended to what was sent. */
  function WithRounds(st: ProverState, i: nat, out: SC.ProverRun): (next: ProverState)
    requires |out.messages| == 2 * InputBits(i)
    ensures next == st.(layerProofs := next.layerProofs)
    ensures |next.layerProofs| == |st.layerProofs| + 1
    ensures |st.layerProofs| == i && RoundCounts(st.layerProofs) ==> RoundCounts(next.layerProofs)
  {
    var proof := SC.SumcheckProverProof(st.claimedSum, out.messages, out.challenges);
    RoundCountsAppended(st.layerProofs, proof, i);
    st.(layerProofs := st.layerProofs + [proof])
  }

  /**
   * One pass of the prover's loop on layer i, whose next layer's values
   * are w: the layer's sum-check proof is appended and, unless it is the
   * last layer, the evaluations are forwarded; after the last one only
   * the transcript moves on.
   */
  function ProveLayer(strategy: SC.Strategy, gates: seq<Gate>, i: nat, w: seq<Fe>, last: bool, ra: Fe, st: ProverState): (next: ProverState)
    requires IsTable(w, InputBits(i)) && ProverReady(i, st)
    ensures |next.layerProofs| == |st.layerProofs| + 1
    ensures |st.layerProofs| == i && RoundCounts(st.layerProofs) ==> RoundCounts(next.layerProofs)
    ensures |next.wbEvaluations| == |st.wbEvaluations| + (if last then 0 else 1)
    ensures |next.wcEvaluations| == |st.wcEvaluations| + (if last then 0 else 1)
    ensures last || ProverReady(i + 1, next)
  {
    var out := LayerRun(strategy, gates, i, w, ra, st);
    var sent := WithRounds(st, i, out);
    if last then sent.(sponge := out.sponge)
    else Forwarded(w, InputBits(i), out, sent)
  }

  /** What `Layered` says about layer i: its wiring fits and the next layer's values form a table of its input variables. */
  lemma LayeredAt(gates: seq<seq<Gate>>, evals: seq<seq<Fe>>, i: nat)
    requires Layered(gates, evals) && i < |gates|
    ensures NumOfLayerVariables(i) < 64 && PositionsFit(gates[i], i)
    ensures IsTable(evals[i + 1], InputBits(i))
  {
  }

  /** The prover's state before its loop: the transcript after r_a, the claim W_0(r_a), α = β = 0. */
  function ProverStart(evals: seq<seq<Fe>>, hash: Bytes -> Digest): (st: ProverState)
    requires |evals| >= 1 && 1 <= |evals[0]| <= 2
    ensures st.layerProofs == [] && st.wbEvaluations == [] && st.wcEvaluations == []
  {
    var drawn := Challenged(Absorbed(Fresh(hash), EncodeBe(W0Table(evals[0]))));
    InitialClaimValue(evals[0], drawn.0);
    ProverState(drawn.1, Eval(W0Table(evals[0]), [drawn.0]), 0, 0, [], [], [], [], [])
  }

  /** The prover's state after the first i layers: the start, then what pass i - 1 leaves. */
  function ProverAfter(strategy: SC.Strategy, gates: seq<seq<Gate>>, evals: seq<seq<Fe>>, hash: Bytes -> Digest, i: nat): ProverState
    requires |evals| >= 1 && 1 <= |evals[0]| <= 2
    decreases i, 0
  {
    if i == 0 then ProverStart(evals, hash) else ProverPass(strategy, gates, evals, hash, i - 1)
  }

  /**
   * Pass i of the prover's loop: layer i run on the values of layer i + 1
   * from the state after the first i layers; a pass past the last layer,
   * or from a state not ready for it, leaves the state as it is.
   */
  function ProverPass(strategy: SC.Strategy, gates: seq<seq<Gate>>, evals: seq<seq<Fe>>, hash: Bytes -> Digest, i: nat): ProverState
    requires |evals| >= 1 && 1 <= |evals[0]| <= 2
    decreases i, 2
  {
    if i < |gates| && i + 1 < |evals| && IsTable(evals[i + 1], InputBits(i))
       && ProverReady(i, ProverAfter(strategy, gates, evals, hash, i))
    then ProvedLayer(strategy, gates, evals, hash, i)
    else ProverAfter(strategy, gates, evals, hash, i)
  }

  /** Layer i run on the values of layer i + 1 from the state after the first i layers. */
  function ProvedLayer(strategy: SC.Strategy, gates: seq<seq<Gate>>, evals: seq<seq<Fe>>, hash: Bytes -> Digest, i: nat): ProverState
    requires |evals| >= 1 && 1 <= |evals[0]| <= 2
    requires i < |gates| && i + 1 < |evals| && IsTable(evals[i + 1], InputBits(i))
    requires ProverReady(i, ProverAfter(strategy, gates, evals, hash, i))
    decreases i, 1
  {
    ProveLayer(strategy, gates[i], i, evals[i + 1], i + 1 == |gates|, FirstChallenge(hash, evals[0]),
               ProverAfter(strategy, gates, evals, hash, i))
  }

  /** The prover's state after i + 1 layers is layer i run on its state after i layers. */
  lemma ProverAfterNext(strategy: SC.Strategy, gates: seq<seq<Gate>>, evals: seq<seq<Fe>>, hash: Bytes -> Digest, i: nat)
    requires Layered(gates, evals) && i < |gates| && ProverReady(i, ProverAfter(strategy, gates, evals, hash, i))
    ensures IsTable(evals[i + 1], InputBits(i))
    ensures ProverAfter(strategy, gates, evals, hash, i + 1)
         == ProveLayer(strategy, gates[i], i, evals[i + 1], i + 1 == |gates|, FirstChallenge(hash, evals[0]),
                       ProverAfter(strategy, gates, evals, hash, i))
  {
    LayeredAt(gates, evals, i);
    assert ProverPass(strategy, gates, evals, hash, i) == ProvedLayer(strategy, gates, evals, hash, i);
  }

  /**
   * What pass i does to the shape of the prover's state on a layered
   * circuit: one more sum-check proof, with two rounds per input variable
   * of layer i, W(r_b) and W(r_c) sent unless layer i is the last, and a
   * state ready for layer i + 1.
   */
  lemma ProverAfterStep(strategy: SC.Strategy, gates: seq<seq<Gate>>, evals: seq<seq<Fe>>, hash: Bytes -> Digest, i: nat)
    requires Layered(gates, evals) && i < |gates| && ProverReady(i, ProverAfter(strategy, gates, evals, hash, i))
    ensures var st, next := ProverAfter(strategy, gates, evals, hash, i), ProverAfter(strategy, gates, evals, hash, i + 1);
      && |next.layerProofs| == |st.layerProofs| + 1
      && (|st.layerProofs| == i && RoundCounts(st.layerProofs) ==> RoundCounts(next.layerProofs))
      && |next.wbEvaluations| == |st.wbEvaluations| + (if i + 1 == |gates| then 0 else 1)
      && |next.wcEvaluations| == |st.wcEvaluations| + (if i + 1 == |gates| then 0 else 1)
      && (i + 1 < |gates| ==> ProverReady(i + 1, next))
  {
    ProverAfterNext(strategy, gates, evals, hash, i);
  }

  /**
   * After i layers of a layered circuit the prover has sent one sum-check
   * proof per layer and, before the last layer, holds one r_b and one r_c
   * value per output variable of the next layer.
   */
  lemma {:induction false} ProverAfterShape(strategy: SC.Strategy, gates: seq<seq<Gate>>, evals: seq<seq<Fe>>,
                                            hash: Bytes -> Digest, i: nat)
    requires Layered(gates, evals) && i <= |gates|
    ensures |ProverAfter(strategy, gates, evals, hash, i).layerProofs| == i
    ensures i < |gates| ==> ProverReady(i, ProverAfter(strategy, gates, evals, hash, i))
  {
    if i > 0 {
      ProverAfterShape(strategy, gates, evals, hash, i - 1);
      ProverAfterStep(strategy, gates, evals, hash, i - 1);
    }
  }

  /**
   * After i layers of a layered circuit the k-th sum-check proof has two
   * rounds per input variable of layer k, and W(r_b), W(r_c) were sent
   * for every layer so far but the last.
   */
  lemma {:induction false} ProverAfterProofs(strategy: SC.Strategy, gates: seq<seq<Gate>>, evals: seq<seq<Fe>>,
                                             hash: Bytes -> Digest, i: nat)
    requires Layered(gates, evals) && i <= |gates|
    ensures var st := ProverAfter(strategy, gates, evals, hash, i);
      && |st.layerProofs| == i && RoundCounts(st.layerProofs)
      && |st.wbEvaluations| == |st.wcEvaluations| == (if i == |gates| then i - 1 else i)
  {
    if i > 0 {
      ProverAfterProofs(strategy, gates, evals, hash, i - 1);
      ProverAfterShape(strategy, gates, evals, hash, i - 1);
      ProverAfterStep(strategy, gates, evals, hash, i - 1);
    }
  }

  /** After the last layer the running claim is left as it was: the claimed sum of that layer's sum-check. */
  lemma LastLayerKeepsClaim(strategy: SC.Strategy, gates: seq<Gate>, i: nat, w: seq<Fe>, ra: Fe, st: ProverState)
    requires IsTable(w, InputBits(i)) && ProverReady(i, st)
    ensures var next := ProveLayer(strategy, gates, i, w, true, ra, st);
      && next.claimedSum == st.claimedSum
      && next.layerProofs[|st.layerProofs|].claimedSum == st.claimedSum
  {
    var out := LayerRun(strategy, gates, i, w, ra, st);
    assert ProveLayer(strategy, gates, i, w, true, ra, st) == WithRounds(st, i, out).(sponge := out.sponge);
  }

  /** The proof the prover's loop leaves when its rounds are played by `strategy`. */
  function ProofFrom(strategy: SC.Strategy, gates: seq<seq<Gate>>, evals: seq<seq<Fe>>, hash: Bytes -> Digest): Proof
    requires Layered(gates, evals)
  {
    var st := ProverAfter(strategy, gates, evals, hash, |gates|);
    Proof(evals[0], st.claimedSum, st.layerProofs, st.wbEvaluations, st.wcEvaluations)
  }

  /** The proof `prove` returns on a circuit whose layer values are `evals`: its rounds are the honest ones of degree 2. */
  function ProofOf(gates: seq<seq<Gate>>, evals: seq<seq<Fe>>, hash: Bytes -> Digest): Proof
    requires Layered(gates, evals)
  {
    ProofFrom(SC.Honest(2), gates, evals, hash)
  }

  /** The claimed sum such a proof carries is the claimed sum of its last sum-check. */
  lemma ProofClaimedSum(strategy: SC.Strategy, gates: seq<seq<Gate>>, evals: seq<seq<Fe>>, hash: Bytes -> Digest)
    requires Layered(gates, evals)
    ensures var proof := ProofFrom(strategy, gates, evals, hash);
      |proof.sumcheckProofs| == |gates| && proof.claimedSum == proof.sumcheckProofs[|gates| - 1].claimedSum
  {
    var i := |gates| - 1;
    ProverAfterShape(strategy, gates, evals, hash, i);
    ProverAfterNext(strategy, gates, evals, hash, i);
    LastLayerKeepsClaim(strategy, gates[i], i, evals[i + 1], FirstChallenge(hash, evals[0]),
                        ProverAfter(strategy, gates, evals, hash, i));
  }

  /**
   * The wiring tables of layer `layerIndex` as `prove` computes them:
   * add_i and mul_i with the output variable bound to r_a on layer 0, and
   * folded at the previous r_b, r_c with α and β after it.
   */
  method LayerWiringTables(circuit: Circuit, layerIndex: nat, randomChallengeA: Fe, alpha: Fe, beta: Fe,
                           rbValues: seq<Fe>, rcValues: seq<Fe>, ghost st: ProverState)
    returns (addIBc: seq<Fe>, mulIBc: seq<Fe>)
    requires layerIndex < |circuit.layers| && NumOfLayerVariables(layerIndex) < 64
    requires PositionsFit(circuit.layers[layerIndex].gates, layerIndex) && ProverReady(layerIndex, st)
    requires st.alpha == alpha && st.beta == beta && st.rbValues == rbValues && st.rcValues == rcValues
    ensures addIBc == LayerWiring(circuit.layers[layerIndex].gates, layerIndex, ADD, randomChallengeA, st)
    ensures mulIBc == LayerWiring(circuit.layers[layerIndex].gates, layerIndex, MUL, randomChallengeA, st)
  {
    var addIAbc, mulIAbc := circuit.AddIAndMulIMle(layerIndex);
    if layerIndex == 0 {
      BindFirst(addIAbc, NumOfLayerVariables(0), randomChallengeA);
      BindFirst(mulIAbc, NumOfLayerVariables(0), randomChallengeA);
      addIBc := PartialEvaluate(addIAbc, 0, randomChallengeA);
      mulIBc := PartialEvaluate(mulIAbc, 0, randomChallengeA);
    } else {
      addIBc, mulIBc := WB.ComputeNewAddIMulI(alpha, beta, addIAbc, mulIAbc, rbValues, rcValues,
                                              NumOfLayerVariables(layerIndex));
    }
  }

  /**
   * The sum-check of layer `layerIndex` as `prove` runs it: f(b, c) is
   * built from the wiring tables and W, the next layer's values, and goes
   * through the sum-check on the shared transcript.
   */
  method LayerSumcheck(addIBc: seq<Fe>, mulIBc: seq<Fe>, wPoly: seq<Fe>, claimedSum: Fe, transcript: Transcript,
                       ghost gates: seq<Gate>, ghost i: nat, ghost ra: Fe, ghost st: ProverState)
    returns (sumcheckProof: SC.SumcheckProverProof)
    requires ProverReady(i, st) && IsTable(wPoly, InputBits(i))
    requires addIBc == LayerWiring(gates, i, ADD, ra, st) && mulIBc == LayerWiring(gates, i, MUL, ra, st)
    requires st.sponge == transcript.hasher && st.claimedSum == claimedSum
    modifies transcript
    ensures var out := LayerRun(SC.Honest(2), gates, i, wPoly, ra, st);
      sumcheckProof == SC.SumcheckProverProof(claimedSum, out.messages, out.challenges) && transcript.hasher == out.sponge
  {
    Log2OfPow2(InputBits(i));
    var fbcPolynomial := WB.ComputeFbcPolynomial(addIBc, mulIBc, wPoly, wPoly);
    assert fbcPolynomial.productPolynomials == LayerProducts(gates, i, wPoly, ra, st);
    SC.ProveReadyOnTables(fbcPolynomial, 2 * InputBits(i));
    sumcheckProof := SC.Prove(fbcPolynomial, claimedSum, transcript);
  }

  /**
   * The body of `prove`'s loop for layer `layerIndex`, whose next layer's
   * values are `wPoly`: layer 0 binds the wiring tables' output variable
   * to r_a, later layers fold them at the previous r_b, r_c with α and β;
   * f(b, c) goes through the sum-check on the shared transcript and,
   * unless the layer is the last, W(r_b) and W(r_c) are sent, α and β
   * drawn and the claim folded.
   */
  method ProveLayerStep(circuit: Circuit, layerIndex: nat, last: bool, wPoly: seq<Fe>, randomChallengeA: Fe,
                        transcript: Transcript, claimedSum: Fe, alpha: Fe, beta: Fe,
                        rbValues: seq<Fe>, rcValues: seq<Fe>, layerProofs: seq<SC.SumcheckProverProof>,
                        wbEvaluations: seq<Fe>, wcEvaluations: seq<Fe>, ghost gates: seq<Gate>, ghost st: ProverState)
    returns (claimedSum': Fe, alpha': Fe, beta': Fe, rbValues': seq<Fe>, rcValues': seq<Fe>,
             layerProofs': seq<SC.SumcheckProverProof>, wbEvaluations': seq<Fe>, wcEvaluations': seq<Fe>)
    requires layerIndex < |circuit.layers| && NumOfLayerVariables(layerIndex) < 64
    requires circuit.layers[layerIndex].gates == gates && PositionsFit(gates, layerIndex)
    requires IsTable(wPoly, InputBits(layerIndex)) && ProverReady(layerIndex, st)
    requires st == ProverState(transcript.hasher, claimedSum, alpha, beta, rbValues, rcValues,
                               layerProofs, wbEvaluations, wcEvaluations)
    modifies transcript
    ensures ProverState(transcript.hasher, claimedSum', alpha', beta', rbValues', rcValues',
                        layerProofs', wbEvaluations', wcEvaluations')
         == ProveLayer(SC.Honest(2), gates, layerIndex, wPoly, last, randomChallengeA, st)
  {
    var addIBc, mulIBc := LayerWiringTables(circuit, layerIndex, randomChallengeA, alpha, beta, rbValues, rcValues, st);
    var sumcheckProof := LayerSumcheck(addIBc, mulIBc, wPoly, claimedSum, transcript,
                                       gates, layerIndex, randomChallengeA, st);
    ghost var out := LayerRun(SC.Honest(2), gates, layerIndex, wPoly, randomChallengeA, st);
    layerProofs' := layerProofs + [sumcheckProof];
    claimedSum', alpha', beta', rbValues', rcValues' := claimedSum, alpha, beta, rbValues, rcValues;
    wbEvaluations', wcEvaluations' := wbEvaluations, wcEvaluations;
    if !last {
      var wbEvaluation, wcEvaluation;
      wbEvaluation, wcEvaluation, alpha', beta', rbValues', rcValues', claimedSum' :=
        SendEvaluations(wPoly, InputBits(layerIndex), sumcheckProof.randomChallenges, transcript,
                        out, st.(layerProofs := layerProofs'));
      wbEvaluations' := wbEvaluations + [wbEvaluation];
      wcEvaluations' := wcEvaluations + [wcEvaluation];
    }
  }

  /**
   * The end of `prove`'s loop body before the last layer: W(r_b) and
   * W(r_c) at the two halves of the sum-check's challenges are recorded
   * and absorbed, α drawn after the first and β after the second, and
   * the claim becomes α·W(r_b) + β·W(r_c).
   */
  method SendEvaluations(wPoly: seq<Fe>, ghost k: nat, sumcheckChallenges: seq<Fe>, transcript: Transcript,
                         ghost out: SC.ProverRun, ghost st: ProverState)
    returns (wbEvaluation: Fe, wcEvaluation: Fe, alpha: Fe, beta: Fe,
             rbValues: seq<Fe>, rcValues: seq<Fe>, claimedSum: Fe)
    requires IsTable(wPoly, k) && |sumcheckChallenges| == 2 * k
    requires out.challenges == sumcheckChallenges && out.sponge == transcript.hasher
    modifies transcript
    ensures ProverState(transcript.hasher, claimedSum, alpha, beta, rbValues, rcValues,
                        st.layerProofs, st.wbEvaluations + [wbEvaluation], st.wcEvaluations + [wcEvaluation])
         == Forwarded(wPoly, k, out, st)
  {
    TableEvalOk(wPoly, k, sumcheckChallenges[..k]);
    TableEvalOk(wPoly, k, sumcheckChallenges[k..]);
    wbEvaluation, wcEvaluation := WB.EvaluateWbWc(wPoly, wPoly, sumcheckChallenges);
    var middle := |sumcheckChallenges| / 2;
    rbValues := sumcheckChallenges[..middle];
    rcValues := sumcheckChallenges[middle..];
    transcript.Absorb(FieldElementToBytes(wbEvaluation));
    alpha := transcript.RandomChallengeAsFieldElement();
    transcript.Absorb(FieldElementToBytes(wcEvaluation));
    beta := transcript.RandomChallengeAsFieldElement();
    claimedSum := Add(Mul(alpha, wbEvaluation), Mul(beta, wcEvaluation));
  }

  /**
   * The start of `prove`: the output values, padded with a zero when
   * there is only one, are absorbed, r_a is drawn and the first claim is
   * the padded output evaluated at r_a.
   */
  method CommitOutput(circuitEvaluation: CircuitEvaluationResult, transcript: Transcript)
    returns (randomChallengeA: Fe, claimedSum: Fe)
    requires |circuitEvaluation.layerEvaluations| >= 1 && 1 <= |circuitEvaluation.layerEvaluations[0]| <= 2
    modifies transcript
    ensures var drawn := Challenged(Absorbed(old(transcript.hasher), EncodeBe(W0Table(circuitEvaluation.layerEvaluations[0]))));
      && randomChallengeA == drawn.0 && transcript.hasher == drawn.1
      && claimedSum == Eval(W0Table(circuitEvaluation.layerEvaluations[0]), [randomChallengeA])
  {
    var w0Polynomial := WIPolynomial(circuitEvaluation, 0).value;
    if |w0Polynomial| == 1 {
      w0Polynomial := w0Polynomial + [0];
    }
    var w0Bytes := ConvertToBytes(w0Polynomial);
    transcript.Absorb(w0Bytes);
    randomChallengeA := transcript.RandomChallengeAsFieldElement();
    InitialClaimValue(circuitEvaluation.layerEvaluations[0], randomChallengeA);
    claimedSum := Evaluate(w0Polynomial, [randomChallengeA]);
  }

  /** `ProveLayerStep` on layer `layerIndex` of a layered circuit, from the prover's state after the layers before it, leaves its state after this layer. */
  method ProveTracedLayer(circuit: Circuit, layerIndex: nat, last: bool, wPoly: seq<Fe>, randomChallengeA: Fe,
                          transcript: Transcript, claimedSum: Fe, alpha: Fe, beta: Fe,
                          rbValues: seq<Fe>, rcValues: seq<Fe>, layerProofs: seq<SC.SumcheckProverProof>,
                          wbEvaluations: seq<Fe>, wcEvaluations: seq<Fe>,
                          ghost gates: seq<seq<Gate>>, ghost evals: seq<seq<Fe>>, ghost hash: Bytes -> Digest,
                          ghost st: ProverState)
    returns (claimedSum': Fe, alpha': Fe, beta': Fe, rbValues': seq<Fe>, rcValues': seq<Fe>,
             layerProofs': seq<SC.SumcheckProverProof>, wbEvaluations': seq<Fe>, wcEvaluations': seq<Fe>)
    requires Layered(gates, evals) && layerIndex < |gates| == |circuit.layers|
    requires circuit.layers[layerIndex].gates == gates[layerIndex]
    requires wPoly == evals[layerIndex + 1] && last == (layerIndex + 1 == |gates|)
    requires randomChallengeA == FirstChallenge(hash, evals[0]) && ProverReady(layerIndex, st)
    requires st == ProverAfter(SC.Honest(2), gates, evals, hash, layerIndex)
    requires st == ProverState(transcript.hasher, claimedSum, alpha, beta, rbValues, rcValues,
                               layerProofs, wbEvaluations, wcEvaluations)
    modifies transcript
    ensures ProverState(transcript.hasher, claimedSum', alpha', beta', rbValues', rcValues',
                        layerProofs', wbEvaluations', wcEvaluations')
         == ProverAfter(SC.Honest(2), gates, evals, hash, layerIndex + 1)
  {
    ProverAfterNext(SC.Honest(2), gates, evals, hash, layerIndex);
    claimedSum', alpha', beta', rbValues', rcValues', layerProofs', wbEvaluations', wcEvaluations' :=
      ProveLayerStep(circuit, layerIndex, last, wPoly, randomChallengeA,
                     transcript, claimedSum, alpha, beta, rbValues, rcValues,
                     layerProofs, wbEvaluations, wcEvaluations, gates[layerIndex], st);
  }

  /**
   * `prove`'s loop over the layers, output layer first, from the state
   * after r_a was drawn.
   */
  method ProveLayers(circuit: Circuit, circuitEvaluation: CircuitEvaluationResult, randomChallengeA: Fe,
                     initialClaim: Fe, transcript: Transcript, ghost gates: seq<seq<Gate>>, ghost hash: Bytes -> Digest)
    returns (claimedSum: Fe, layerProofs: seq<SC.SumcheckProverProof>,
             wbEvaluations: seq<Fe>, wcEvaluations: seq<Fe>)
    requires gates == circuit.Gates() && Layered(gates, circuitEvaluation.layerEvaluations)
    requires randomChallengeA == FirstChallenge(hash, circuitEvaluation.layerEvaluations[0])
    requires ProverStart(circuitEvaluation.layerEvaluations, hash)
          == ProverState(transcript.hasher, initialClaim, 0, 0, [], [], [], [], [])
    modifies transcript
    ensures var st := ProverAfter(SC.Honest(2), gates, circuitEvaluation.layerEvaluations, hash, |gates|);
      && claimedSum == st.claimedSum && layerProofs == st.layerProofs
      && wbEvaluations == st.wbEvaluations && wcEvaluations == st.wcEvaluations
  {
    ghost var evals := circuitEvaluation.layerEvaluations;
    claimedSum := initialClaim;
    layerProofs := [];
    wbEvaluations := [];
    wcEvaluations := [];
    var alpha: Fe := 0;
    var beta: Fe := 0;
    var rbValues: seq<Fe> := [];
    var rcValues: seq<Fe> := [];
    for layerIndex := 0 to |circuit.layers|
      invariant ProverState(transcript.hasher, claimedSum, alpha, beta, rbValues, rcValues,
                            layerProofs, wbEvaluations, wcEvaluations)
             == ProverAfter(SC.Honest(2), gates, evals, hash, layerIndex)
      invariant circuit.Gates() == gates
    {
      LayeredAt(gates, evals, layerIndex);
      ProverAfterShape(SC.Honest(2), gates, evals, hash, layerIndex);
      var wbPoly := WIPolynomial(circuitEvaluation, layerIndex + 1).value;
      claimedSum, alpha, beta, rbValues, rcValues, layerProofs, wbEvaluations, wcEvaluations :=
        ProveTracedLayer(circuit, layerIndex, layerIndex == |circuit.layers| - 1, wbPoly, randomChallengeA,
                         transcript, claimedSum, alpha, beta, rbValues, rcValues,
                         layerProofs, wbEvaluations, wcEvaluations,
                         gates, evals, hash, ProverAfter(SC.Honest(2), gates, evals, hash, layerIndex));
    }
  }

  /**
   * `prove`: evaluates the circuit, commits to the padded output, draws
   * r_a and claims W_0(r_a), then runs the layer loop.
   */
  method Prove(circuit: Circuit, inputs: seq<Fe>, hash: Bytes -> Digest) returns (proof: Proof)
    requires Evaluable(circuit.Gates(), inputs) && Layered(circuit.Gates(), Evaluations(circuit.Gates(), inputs))
    ensures proof == ProofOf(old(circuit.Gates()), Evaluations(old(circuit.Gates()), inputs), hash)
  {
    ghost var gates := circuit.Gates();
    var circuitEvaluation := circuit.Evaluate(inputs);
    var transcript := new Transcript(hash);
    var randomChallengeA, claimedSum := CommitOutput(circuitEvaluation, transcript);
    var layerProofs, wbEvaluations, wcEvaluations;
    claimedSum, layerProofs, wbEvaluations, wcEvaluations :=
      ProveLayers(circuit, circuitEvaluation, randomChallengeA, claimedSum, transcript, gates, hash);
    proof := Proof(circuitEvaluation.output, claimedSum, layerProofs, wbEvaluations, wcEvaluations);
  }

  // ---------------------------------------------------------------------
  // The verifier, layer by layer
  // ---------------------------------------------------------------------

  /** The verifier's loop variables: transcript, running claim, α, β and the previous sum-check's challenges. */
  datatype VerifierState = VerifierState(sponge: Sponge, claimedSum: Fe, alpha: Fe, beta: Fe, previous: seq<Fe>)

  /**
   * Where `verify` stands after some layers: still in its loop with these
   * variables, returned false, or panicked (an index out of bounds, a table
   * too short for the bindings asked of it).
   */
  datatype Outcome = Running(state: VerifierState) | Rejected | Panicked

  /**
   * What the wiring of layer i needs for its expected claim to be formed
   * from m challenges after the previous ones: tables that fit
   * (`add_i_and_mul_i_mle`) and, at layer 0, at most one challenge per
   * variable left after r_a; after layer 0, previous challenges that split
   * into two non-empty halves of one length, which together with the
   * current ones bind no more than the layer's variables.
   */
  predicate ClaimReadable(gates: seq<Gate>, i: nat, m: nat, previous: seq<Fe>)
  {
    && NumOfLayerVariables(i) < 64 && PositionsFit(gates, i)
    && (if i == 0 then m <= NumOfLayerVariables(0) - 1
        else && |previous| >= 2 && |previous| % 2 == 0
             && |previous| / 2 <= NumOfLayerVariables(i)
             && m + |previous| / 2 <= NumOfLayerVariables(i))
  }

  /** `evaluate_wb_wc` on the inputs: both halves of the challenges can be evaluated. */
  predicate InputsReadable(inputs: seq<Fe>, challenges: seq<Fe>)
  {
    EvalOk(inputs, challenges[..|challenges| / 2]) && EvalOk(inputs, challenges[|challenges| / 2..])
  }

  /** W(r_b) and W(r_c) for layer i: sent in the proof, or at the last layer the inputs at the two halves of the challenges. */
  function LayerEvaluations(last: bool, inputs: seq<Fe>, proof: Proof, i: nat, challenges: seq<Fe>): (Fe, Fe)
    requires last || (i < |proof.wbEvaluations| && i < |proof.wcEvaluations|)
    requires last ==> InputsReadable(inputs, challenges)
  {
    if last then (Eval(inputs, challenges[..|challenges| / 2]), Eval(inputs, challenges[|challenges| / 2..]))
    else (proof.wbEvaluations[i], proof.wcEvaluations[i])
  }

  /**
   * The claim the verifier expects at the end of layer i's sum-check: the
   * wiring tables, with the output variable bound to r_a at layer 0 and
   * folded at the two halves of the previous challenges with α and β after
   * it, evaluated at the challenges and combined with W(r_b), W(r_c).
   */
  function ExpectedClaim(gates: seq<Gate>, i: nat, ra: Fe, challenges: seq<Fe>, wb: Fe, wc: Fe, st: VerifierState): Fe
    requires ClaimReadable(gates, i, |challenges|, st.previous)
  {
    var n := NumOfLayerVariables(i);
    if i == 0 then
      var addW, mulW := WB.InitialWiring(gates, 0, ADD, ra), WB.InitialWiring(gates, 0, MUL, ra);
      TableEvalOk(addW, n - 1, challenges);
      TableEvalOk(mulW, n - 1, challenges);
      WB.WiringClaim(Eval(addW, challenges), Eval(mulW, challenges), wb, wc)
    else
      var cs, es := WB.SumcheckChallenges(challenges, st.previous), WB.Evaluations(wb, wc, st.alpha, st.beta);
      var half := |st.previous| / 2;
      var addW, mulW := WB.FoldedWiring(gates, i, ADD, cs, es), WB.FoldedWiring(gates, i, MUL, cs, es);
      TableEvalOk(addW, n - half, challenges);
      TableEvalOk(mulW, n - half, challenges);
      WB.WiringClaim(Eval(addW, challenges), Eval(mulW, challenges), wb, wc)
  }

  /**
   * One pass of the verifier's loop on layer i.  The layer's sum-check
   * proof must exist and claim the running claim, and its rounds must pass
   * (any number of them); then W(r_b), W(r_c) are read from the proof, or
   * at the last layer evaluated on the inputs, the expected claim is formed
   * and must be the rounds' last claim.  Then W(r_b) and W(r_c) are
   * absorbed, α and β drawn and the claim folded, after the last layer too.
   * A read the source's vectors or tables do not allow is a panic.
   */
  function VerifyLayer(gates: seq<Gate>, i: nat, last: bool, ra: Fe, inputs: seq<Fe>, proof: Proof, st: VerifierState)
    : (next: Outcome)
    ensures next.Running? ==> i < |proof.sumcheckProofs| && st.claimedSum == proof.sumcheckProofs[i].claimedSum
    ensures next.Running? ==> |next.state.previous| == |proof.sumcheckProofs[i].roundUnivariatePolynomials|
    ensures i >= |proof.sumcheckProofs| ==> next.Panicked?
  {
    if i >= |proof.sumcheckProofs| then Panicked
    else
      var sumcheckProof := proof.sumcheckProofs[i];
      if st.claimedSum != sumcheckProof.claimedSum then Rejected
      else
        var rounds := SC.VerifyRounds(Absorbed(st.sponge, FieldElementToBytes(sumcheckProof.claimedSum)),
                                      sumcheckProof.claimedSum, sumcheckProof.roundUnivariatePolynomials);
        if !rounds.passed then Rejected
        else if !last && !(i < |proof.wbEvaluations| && i < |proof.wcEvaluations|) then Panicked
        else if last && !InputsReadable(inputs, rounds.challenges) then Panicked
        else if !ClaimReadable(gates, i, |rounds.challenges|, st.previous) then Panicked
        else
          var ws := LayerEvaluations(last, inputs, proof, i, rounds.challenges);
          if ExpectedClaim(gates, i, ra, rounds.challenges, ws.0, ws.1, st) != rounds.claim then Rejected
          else
            var drawnAlpha := Challenged(Absorbed(rounds.sponge, FieldElementToBytes(ws.0)));
            var drawnBeta := Challenged(Absorbed(drawnAlpha.1, FieldElementToBytes(ws.1)));
            Running(VerifierState(drawnBeta.1, Add(Mul(drawnAlpha.0, ws.0), Mul(drawnBeta.0, ws.1)),
                                  drawnAlpha.0, drawnBeta.0, rounds.challenges))
  }

  /**
   * The verifier's state before its loop: the transcript after r_a, the
   * claim W_0(r_a), α = β = 0; evaluating the padded output at r_a panics
   * when it cannot be bound once.
   */
  function VerifierStart(proof: Proof, hash: Bytes -> Digest): (o: Outcome)
    ensures o.Running? ==> o.state.previous == [] && o.state.alpha == 0 && o.state.beta == 0
    ensures !o.Rejected?
  {
    var drawn := Challenged(Absorbed(Fresh(hash), EncodeBe(W0Table(proof.circuitOutput))));
    if EvalOk(W0Table(proof.circuitOutput), [drawn.0])
    then Running(VerifierState(drawn.1, Eval(W0Table(proof.circuitOutput), [drawn.0]), 0, 0, []))
    else Panicked
  }

  /**
   * The opening on one or two output values reaches the loop with the
   * claim W_0(r_a), the line through them at r_a; on an empty output it
   * panics.
   */
  lemma VerifierStartOutputs(proof: Proof, hash: Bytes -> Digest)
    ensures 1 <= |proof.circuitOutput| <= 2 ==>
      && VerifierStart(proof, hash).Running?
      && VerifierStart(proof, hash).state.claimedSum
         == Lerp(proof.circuitOutput[0], if |proof.circuitOutput| == 2 then proof.circuitOutput[1] else 0,
                 FirstChallenge(hash, proof.circuitOutput))
    ensures |proof.circuitOutput| == 0 ==> VerifierStart(proof, hash).Panicked?
  {
    var ra := FirstChallenge(hash, proof.circuitOutput);
    if 1 <= |proof.circuitOutput| <= 2 {
      InitialClaimValue(proof.circuitOutput, ra);
    } else if |proof.circuitOutput| == 0 {
      EmptyTableNotEvaluable([ra]);
    }
  }

  /** The verifier's state after the first i layers, or how it stopped. */
  function VerifierAfter(gates: seq<seq<Gate>>, proof: Proof, inputs: seq<Fe>, hash: Bytes -> Digest, i: nat): Outcome
    decreases i, 0
  {
    if i == 0 then VerifierStart(proof, hash) else VerifierPass(gates, proof, inputs, hash, i - 1)
  }

  /** Pass i of the verifier's loop: a verifier that has stopped stays stopped. */
  function VerifierPass(gates: seq<seq<Gate>>, proof: Proof, inputs: seq<Fe>, hash: Bytes -> Digest, i: nat): Outcome
    decreases i, 2
  {
    if VerifierAfter(gates, proof, inputs, hash, i).Running? then LayerCheck(gates, proof, inputs, hash, i)
    else VerifierAfter(gates, proof, inputs, hash, i)
  }

  /**
   * Layer i checked from the state after the first i layers; there is no
   * layer past the last.
   */
  function LayerCheck(gates: seq<seq<Gate>>, proof: Proof, inputs: seq<Fe>, hash: Bytes -> Digest, i: nat)
    : (next: Outcome)
    decreases i, 1
  {
    var o := VerifierAfter(gates, proof, inputs, hash, i);
    if o.Running? && i < |gates|
    then VerifyLayer(gates[i], i, i + 1 == |gates|, FirstChallenge(hash, proof.circuitOutput), inputs, proof, o.state)
    else o
  }

  /** Pass i, from the state after the first i layers, is `VerifyLayer` on layer i. */
  lemma VerifierPassAt(gates: seq<seq<Gate>>, proof: Proof, inputs: seq<Fe>, hash: Bytes -> Digest, i: nat, st: VerifierState)
    requires i < |gates| && VerifierAfter(gates, proof, inputs, hash, i) == Running(st)
    ensures VerifierAfter(gates, proof, inputs, hash, i + 1)
         == VerifyLayer(gates[i], i, i + 1 == |gates|, FirstChallenge(hash, proof.circuitOutput), inputs, proof, st)
  {
    assert VerifierAfter(gates, proof, inputs, hash, i + 1) == LayerCheck(gates, proof, inputs, hash, i);
  }

  /** `verify` returns true: no layer is rejected and nothing panics. */
  predicate Accepts(gates: seq<seq<Gate>>, proof: Proof, inputs: seq<Fe>, hash: Bytes -> Digest)
  {
    VerifierAfter(gates, proof, inputs, hash, |gates|).Running?
  }

  /** `verify` returns, true or false, without panicking. */
  predicate VerifyReturns(gates: seq<seq<Gate>>, proof: Proof, inputs: seq<Fe>, hash: Bytes -> Digest)
  {
    !VerifierAfter(gates, proof, inputs, hash, |gates|).Panicked?
  }

  /** A rejection or a panic is final: once the verifier stops, every later state is that stop. */
  lemma {:induction false} StopIsFinal(gates: seq<seq<Gate>>, proof: Proof, inputs: seq<Fe>, hash: Bytes -> Digest,
                                       i: nat, j: nat)
    requires i <= j && !VerifierAfter(gates, proof, inputs, hash, i).Running?
    ensures VerifierAfter(gates, proof, inputs, hash, j) == VerifierAfter(gates, proof, inputs, hash, i)
    decreases j
  {
    if i < j {
      StopIsFinal(gates, proof, inputs, hash, i, j - 1);
    }
  }

  /** Every layer of an accepted proof was accepted. */
  lemma AcceptedPrefix(gates: seq<seq<Gate>>, proof: Proof, inputs: seq<Fe>, hash: Bytes -> Digest, i: nat)
    requires i <= |gates| && Accepts(gates, proof, inputs, hash)
    ensures VerifierAfter(gates, proof, inputs, hash, i).Running?
  {
    if !VerifierAfter(gates, proof, inputs, hash, i).Running? {
      StopIsFinal(gates, proof, inputs, hash, i, |gates|);
    }
  }

  /** A verifier that returns did not panic at any layer before the end. */
  lemma ReturnsPrefix(gates: seq<seq<Gate>>, proof: Proof, inputs: seq<Fe>, hash: Bytes -> Digest, i: nat)
    requires i <= |gates| && VerifyReturns(gates, proof, inputs, hash)
    ensures !VerifierAfter(gates, proof, inputs, hash, i).Panicked?
  {
    if VerifierAfter(gates, proof, inputs, hash, i).Panicked? {
      StopIsFinal(gates, proof, inputs, hash, i, |gates|);
    }
  }

  /**
   * An accepted proof has one sum-check proof per layer at least, and the
   * one for layer i claims the verifier's running claim after the layers
   * before it: W_0(r_a) for the output layer, α·W(r_b) + β·W(r_c) of the
   * layer before for the others.
   */
  lemma AcceptedClaims(gates: seq<seq<Gate>>, proof: Proof, inputs: seq<Fe>, hash: Bytes -> Digest, i: nat)
    requires i < |gates| && Accepts(gates, proof, inputs, hash)
    ensures VerifierAfter(gates, proof, inputs, hash, i).Running?
    ensures i < |proof.sumcheckProofs|
    ensures proof.sumcheckProofs[i].claimedSum == VerifierAfter(gates, proof, inputs, hash, i).state.claimedSum
  {
    AcceptedPrefix(gates, proof, inputs, hash, i + 1);
    AcceptedPrefix(gates, proof, inputs, hash, i);
    VerifierPassAt(gates, proof, inputs, hash, i, VerifierAfter(gates, proof, inputs, hash, i).state);
  }

  /** `verify` does not read the proof's claimed sum: changing it changes no layer's outcome. */
  lemma {:induction false} VerifierIgnoresClaimedSum(gates: seq<seq<Gate>>, proof: Proof, inputs: seq<Fe>,
                                                     hash: Bytes -> Digest, claimedSum: Fe, i: nat)
    ensures VerifierAfter(gates, proof, inputs, hash, i)
         == VerifierAfter(gates, proof.(claimedSum := claimedSum), inputs, hash, i)
  {
    var other := proof.(claimedSum := claimedSum);
    if i > 0 {
      VerifierIgnoresClaimedSum(gates, proof, inputs, hash, claimedSum, i - 1);
      var o := VerifierAfter(gates, proof, inputs, hash, i - 1);
      if o.Running? && i - 1 < |gates| {
        LayerIgnoresClaimedSum(gates[i - 1], i - 1, i == |gates|, FirstChallenge(hash, proof.circuitOutput), inputs, proof,
                               claimedSum, o.state);
      }
      assert LayerCheck(gates, proof, inputs, hash, i - 1) == LayerCheck(gates, other, inputs, hash, i - 1);
      assert VerifierPass(gates, proof, inputs, hash, i - 1) == VerifierPass(gates, other, inputs, hash, i - 1);
    }
  }

  /** One layer's check does not read the proof's claimed sum. */
  lemma LayerIgnoresClaimedSum(gates: seq<Gate>, i: nat, last: bool, ra: Fe, inputs: seq<Fe>, proof: Proof, claimedSum: Fe,
                               st: VerifierState)
    ensures VerifyLayer(gates, i, last, ra, inputs, proof, st)
         == VerifyLayer(gates, i, last, ra, inputs, proof.(claimedSum := claimedSum), st)
  {
  }

  /** W(r_b), W(r_c) of layer `layerIndex`: the proof's for all but the last layer, the inputs' for the last. */
  method LayerWbWc(circuit: Circuit, layerIndex: nat, ghost last: bool, proof: Proof, inputs: seq<Fe>,
                   sumcheckChallenges: seq<Fe>)
    returns (wbEvaluation: Fe, wcEvaluation: Fe)
    requires layerIndex < |circuit.layers| && last == (layerIndex + 1 == |circuit.layers|)
    requires last || (layerIndex < |proof.wbEvaluations| && layerIndex < |proof.wcEvaluations|)
    requires last ==> InputsReadable(inputs, sumcheckChallenges)
    ensures (wbEvaluation, wcEvaluation) == LayerEvaluations(last, inputs, proof, layerIndex, sumcheckChallenges)
  {
    if layerIndex < |circuit.layers| - 1 {
      wbEvaluation, wcEvaluation := proof.wbEvaluations[layerIndex], proof.wcEvaluations[layerIndex];
    } else {
      wbEvaluation, wcEvaluation := WB.EvaluateWbWc(inputs, inputs, sumcheckChallenges);
    }
  }

  /** The expected claim of layer `layerIndex`, from the initial wiring at layer 0 and the folded one after it. */
  method LayerExpectedClaim(circuit: Circuit, layerIndex: nat, randomChallengeA: Fe, sumcheckChallenges: seq<Fe>,
                            wbEvaluation: Fe, wcEvaluation: Fe, alpha: Fe, beta: Fe, prevSumcheckChallenges: seq<Fe>,
                            ghost gates: seq<Gate>, ghost st: VerifierState)
    returns (expectedClaim: Fe)
    requires layerIndex < |circuit.layers| && circuit.layers[layerIndex].gates == gates
    requires ClaimReadable(gates, layerIndex, |sumcheckChallenges|, st.previous)
    requires st.alpha == alpha && st.beta == beta && st.previous == prevSumcheckChallenges
    ensures expectedClaim == ExpectedClaim(gates, layerIndex, randomChallengeA, sumcheckChallenges,
                                           wbEvaluation, wcEvaluation, st)
  {
    if layerIndex == 0 {
      expectedClaim := WB.ComputeVerifierInitialClaim(circuit, layerIndex, randomChallengeA, sumcheckChallenges,
                                                      wbEvaluation, wcEvaluation);
    } else {
      var challenges := WB.SumcheckChallenges(sumcheckChallenges, prevSumcheckChallenges);
      var evals := WB.Evaluations(wbEvaluation, wcEvaluation, alpha, beta);
      expectedClaim := WB.ComputeVerifierFoldedClaim(circuit, layerIndex, challenges, evals);
    }
  }

  /**
   * The body of `verify`'s loop for layer `layerIndex`, on a layer where it
   * does not panic: the running claim is compared with the layer's
   * sum-check proof, which is verified on the shared transcript; W(r_b),
   * W(r_c) are taken from the proof or, at the last layer, computed from
   * the inputs; the expected claim is recomputed from the wiring tables
   * and compared; then W(r_b) and W(r_c) are absorbed, α and β drawn and
   * the claim folded.
   */
  method VerifyLayerStep(circuit: Circuit, layerIndex: nat, ghost last: bool, proof: Proof, inputs: seq<Fe>,
                         randomChallengeA: Fe, transcript: Transcript,
                         claimedSum: Fe, alpha: Fe, beta: Fe, prevSumcheckChallenges: seq<Fe>,
                         ghost gates: seq<Gate>, ghost st: VerifierState)
    returns (ok: bool, claimedSum': Fe, alpha': Fe, beta': Fe, prevSumcheckChallenges': seq<Fe>)
    requires layerIndex < |circuit.layers| && circuit.layers[layerIndex].gates == gates
    requires last == (layerIndex + 1 == |circuit.layers|)
    requires st == VerifierState(transcript.hasher, claimedSum, alpha, beta, prevSumcheckChallenges)
    requires !VerifyLayer(gates, layerIndex, last, randomChallengeA, inputs, proof, st).Panicked?
    modifies transcript
    ensures var next := VerifyLayer(gates, layerIndex, last, randomChallengeA, inputs, proof, st);
      && ok == next.Running?
      && (ok ==> next.state == VerifierState(transcript.hasher, claimedSum', alpha', beta', prevSumcheckChallenges'))
  {
    claimedSum', alpha', beta', prevSumcheckChallenges' := claimedSum, alpha, beta, prevSumcheckChallenges;
    var sumcheckProof := proof.sumcheckProofs[layerIndex];
    if claimedSum != sumcheckProof.claimedSum {
      return false, claimedSum', alpha', beta', prevSumcheckChallenges';
    }
    var verifyResult := SC.Verify(sumcheckProof, transcript);
    if !verifyResult.isProofValid {
      return false, claimedSum', alpha', beta', prevSumcheckChallenges';
    }
    var sumcheckChallenges := verifyResult.randomChallenges;
    var wbEvaluation, wcEvaluation := LayerWbWc(circuit, layerIndex, last, proof, inputs, sumcheckChallenges);
    var expectedClaim := LayerExpectedClaim(circuit, layerIndex, randomChallengeA, sumcheckChallenges,
                                            wbEvaluation, wcEvaluation, alpha, beta, prevSumcheckChallenges, gates, st);
    if expectedClaim != verifyResult.lastClaimedSum {
      return false, claimedSum', alpha', beta', prevSumcheckChallenges';
    }
    prevSumcheckChallenges' := sumcheckChallenges;
    transcript.Absorb(FieldElementToBytes(wbEvaluation));
    alpha' := transcript.RandomChallengeAsFieldElement();
    transcript.Absorb(FieldElementToBytes(wcEvaluation));
    beta' := transcript.RandomChallengeAsFieldElement();
    claimedSum' := Add(Mul(alpha', wbEvaluation), Mul(beta', wcEvaluation));
    ok := true;
  }

  /**
   * `VerifyLayerStep` on layer `layerIndex` of a proof `verify` returns on,
   * from the verifier's state after the layers before it: an acceptance
   * leaves the state after this layer, a rejection rejects the proof.
   */
  method VerifyTracedLayer(circuit: Circuit, layerIndex: nat, proof: Proof, inputs: seq<Fe>,
                           randomChallengeA: Fe, transcript: Transcript,
                           claimedSum: Fe, alpha: Fe, beta: Fe, prevSumcheckChallenges: seq<Fe>,
                           ghost gates: seq<seq<Gate>>, ghost hash: Bytes -> Digest)
    returns (ok: bool, claimedSum': Fe, alpha': Fe, beta': Fe, prevSumcheckChallenges': seq<Fe>)
    requires VerifyReturns(gates, proof, inputs, hash) && layerIndex < |gates| == |circuit.layers|
    requires circuit.layers[layerIndex].gates == gates[layerIndex]
    requires randomChallengeA == FirstChallenge(hash, proof.circuitOutput)
    requires VerifierAfter(gates, proof, inputs, hash, layerIndex)
          == Running(VerifierState(transcript.hasher, claimedSum, alpha, beta, prevSumcheckChallenges))
    modifies transcript
    ensures ok ==> (VerifierAfter(gates, proof, inputs, hash, layerIndex + 1)
                    == Running(VerifierState(transcript.hasher, claimedSum', alpha', beta', prevSumcheckChallenges')))
    ensures !ok ==> !Accepts(gates, proof, inputs, hash)
  {
    ghost var st := VerifierState(transcript.hasher, claimedSum, alpha, beta, prevSumcheckChallenges);
    VerifierPassAt(gates, proof, inputs, hash, layerIndex, st);
    ReturnsPrefix(gates, proof, inputs, hash, layerIndex + 1);
    ok, claimedSum', alpha', beta', prevSumcheckChallenges' :=
      VerifyLayerStep(circuit, layerIndex, layerIndex + 1 == |gates|, proof, inputs, randomChallengeA, transcript,
                      claimedSum, alpha, beta, prevSumcheckChallenges, gates[layerIndex], st);
    if !ok {
      StopIsFinal(gates, proof, inputs, hash, layerIndex + 1, |gates|);
    }
  }

  /** `verify`'s opening: the padded output is absorbed, r_a drawn and W_0(r_a) claimed. */
  method OpenOutput(circuitOutput: seq<Fe>, transcript: Transcript) returns (randomChallengeA: Fe, claimedSum: Fe)
    requires EvalOk(W0Table(circuitOutput), [Challenged(Absorbed(transcript.hasher, EncodeBe(W0Table(circuitOutput)))).0])
    modifies transcript
    ensures var drawn := Challenged(Absorbed(old(transcript.hasher), EncodeBe(W0Table(circuitOutput))));
      && randomChallengeA == drawn.0 && transcript.hasher == drawn.1
      && claimedSum == Eval(W0Table(circuitOutput), [randomChallengeA])
  {
    var w0Polynomial := circuitOutput;
    if |circuitOutput| == 1 {
      w0Polynomial := circuitOutput + [0];
    }
    var w0Bytes := ConvertToBytes(w0Polynomial);
    transcript.Absorb(w0Bytes);
    randomChallengeA := transcript.RandomChallengeAsFieldElement();
    claimedSum := Evaluate(w0Polynomial, [randomChallengeA]);
  }

  /**
   * `verify`'s loop over the layers, output layer first, from the state
   * after r_a was drawn; false at the first layer rejected.
   */
  method VerifyLayers(circuit: Circuit, proof: Proof, inputs: seq<Fe>, randomChallengeA: Fe, initialClaim: Fe,
                      transcript: Transcript, ghost gates: seq<seq<Gate>>, ghost hash: Bytes -> Digest)
    returns (accepted: bool)
    requires gates == circuit.Gates() && VerifyReturns(gates, proof, inputs, hash)
    requires randomChallengeA == FirstChallenge(hash, proof.circuitOutput)
    requires VerifierStart(proof, hash) == Running(VerifierState(transcript.hasher, initialClaim, 0, 0, []))
    modifies transcript
    ensures accepted == Accepts(gates, proof, inputs, hash)
  {
    var claimedSum := initialClaim;
    var alpha: Fe := 0;
    var beta: Fe := 0;
    var prevSumcheckChallenges: seq<Fe> := [];
    for layerIndex := 0 to |circuit.layers|
      invariant |gates| == |circuit.layers| && forall k :: 0 <= k < |gates| ==> circuit.layers[k].gates == gates[k]
      invariant VerifierAfter(gates, proof, inputs, hash, layerIndex)
             == Running(VerifierState(transcript.hasher, claimedSum, alpha, beta, prevSumcheckChallenges))
    {
      var ok;
      ok, claimedSum, alpha, beta, prevSumcheckChallenges :=
        VerifyTracedLayer(circuit, layerIndex, proof, inputs, randomChallengeA, transcript,
                          claimedSum, alpha, beta, prevSumcheckChallenges, gates, hash);
      if !ok {
        return false;
      }
    }
    return true;
  }

  /** `verify`, on a proof it returns on: opens the output claim, then checks the layers. */
  method Verify(circuit: Circuit, proof: Proof, inputs: seq<Fe>, hash: Bytes -> Digest) returns (accepted: bool)
    requires VerifyReturns(circuit.Gates(), proof, inputs, hash)
    ensures accepted == Accepts(circuit.Gates(), proof, inputs, hash)
  {
    ReturnsPrefix(circuit.Gates(), proof, inputs, hash, 0);
    var transcript := new Transcript(hash);
    var randomChallengeA, claimedSum := OpenOutput(proof.circuitOutput, transcript);
    accepted := VerifyLayers(circuit, proof, inputs, randomChallengeA, claimedSum, transcript, circuit.Gates(), hash);
  }
}
