/**
 * What `verify` of gkr_p.rs accepts: the proofs `prove` produces
 * (completeness, with the two circuits of gkr_p_test.rs as instances),
 * and a proof whose sum-checks have too few rounds, since `verify` never
 * counts them; a verifier that counts them rejects that proof and still
 * accepts every honest one.
 */
module GkrCompleteness {
  import opened Field
  import opened Encoding
  import opened Hypercube
  import opened MultilinearEV
  import opened MleTheory
  import opened Transcripts
  import opened SumcheckUtility
  import opened Gates
  import opened Circuits
  import opened Layers
  import opened Gkr
  import opened WiringSums
  import WB = WbBcUtility
  import SC = GkrSumcheck
  import SumPoly
  import RoundTheory

  // ---------------------------------------------------------------------
  // Completeness
  // ---------------------------------------------------------------------

  /**
   * The circuits completeness is proved for: every layer reads entries of
   * the layer below it, the values have the shapes `Layered` asks, and no
   * layer lists a gate twice (`add_i_and_mul_i_mle` writes a repeated
   * gate's 1 once, where `evaluate` adds the gate twice).
   */
  predicate HonestCircuit(gates: seq<seq<Gate>>, inputs: seq<Fe>)
  {
    && Evaluable(gates, inputs)
    && Layered(gates, Evaluations(gates, inputs))
    && forall i :: 0 <= i < |gates| ==> DistinctGates(gates[i])
  }

  /** The state of `prove` after the first i layers of an honest circuit. */
  function HonestAfter(gates: seq<seq<Gate>>, inputs: seq<Fe>, hash: Bytes -> Digest, i: nat): ProverState
    requires HonestCircuit(gates, inputs)
  {
    ProverAfter(SC.Honest(2), gates, Evaluations(gates, inputs), hash, i)
  }

  /** The proof `prove` returns on an honest circuit. */
  function HonestProof(gates: seq<seq<Gate>>, inputs: seq<Fe>, hash: Bytes -> Digest): Proof
    requires HonestCircuit(gates, inputs)
  {
    ProofOf(gates, Evaluations(gates, inputs), hash)
  }

  /** The verifier's loop variables that mirror the prover's: r_b followed by r_c are the previous challenges. */
  function Mirrored(st: ProverState): VerifierState
  {
    VerifierState(st.sponge, st.claimedSum, st.alpha, st.beta, st.rbValues + st.rcValues)
  }

  /**
   * Layer i of an honest circuit has its gates' indices within their
   * digits, and its sums over the output hypercube are its values: at the
   * output layer padded with a zero to two entries, as the transcript
   * absorbs them.
   */
  lemma LayerSumsAreValues(gates: seq<seq<Gate>>, inputs: seq<Fe>, i: nat)
    requires HonestCircuit(gates, inputs) && i < |gates|
    ensures GatesInRange(gates[i], i)
    ensures InputsInRange(gates[i], |Evaluations(gates, inputs)[i + 1]|)
    ensures i == 0 ==> LayerSums(gates[0], Evaluations(gates, inputs)[1], 2) == W0Table(Evaluations(gates, inputs)[0])
    ensures i >= 1 ==> LayerSums(gates[i], Evaluations(gates, inputs)[i + 1], Pow2(i)) == Evaluations(gates, inputs)[i]
  {
    var evals := Evaluations(gates, inputs);
    EvaluationsLayer(gates, inputs, i);
    LayeredAt(gates, evals, i);
    var h := Pow2(OutputBits(i));
    if i >= 1 {
      assert IsTable(evals[i], i);
    }
    assert |evals[i]| <= h;
    forall j | 0 <= j < |gates[i]|
      ensures TripleInRange(i, gates[i][j].output, gates[i][j].left, gates[i][j].right)
    {
      assert gates[i][j].output <= MaxOutputIndex(gates[i]);
    }
    LayerSumsPadded(gates[i], evals[i + 1], h);
    if |evals[i]| == h {
      assert evals[i] + seq(0, _ => 0) == evals[i];
    } else {
      assert seq(1, _ => 0) == [0];
    }
  }

  /** Before the output layer the prover's claim W_0(r_a) is the hypercube sum of that layer's f(b, c). */
  lemma OutputClaim(gates: seq<seq<Gate>>, inputs: seq<Fe>, hash: Bytes -> Digest)
    requires HonestCircuit(gates, inputs)
    ensures IsTable(Evaluations(gates, inputs)[1], InputBits(0))
    ensures HonestAfter(gates, inputs, hash, 0).claimedSum
         == Sum(SumPoly.PointwiseSum(LayerProducts(gates[0], 0, Evaluations(gates, inputs)[1],
                                                   FirstChallenge(hash, Evaluations(gates, inputs)[0]),
                                                   HonestAfter(gates, inputs, hash, 0))))
  {
    var evals := Evaluations(gates, inputs);
    LayeredAt(gates, evals, 0);
    LayerSumsAreValues(gates, inputs, 0);
    InitialFbcSum(gates[0], evals[1], FirstChallenge(hash, evals[0]));
  }

  /**
   * Before a later layer i the prover's claim α·W_i(r_b) + β·W_i(r_c) is
   * the hypercube sum of that layer's f(b, c), its wiring folded at r_b
   * and r_c with the same α and β.
   */
  lemma FoldedClaim(gates: seq<seq<Gate>>, inputs: seq<Fe>, hash: Bytes -> Digest, i: nat)
    requires HonestCircuit(gates, inputs) && 1 <= i < |gates|
    ensures IsTable(Evaluations(gates, inputs)[i + 1], InputBits(i))
    ensures ProverReady(i, HonestAfter(gates, inputs, hash, i))
    ensures HonestAfter(gates, inputs, hash, i).claimedSum
         == Sum(SumPoly.PointwiseSum(LayerProducts(gates[i], i, Evaluations(gates, inputs)[i + 1],
                                                   FirstChallenge(hash, Evaluations(gates, inputs)[0]),
                                                   HonestAfter(gates, inputs, hash, i))))
  {
    LayerSumsAreValues(gates, inputs, i);
    FoldedClaimOn(SC.Honest(2), gates, Evaluations(gates, inputs), hash, i);
  }

  /** `FoldedClaim` for any prover strategy, on values whose layer i sums to layer i - 1. */
  lemma FoldedClaimOn(strategy: SC.Strategy, gates: seq<seq<Gate>>, evals: seq<seq<Fe>>, hash: Bytes -> Digest, i: nat)
    requires Layered(gates, evals) && 1 <= i < |gates| && GatesInRange(gates[i], i) && DistinctGates(gates[i])
    requires InputsInRange(gates[i], |evals[i + 1]|) && LayerSums(gates[i], evals[i + 1], Pow2(i)) == evals[i]
    ensures IsTable(evals[i + 1], InputBits(i)) && ProverReady(i, ProverAfter(strategy, gates, evals, hash, i))
    ensures ProverAfter(strategy, gates, evals, hash, i).claimedSum
         == Sum(SumPoly.PointwiseSum(LayerProducts(gates[i], i, evals[i + 1], FirstChallenge(hash, evals[0]),
                                                   ProverAfter(strategy, gates, evals, hash, i))))
  {
    LayeredAt(gates, evals, i);
    ProverAfterShape(strategy, gates, evals, hash, i);
    ProverAfterShape(strategy, gates, evals, hash, i - 1);
    ProverAfterNext(strategy, gates, evals, hash, i - 1);
    ForwardedClaim(strategy, gates[i - 1], i - 1, evals[i], FirstChallenge(hash, evals[0]),
                   ProverAfter(strategy, gates, evals, hash, i - 1));
    FoldedSum(gates[i], i, evals[i + 1], evals[i], FirstChallenge(hash, evals[0]), ProverAfter(strategy, gates, evals, hash, i));
  }

  /** After a layer that is not the last, the prover's claim is α·W(r_b) + β·W(r_c) on its new r_b and r_c. */
  lemma ForwardedClaim(strategy: SC.Strategy, gates: seq<Gate>, i: nat, w: seq<Fe>, ra: Fe, st: ProverState)
    requires IsTable(w, InputBits(i)) && ProverReady(i, st)
    ensures var next := ProveLayer(strategy, gates, i, w, false, ra, st);
      && EvalOk(w, next.rbValues) && EvalOk(w, next.rcValues)
      && next.claimedSum == Add(Mul(next.alpha, Eval(w, next.rbValues)), Mul(next.beta, Eval(w, next.rcValues)))
  {
    ForwardingPass(strategy, gates, i, w, ra, st);
  }

  /**
   * A claim α·V(r_b) + β·V(r_c), V being the sums of a later layer over
   * its output hypercube, is the hypercube sum of that layer's f(b, c).
   */
  lemma FoldedSum(gates: seq<Gate>, i: nat, w: seq<Fe>, v: seq<Fe>, ra: Fe, st: ProverState)
    requires i >= 1 && GatesInRange(gates, i) && NumOfLayerVariables(i) < 64 && DistinctGates(gates)
    requires IsTable(w, InputBits(i)) && ProverReady(i, st) && LayerSums(gates, w, Pow2(i)) == v
    requires EvalOk(v, st.rbValues) && EvalOk(v, st.rcValues)
    requires st.claimedSum == Add(Mul(st.alpha, Eval(v, st.rbValues)), Mul(st.beta, Eval(v, st.rcValues)))
    ensures st.claimedSum == Sum(SumPoly.PointwiseSum(LayerProducts(gates, i, w, ra, st)))
  {
    FoldedFbcSum(gates, i, w, st.alpha, st.beta, st.rbValues, st.rcValues);
  }

  /**
   * Honest rounds from a running claim that is the hypercube sum of f
   * pass the verifier's rounds, which end on the prover's challenges and
   * transcript with the claim f(r_b, r_c), the wiring claim.
   */
  lemma HonestRoundsPass(gates: seq<Gate>, i: nat, w: seq<Fe>, ra: Fe, st: ProverState)
    requires ProverReady(i, st) && IsTable(w, InputBits(i))
    requires st.claimedSum == Sum(SumPoly.PointwiseSum(LayerProducts(gates, i, w, ra, st)))
    ensures var out, k := LayerRun(SC.Honest(2), gates, i, w, ra, st), InputBits(i);
      && EvalOk(LayerWiring(gates, i, ADD, ra, st), out.challenges)
      && EvalOk(LayerWiring(gates, i, MUL, ra, st), out.challenges)
      && EvalOk(w, out.challenges[..k]) && EvalOk(w, out.challenges[k..])
      && SC.VerifyRounds(Absorbed(st.sponge, FieldElementToBytes(st.claimedSum)), st.claimedSum, out.messages)
         == SC.VerifierRun(true, out.challenges,
                           WB.WiringClaim(Eval(LayerWiring(gates, i, ADD, ra, st), out.challenges),
                                          Eval(LayerWiring(gates, i, MUL, ra, st), out.challenges),
                                          Eval(w, out.challenges[..k]), Eval(w, out.challenges[k..])),
                           out.sponge)
  {
    var k := InputBits(i);
    var addW, mulW := LayerWiring(gates, i, ADD, ra, st), LayerWiring(gates, i, MUL, ra, st);
    LayerRoundsAccepted(gates, i, w, ra, st);
    var out := LayerRun(SC.Honest(2), gates, i, w, ra, st);
    WB.FbcEvaluation(addW, mulW, w, w, k, out.challenges);
  }

  /**
   * Honest rounds on layer i's f(b, c), started from its hypercube sum,
   * pass and end on f at the prover's challenges.
   */
  lemma LayerRoundsAccepted(gates: seq<Gate>, i: nat, w: seq<Fe>, ra: Fe, st: ProverState)
    requires ProverReady(i, st) && IsTable(w, InputBits(i))
    ensures var out, pps := LayerRun(SC.Honest(2), gates, i, w, ra, st), LayerProducts(gates, i, w, ra, st);
      && SumPoly.ProductsEvaluateAt(pps, out.challenges)
      && SC.VerifyRounds(Absorbed(st.sponge, FieldElementToBytes(st.claimedSum)), Sum(SumPoly.PointwiseSum(pps)),
                         out.messages)
         == SC.VerifierRun(true, out.challenges, Sum(SumPoly.ProductEvaluations(pps, out.challenges)), out.sponge)
  {
    var pps := LayerProducts(gates, i, w, ra, st);
    assert RoundTheory.Uniform(pps, 2);
    SC.HonestIsTruthful(2);
    SC.RoundsComplete(Absorbed(st.sponge, FieldElementToBytes(st.claimedSum)), pps, 2 * InputBits(i), 2, SC.Honest(2));
  }

  /**
   * From the state mirroring the prover's, the verifier can form layer
   * i's expected claim on the prover's 2(i + 1) challenges, and it is the
   * wiring claim on the prover's wiring tables: the previous challenges
   * split back into the prover's r_b and r_c.
   */
  lemma MirroredClaim(gates: seq<Gate>, i: nat, ra: Fe, challenges: seq<Fe>, wb: Fe, wc: Fe, st: ProverState)
    requires ProverReady(i, st) && NumOfLayerVariables(i) < 64 && PositionsFit(gates, i)
    requires |challenges| == 2 * InputBits(i)
    ensures ClaimReadable(gates, i, |challenges|, Mirrored(st).previous)
    ensures EvalOk(LayerWiring(gates, i, ADD, ra, st), challenges) && EvalOk(LayerWiring(gates, i, MUL, ra, st), challenges)
    ensures ExpectedClaim(gates, i, ra, challenges, wb, wc, Mirrored(st))
         == WB.WiringClaim(Eval(LayerWiring(gates, i, ADD, ra, st), challenges),
                           Eval(LayerWiring(gates, i, MUL, ra, st), challenges), wb, wc)
  {
    TableEvalOk(LayerWiring(gates, i, ADD, ra, st), 2 * InputBits(i), challenges);
    TableEvalOk(LayerWiring(gates, i, MUL, ra, st), 2 * InputBits(i), challenges);
    if i > 0 {
      MirroredWiring(gates, i, ra, challenges, wb, wc, st);
    }
  }

  /** Past the output layer, the verifier's folded wiring tables are the prover's. */
  lemma MirroredWiring(gates: seq<Gate>, i: nat, ra: Fe, challenges: seq<Fe>, wb: Fe, wc: Fe, st: ProverState)
    requires i > 0 && ProverReady(i, st) && NumOfLayerVariables(i) < 64
    ensures var cs := WB.SumcheckChallenges(challenges, Mirrored(st).previous);
      var es := WB.Evaluations(wb, wc, st.alpha, st.beta);
      && |cs.previous| / 2 == i
      && WB.FoldedWiring(gates, i, ADD, cs, es) == LayerWiring(gates, i, ADD, ra, st)
      && WB.FoldedWiring(gates, i, MUL, cs, es) == LayerWiring(gates, i, MUL, ra, st)
  {
    var previous := st.rbValues + st.rcValues;
    assert |previous| / 2 == i;
    assert previous[..i] == st.rbValues && previous[i..i + i] == st.rcValues;
  }

  /**
   * A layer whose checks all pass: the sum-check proof claims the running
   * claim, its rounds pass, W(r_b), W(r_c) can be read, the expected claim
   * can be formed and is the rounds' last claim.  The verifier then
   * absorbs W(r_b), draws α, absorbs W(r_c), draws β and folds the claim.
   */
  lemma VerifyLayerPasses(gates: seq<Gate>, i: nat, last: bool, ra: Fe, inputs: seq<Fe>, proof: Proof,
                          st: VerifierState)
    requires i < |proof.sumcheckProofs| && st.claimedSum == proof.sumcheckProofs[i].claimedSum
    requires var rounds := SC.VerifyRounds(Absorbed(st.sponge, FieldElementToBytes(st.claimedSum)), st.claimedSum,
                                           proof.sumcheckProofs[i].roundUnivariatePolynomials);
      && rounds.passed
      && (!last ==> i < |proof.wbEvaluations| && i < |proof.wcEvaluations|)
      && (last ==> InputsReadable(inputs, rounds.challenges))
      && ClaimReadable(gates, i, |rounds.challenges|, st.previous)
      && var ws := LayerEvaluations(last, inputs, proof, i, rounds.challenges);
         ExpectedClaim(gates, i, ra, rounds.challenges, ws.0, ws.1, st) == rounds.claim
    ensures var rounds := SC.VerifyRounds(Absorbed(st.sponge, FieldElementToBytes(st.claimedSum)), st.claimedSum,
                                          proof.sumcheckProofs[i].roundUnivariatePolynomials);
      var ws := LayerEvaluations(last, inputs, proof, i, rounds.challenges);
      var drawnAlpha := Challenged(Absorbed(rounds.sponge, FieldElementToBytes(ws.0)));
      var drawnBeta := Challenged(Absorbed(drawnAlpha.1, FieldElementToBytes(ws.1)));
      VerifyLayer(gates, i, last, ra, inputs, proof, st)
      == Running(VerifierState(drawnBeta.1, Add(Mul(drawnAlpha.0, ws.0), Mul(drawnBeta.0, ws.1)),
                               drawnAlpha.0, drawnBeta.0, rounds.challenges))
  {
  }

  /**
   * The verifier accepts layer i of an honest proof from the state
   * mirroring the prover's, and before the last layer ends in the state
   * mirroring the prover's after it.
   */
  lemma HonestLayerAccepted(gates: seq<Gate>, i: nat, last: bool, ra: Fe, inputs: seq<Fe>, proof: Proof,
                            w: seq<Fe>, st: ProverState)
    requires ProverReady(i, st) && IsTable(w, InputBits(i)) && NumOfLayerVariables(i) < 64 && PositionsFit(gates, i)
    requires st.claimedSum == Sum(SumPoly.PointwiseSum(LayerProducts(gates, i, w, ra, st)))
    requires last ==> inputs == w
    requires var out, k := LayerRun(SC.Honest(2), gates, i, w, ra, st), InputBits(i);
      && i < |proof.sumcheckProofs|
      && proof.sumcheckProofs[i] == SC.SumcheckProverProof(st.claimedSum, out.messages, out.challenges)
      && (!last ==> && i < |proof.wbEvaluations| && i < |proof.wcEvaluations|
                    && EvalOk(w, out.challenges[..k]) && EvalOk(w, out.challenges[k..])
                    && proof.wbEvaluations[i] == Eval(w, out.challenges[..k])
                    && proof.wcEvaluations[i] == Eval(w, out.challenges[k..]))
    ensures VerifyLayer(gates, i, last, ra, inputs, proof, Mirrored(st)).Running?
    ensures !last ==> VerifyLayer(gates, i, last, ra, inputs, proof, Mirrored(st))
                      == Running(Mirrored(ProveLayer(SC.Honest(2), gates, i, w, false, ra, st)))
  {
    var out, k := LayerRun(SC.Honest(2), gates, i, w, ra, st), InputBits(i);
    HonestRoundsPass(gates, i, w, ra, st);
    assert |out.challenges| / 2 == k;
    var wb, wc := Eval(w, out.challenges[..k]), Eval(w, out.challenges[k..]);
    MirroredClaim(gates, i, ra, out.challenges, wb, wc, st);
    assert LayerEvaluations(last, inputs, proof, i, out.challenges) == (wb, wc);
    VerifyLayerPasses(gates, i, last, ra, inputs, proof, Mirrored(st));
    if !last {
      ForwardingPass(SC.Honest(2), gates, i, w, ra, st);
      Rejoined(out.challenges, k);
    }
  }

  /** A sequence is its two halves put back together. */
  lemma Rejoined(s: seq<Fe>, k: nat)
    requires k <= |s|
    ensures s[..k] + s[k..] == s
  {
  }

  /** A pass of the prover appends its layer's sum-check proof and only appends W(r_b), W(r_c). */
  lemma ProveLayerAppends(strategy: SC.Strategy, gates: seq<Gate>, i: nat, w: seq<Fe>, last: bool, ra: Fe, st: ProverState)
    requires IsTable(w, InputBits(i)) && ProverReady(i, st)
    ensures var out, next := LayerRun(strategy, gates, i, w, ra, st), ProveLayer(strategy, gates, i, w, last, ra, st);
      && next.layerProofs == st.layerProofs + [SC.SumcheckProverProof(st.claimedSum, out.messages, out.challenges)]
      && st.wbEvaluations <= next.wbEvaluations && st.wcEvaluations <= next.wcEvaluations
  {
    var out := LayerRun(strategy, gates, i, w, ra, st);
    if !last {
      assert ProveLayer(strategy, gates, i, w, last, ra, st) == Forwarded(w, InputBits(i), out, WithRounds(st, i, out));
    }
  }

  /** What the prover has sent after i layers is a prefix of what it has sent after j ≥ i. */
  lemma {:induction false} SentPrefix(strategy: SC.Strategy, gates: seq<seq<Gate>>, evals: seq<seq<Fe>>,
                                      hash: Bytes -> Digest, i: nat, j: nat)
    requires Layered(gates, evals) && i <= j <= |gates|
    ensures var a, b := ProverAfter(strategy, gates, evals, hash, i), ProverAfter(strategy, gates, evals, hash, j);
      a.layerProofs <= b.layerProofs && a.wbEvaluations <= b.wbEvaluations && a.wcEvaluations <= b.wcEvaluations
    decreases j
  {
    if i < j {
      SentPrefix(strategy, gates, evals, hash, i, j - 1);
      SentStep(strategy, gates, evals, hash, j - 1);
      var a, b, c := ProverAfter(strategy, gates, evals, hash, i), ProverAfter(strategy, gates, evals, hash, j - 1),
                     ProverAfter(strategy, gates, evals, hash, j);
      PrefixTrans(a.layerProofs, b.layerProofs, c.layerProofs);
      PrefixTrans(a.wbEvaluations, b.wbEvaluations, c.wbEvaluations);
      PrefixTrans(a.wcEvaluations, b.wcEvaluations, c.wcEvaluations);
    }
  }

  /** One pass of the prover only appends to what it has sent. */
  lemma SentStep(strategy: SC.Strategy, gates: seq<seq<Gate>>, evals: seq<seq<Fe>>, hash: Bytes -> Digest, k: nat)
    requires Layered(gates, evals) && k < |gates|
    ensures var a, b := ProverAfter(strategy, gates, evals, hash, k), ProverAfter(strategy, gates, evals, hash, k + 1);
      a.layerProofs <= b.layerProofs && a.wbEvaluations <= b.wbEvaluations && a.wcEvaluations <= b.wcEvaluations
  {
    ProverAfterShape(strategy, gates, evals, hash, k);
    ProverAfterNext(strategy, gates, evals, hash, k);
    ProveLayerAppends(strategy, gates[k], k, evals[k + 1], k + 1 == |gates|, FirstChallenge(hash, evals[0]),
                      ProverAfter(strategy, gates, evals, hash, k));
  }

  /** A prefix of a prefix is a prefix. */
  lemma PrefixTrans<T>(a: seq<T>, b: seq<T>, c: seq<T>)
    requires a <= b && b <= c
    ensures a <= c
  {
    assert c[..|a|] == b[..|a|];
  }

  /**
   * A pass before the last layer sends W(r_b) and W(r_c) at the two
   * halves of its challenges, keeps those halves as r_b and r_c, and
   * folds the claim to α·W(r_b) + β·W(r_c) with the α and β it drew.
   */
  lemma ForwardingPass(strategy: SC.Strategy, gates: seq<Gate>, i: nat, w: seq<Fe>, ra: Fe, st: ProverState)
    requires IsTable(w, InputBits(i)) && ProverReady(i, st)
    ensures var out, k := LayerRun(strategy, gates, i, w, ra, st), InputBits(i);
      var next := ProveLayer(strategy, gates, i, w, false, ra, st);
      && next.rbValues == out.challenges[..k] && next.rcValues == out.challenges[k..]
      && EvalOk(w, next.rbValues) && EvalOk(w, next.rcValues)
      && next.wbEvaluations == st.wbEvaluations + [Eval(w, next.rbValues)]
      && next.wcEvaluations == st.wcEvaluations + [Eval(w, next.rcValues)]
      && next.claimedSum == Add(Mul(next.alpha, Eval(w, next.rbValues)), Mul(next.beta, Eval(w, next.rcValues)))
      && var drawnAlpha := Challenged(Absorbed(out.sponge, FieldElementToBytes(Eval(w, next.rbValues))));
         var drawnBeta := Challenged(Absorbed(drawnAlpha.1, FieldElementToBytes(Eval(w, next.rcValues))));
         next.alpha == drawnAlpha.0 && next.beta == drawnBeta.0 && next.sponge == drawnBeta.1
  {
    var out, k := LayerRun(strategy, gates, i, w, ra, st), InputBits(i);
    TableEvalOk(w, k, out.challenges[..k]);
    TableEvalOk(w, k, out.challenges[k..]);
    assert ProveLayer(strategy, gates, i, w, false, ra, st) == Forwarded(w, k, out, WithRounds(st, i, out));
  }

  /** After pass i the prover has sent, as its (i+1)-th sum-check proof, the one it computed from its state before layer i. */
  lemma LayerProofSent(strategy: SC.Strategy, gates: seq<seq<Gate>>, evals: seq<seq<Fe>>, hash: Bytes -> Digest, i: nat)
    requires Layered(gates, evals) && i < |gates|
    ensures IsTable(evals[i + 1], InputBits(i)) && ProverReady(i, ProverAfter(strategy, gates, evals, hash, i))
    ensures var st, next := ProverAfter(strategy, gates, evals, hash, i), ProverAfter(strategy, gates, evals, hash, i + 1);
      var out := LayerRun(strategy, gates[i], i, evals[i + 1], FirstChallenge(hash, evals[0]), st);
      && i < |next.layerProofs|
      && next.layerProofs[i] == SC.SumcheckProverProof(st.claimedSum, out.messages, out.challenges)
  {
    var st := ProverAfter(strategy, gates, evals, hash, i);
    LayeredAt(gates, evals, i);
    ProverAfterShape(strategy, gates, evals, hash, i);
    ProverAfterNext(strategy, gates, evals, hash, i);
    ProveLayerAppends(strategy, gates[i], i, evals[i + 1], i + 1 == |gates|, FirstChallenge(hash, evals[0]), st);
  }

  /**
   * The proof carries, for layer i, the sum-check proof the prover computed
   * from its state before layer i.
   */
  lemma ProofRoundsAt(strategy: SC.Strategy, gates: seq<seq<Gate>>, evals: seq<seq<Fe>>, hash: Bytes -> Digest, i: nat)
    requires Layered(gates, evals) && i < |gates|
    ensures IsTable(evals[i + 1], InputBits(i)) && ProverReady(i, ProverAfter(strategy, gates, evals, hash, i))
    ensures var st := ProverAfter(strategy, gates, evals, hash, i);
      var out := LayerRun(strategy, gates[i], i, evals[i + 1], FirstChallenge(hash, evals[0]), st);
      var proof := ProofFrom(strategy, gates, evals, hash);
      && i < |proof.sumcheckProofs|
      && proof.sumcheckProofs[i] == SC.SumcheckProverProof(st.claimedSum, out.messages, out.challenges)
  {
    LayerProofSent(strategy, gates, evals, hash, i);
    SentProofKept(strategy, gates, evals, hash, i);
  }

  /** The sum-check proof sent at pass i is the proof's i-th. */
  lemma SentProofKept(strategy: SC.Strategy, gates: seq<seq<Gate>>, evals: seq<seq<Fe>>, hash: Bytes -> Digest, i: nat)
    requires Layered(gates, evals) && i < |gates| && i < |ProverAfter(strategy, gates, evals, hash, i + 1).layerProofs|
    ensures var sent, proof := ProverAfter(strategy, gates, evals, hash, i + 1), ProofFrom(strategy, gates, evals, hash);
      i < |proof.sumcheckProofs| && proof.sumcheckProofs[i] == sent.layerProofs[i]
  {
    ProofsKept(strategy, gates, evals, hash, i + 1);
    PrefixEntry(ProverAfter(strategy, gates, evals, hash, i + 1).layerProofs,
                ProofFrom(strategy, gates, evals, hash).sumcheckProofs, i);
  }

  /** The sum-check proofs the prover has sent after j layers stay at the front of the proof's. */
  lemma ProofsKept(strategy: SC.Strategy, gates: seq<seq<Gate>>, evals: seq<seq<Fe>>, hash: Bytes -> Digest, j: nat)
    requires Layered(gates, evals) && j <= |gates|
    ensures ProverAfter(strategy, gates, evals, hash, j).layerProofs <= ProofFrom(strategy, gates, evals, hash).sumcheckProofs
  {
    SentPrefix(strategy, gates, evals, hash, j, |gates|);
  }

  /** An entry of a prefix is the entry of the longer sequence. */
  lemma PrefixEntry<T>(a: seq<T>, b: seq<T>, i: nat)
    requires a <= b && i < |a|
    ensures i < |b| && b[i] == a[i]
  {
  }

  /**
   * After pass i, not the last, the prover has sent as its (i+1)-th W(r_b)
   * and W(r_c) layer i + 1's values at the two halves of layer i's
   * challenges.
   */
  lemma LayerEvaluationsSent(strategy: SC.Strategy, gates: seq<seq<Gate>>, evals: seq<seq<Fe>>, hash: Bytes -> Digest,
                             i: nat)
    requires Layered(gates, evals) && i + 1 < |gates|
    ensures IsTable(evals[i + 1], InputBits(i)) && ProverReady(i, ProverAfter(strategy, gates, evals, hash, i))
    ensures var w, k := evals[i + 1], InputBits(i);
      var st, next := ProverAfter(strategy, gates, evals, hash, i), ProverAfter(strategy, gates, evals, hash, i + 1);
      var out := LayerRun(strategy, gates[i], i, w, FirstChallenge(hash, evals[0]), st);
      && i < |next.wbEvaluations| && i < |next.wcEvaluations|
      && EvalOk(w, out.challenges[..k]) && EvalOk(w, out.challenges[k..])
      && next.wbEvaluations[i] == Eval(w, out.challenges[..k])
      && next.wcEvaluations[i] == Eval(w, out.challenges[k..])
  {
    var st := ProverAfter(strategy, gates, evals, hash, i);
    LayeredAt(gates, evals, i);
    ProverAfterShape(strategy, gates, evals, hash, i);
    ProverAfterProofs(strategy, gates, evals, hash, i);
    ProverAfterNext(strategy, gates, evals, hash, i);
    ForwardingPass(strategy, gates[i], i, evals[i + 1], FirstChallenge(hash, evals[0]), st);
  }

  /**
   * Before the last layer, the proof carries W(r_b) and W(r_c) of layer
   * i + 1's values at the two halves of layer i's challenges.
   */
  lemma ProofEvaluationsAt(strategy: SC.Strategy, gates: seq<seq<Gate>>, evals: seq<seq<Fe>>, hash: Bytes -> Digest,
                           i: nat)
    requires Layered(gates, evals) && i + 1 < |gates|
    ensures IsTable(evals[i + 1], InputBits(i)) && ProverReady(i, ProverAfter(strategy, gates, evals, hash, i))
    ensures var w, k, st := evals[i + 1], InputBits(i), ProverAfter(strategy, gates, evals, hash, i);
      var out := LayerRun(strategy, gates[i], i, w, FirstChallenge(hash, evals[0]), st);
      var proof := ProofFrom(strategy, gates, evals, hash);
      && i < |proof.wbEvaluations| && i < |proof.wcEvaluations|
      && EvalOk(w, out.challenges[..k]) && EvalOk(w, out.challenges[k..])
      && proof.wbEvaluations[i] == Eval(w, out.challenges[..k])
      && proof.wcEvaluations[i] == Eval(w, out.challenges[k..])
  {
    LayerEvaluationsSent(strategy, gates, evals, hash, i);
    SentEvaluationsKept(strategy, gates, evals, hash, i);
  }

  /** W(r_b) and W(r_c) sent at pass i are the proof's i-th. */
  lemma SentEvaluationsKept(strategy: SC.Strategy, gates: seq<seq<Gate>>, evals: seq<seq<Fe>>, hash: Bytes -> Digest,
                            i: nat)
    requires Layered(gates, evals) && i < |gates|
    requires i < |ProverAfter(strategy, gates, evals, hash, i + 1).wbEvaluations|
    requires i < |ProverAfter(strategy, gates, evals, hash, i + 1).wcEvaluations|
    ensures var sent, proof := ProverAfter(strategy, gates, evals, hash, i + 1), ProofFrom(strategy, gates, evals, hash);
      && i < |proof.wbEvaluations| && i < |proof.wcEvaluations|
      && proof.wbEvaluations[i] == sent.wbEvaluations[i] && proof.wcEvaluations[i] == sent.wcEvaluations[i]
  {
    SentPrefix(strategy, gates, evals, hash, i + 1, |gates|);
    CarriedEvaluations(ProverAfter(strategy, gates, evals, hash, i + 1), ProofFrom(strategy, gates, evals, hash), i);
  }

  /** The i-th W(r_b) and W(r_c) sent stay in any proof whose evaluations extend the sent ones. */
  lemma CarriedEvaluations(sent: ProverState, proof: Proof, i: nat)
    requires sent.wbEvaluations <= proof.wbEvaluations && sent.wcEvaluations <= proof.wcEvaluations
    requires i < |sent.wbEvaluations| && i < |sent.wcEvaluations|
    ensures i < |proof.wbEvaluations| && i < |proof.wcEvaluations|
    ensures proof.wbEvaluations[i] == sent.wbEvaluations[i] && proof.wcEvaluations[i] == sent.wcEvaluations[i]
  {
  }

  /** Honest layer i takes the verifier from the prover's state before it to the prover's state after it. */
  lemma HonestStep(gates: seq<seq<Gate>>, inputs: seq<Fe>, hash: Bytes -> Digest, i: nat)
    requires HonestCircuit(gates, inputs) && i < |gates|
    requires VerifierAfter(gates, HonestProof(gates, inputs, hash), inputs, hash, i)
             == Running(Mirrored(HonestAfter(gates, inputs, hash, i)))
    ensures VerifierAfter(gates, HonestProof(gates, inputs, hash), inputs, hash, i + 1).Running?
    ensures i + 1 < |gates| ==>
      VerifierAfter(gates, HonestProof(gates, inputs, hash), inputs, hash, i + 1)
      == Running(Mirrored(HonestAfter(gates, inputs, hash, i + 1)))
  {
    var evals, proof := Evaluations(gates, inputs), HonestProof(gates, inputs, hash);
    var ra := FirstChallenge(hash, evals[0]);
    var st := HonestAfter(gates, inputs, hash, i);
    LayeredAt(gates, evals, i);
    if i == 0 {
      OutputClaim(gates, inputs, hash);
    } else {
      FoldedClaim(gates, inputs, hash, i);
    }
    ProofRoundsAt(SC.Honest(2), gates, evals, hash, i);
    if i + 1 < |gates| {
      ProofEvaluationsAt(SC.Honest(2), gates, evals, hash, i);
    }
    VerifierPassAt(gates, proof, inputs, hash, i, Mirrored(st));
    HonestLayerAccepted(gates[i], i, i + 1 == |gates|, ra, inputs, proof, evals[i + 1], st);
    ProverAfterNext(SC.Honest(2), gates, evals, hash, i);
  }

  /** The verifier opens the honest output into the prover's state before its loop. */
  lemma HonestStart(gates: seq<seq<Gate>>, inputs: seq<Fe>, hash: Bytes -> Digest)
    requires HonestCircuit(gates, inputs)
    ensures VerifierAfter(gates, HonestProof(gates, inputs, hash), inputs, hash, 0)
            == Running(Mirrored(HonestAfter(gates, inputs, hash, 0)))
  {
    StartMirrored(gates, Evaluations(gates, inputs), hash);
  }

  /** The verifier opens the output `prove` sends into the prover's state before its loop. */
  lemma StartMirrored(gates: seq<seq<Gate>>, evals: seq<seq<Fe>>, hash: Bytes -> Digest)
    requires Layered(gates, evals)
    ensures VerifierStart(ProofOf(gates, evals, hash), hash) == Running(Mirrored(ProverStart(evals, hash)))
  {
    var proof := ProofOf(gates, evals, hash);
    assert proof.circuitOutput == evals[0];
    StartFromOutput(proof, evals, hash);
  }

  /** A proof whose output is the top layer's values opens into the prover's state before its loop. */
  lemma StartFromOutput(proof: Proof, evals: seq<seq<Fe>>, hash: Bytes -> Digest)
    requires |evals| >= 1 && 1 <= |evals[0]| <= 2 && proof.circuitOutput == evals[0]
    ensures VerifierStart(proof, hash) == Running(Mirrored(ProverStart(evals, hash)))
  {
    InitialClaimValue(evals[0], FirstChallenge(hash, evals[0]));
    OpenedState(proof, hash);
    StartState(evals, hash);
  }

  /** The verifier's opening, when W_0 can be evaluated at r_a: the transcript after r_a and the claim W_0(r_a). */
  lemma OpenedState(proof: Proof, hash: Bytes -> Digest)
    requires EvalOk(W0Table(proof.circuitOutput), [FirstChallenge(hash, proof.circuitOutput)])
    ensures var drawn := Challenged(Absorbed(Fresh(hash), EncodeBe(W0Table(proof.circuitOutput))));
      VerifierStart(proof, hash) == Running(VerifierState(drawn.1, Eval(W0Table(proof.circuitOutput), [drawn.0]), 0, 0, []))
  {
  }

  /** The prover's state before its loop, as the verifier's loop variables. */
  lemma StartState(evals: seq<seq<Fe>>, hash: Bytes -> Digest)
    requires |evals| >= 1 && 1 <= |evals[0]| <= 2
    ensures EvalOk(W0Table(evals[0]), [FirstChallenge(hash, evals[0])])
    ensures var drawn := Challenged(Absorbed(Fresh(hash), EncodeBe(W0Table(evals[0]))));
      Mirrored(ProverStart(evals, hash)) == VerifierState(drawn.1, Eval(W0Table(evals[0]), [drawn.0]), 0, 0, [])
  {
    InitialClaimValue(evals[0], FirstChallenge(hash, evals[0]));
  }

  /** Before each layer of an honest circuit the verifier's loop variables mirror the prover's. */
  lemma {:induction false} HonestRunning(gates: seq<seq<Gate>>, inputs: seq<Fe>, hash: Bytes -> Digest, i: nat)
    requires HonestCircuit(gates, inputs) && i < |gates|
    ensures VerifierAfter(gates, HonestProof(gates, inputs, hash), inputs, hash, i)
            == Running(Mirrored(HonestAfter(gates, inputs, hash, i)))
  {
    if i == 0 {
      HonestStart(gates, inputs, hash);
    } else {
      HonestRunning(gates, inputs, hash, i - 1);
      HonestStep(gates, inputs, hash, i - 1);
    }
  }

  /**
   * Completeness: on a circuit whose layers read the layer below, fit
   * their tables and list no gate twice, `verify` returns true on the
   * proof `prove` returns, whatever the hash.
   */
  lemma ProveThenVerify(gates: seq<seq<Gate>>, inputs: seq<Fe>, hash: Bytes -> Digest)
    requires HonestCircuit(gates, inputs)
    ensures VerifyReturns(gates, HonestProof(gates, inputs, hash), inputs, hash)
    ensures Accepts(gates, HonestProof(gates, inputs, hash), inputs, hash)
  {
    HonestRunning(gates, inputs, hash, |gates| - 1);
    HonestStep(gates, inputs, hash, |gates| - 1);
  }

  /**
   * `prove` followed by `verify` on the same circuit and inputs: on a
   * circuit whose layers read the layer below, fit their tables and list
   * no gate twice, the proof is accepted.
   */
  method ProveAndVerify(circuit: Circuit, inputs: seq<Fe>, hash: Bytes -> Digest) returns (proof: Proof, accepted: bool)
    requires HonestCircuit(circuit.Gates(), inputs)
    ensures proof == HonestProof(circuit.Gates(), inputs, hash)
    ensures accepted
  {
    proof := Prove(circuit, inputs, hash);
    ProveThenVerify(circuit.Gates(), inputs, hash);
    accepted := Verify(circuit, proof, inputs, hash);
  }

  // ---------------------------------------------------------------------
  // The circuits of gkr_p_test.rs
  // ---------------------------------------------------------------------

  /**
   * A layer whose gate k writes entry k: its values are each gate's
   * operation on the two entries it reads, in gate order.
   */
  lemma OneGatePerOutput(gates: seq<Gate>, input: seq<Fe>)
    requires |gates| >= 1 && InputsInRange(gates, |input|)
    requires forall k :: 0 <= k < |gates| ==> gates[k].output == k
    ensures LayerValues(gates, input)
         == seq(|gates|, k requires 0 <= k < |gates| => Operations(gates[k].operation, input[gates[k].left], input[gates[k].right]))
  {
    var m := MaxOutputIndex(gates);
    assert gates[|gates| - 1].output <= m;
    forall k | 0 <= k < |gates|
      ensures LayerValues(gates, input)[k] == Operations(gates[k].operation, input[gates[k].left], input[gates[k].right])
    {
      SingleTargetEntry(gates, input, k);
    }
  }

  /** Layer i ≤ 2 whose gates fit their digits fits its wiring tables. */
  lemma LayerFits(gates: seq<Gate>, i: nat)
    requires i <= 2 && GatesInRange(gates, i)
    ensures NumOfLayerVariables(i) < 64 && PositionsFit(gates, i)
  {
    GatesInRangeFit(gates, i);
  }

  /**
   * A two-layer circuit whose gates fit their digits, with one output,
   * two middle values and four inputs, has the layered shape.
   */
  lemma TwoLayered(gates: seq<seq<Gate>>, evals: seq<seq<Fe>>)
    requires |gates| == 2 && GatesInRange(gates[0], 0) && GatesInRange(gates[1], 1)
    requires |evals| == 3 && |evals[0]| == 1 && |evals[1]| == 2 && |evals[2]| == 4
    ensures Layered(gates, evals)
  {
    forall i | 0 <= i < 2
      ensures NumOfLayerVariables(i) < 64 && PositionsFit(gates[i], i)
    {
      LayerFits(gates[i], i);
    }
    SmallPowers();
    forall j | 1 <= j <= 2
      ensures IsTable(evals[j], j)
    {
      if j == 1 {} else {}
    }
  }

  /**
   * A three-layer circuit whose gates fit their digits, with one output,
   * then two, four and eight values, has the layered shape.
   */
  lemma ThreeLayered(gates: seq<seq<Gate>>, evals: seq<seq<Fe>>)
    requires |gates| == 3 && GatesInRange(gates[0], 0) && GatesInRange(gates[1], 1) && GatesInRange(gates[2], 2)
    requires |evals| == 4 && |evals[0]| == 1 && |evals[1]| == 2 && |evals[2]| == 4 && |evals[3]| == 8
    ensures Layered(gates, evals)
  {
    forall i | 0 <= i < 3
      ensures NumOfLayerVariables(i) < 64 && PositionsFit(gates[i], i)
    {
      LayerFits(gates[i], i);
    }
    SmallPowers();
    forall j | 1 <= j <= 3
      ensures IsTable(evals[j], j)
    {
      if j == 1 {} else if j == 2 {} else {}
    }
  }

  /** A layer that reads the values below it puts its own values on top of them. */
  lemma LayerOnTop(layers: seq<seq<Gate>>, values: seq<Fe>, top: seq<Fe>)
    requires |layers| >= 1 && Evaluable(layers[1..], values)
    requires InputsInRange(layers[0], |Evaluations(layers[1..], values)[0]|)
    requires LayerValues(layers[0], Evaluations(layers[1..], values)[0]) == top
    ensures Evaluable(layers, values) && Evaluations(layers, values) == [top] + Evaluations(layers[1..], values)
  {
  }

  /** The table sizes of the test circuits. */
  lemma SmallPowers()
    ensures Pow2(1) == 2 && Pow2(2) == 4 && Pow2(3) == 8
  {
    assert Pow2(0) == 1;
    assert Pow2(1) == 2;
    assert Pow2(2) == 4;
  }

  /** `test_gkr_protocol1`: (x0 + x1)·(x2·x3) over two layers. */
  function FirstTestGates(): seq<seq<Gate>>
  {
    [[Gate(0, 1, 0, MUL)], [Gate(0, 1, 0, ADD), Gate(2, 3, 1, MUL)]]
  }

  /** The first test circuit's lower layer adds 2 and 3 and multiplies 4 by 5. */
  lemma FirstTestMiddle()
    ensures InputsInRange(FirstTestGates()[1], 4) && LayerValues(FirstTestGates()[1], [2, 3, 4, 5]) == [5, 20]
  {
    OneGatePerOutput(FirstTestGates()[1], [2, 3, 4, 5]);
  }

  /** The first test circuit's output layer multiplies 5 by 20. */
  lemma FirstTestTop()
    ensures InputsInRange(FirstTestGates()[0], 2) && LayerValues(FirstTestGates()[0], [5, 20]) == [100]
  {
    OneGatePerOutput(FirstTestGates()[0], [5, 20]);
  }

  /** On inputs 2, 3, 4, 5 the first test circuit computes 5 and 20, then 100. */
  lemma FirstTestEvaluations()
    ensures Evaluable(FirstTestGates(), [2, 3, 4, 5])
    ensures Evaluations(FirstTestGates(), [2, 3, 4, 5]) == [[100], [5, 20], [2, 3, 4, 5]]
  {
    var gates, inputs := FirstTestGates(), [2, 3, 4, 5];
    FirstTestMiddle();
    FirstTestTop();
    var lower := [gates[1]];
    assert lower[1..] == [];
    LayerOnTop(lower, inputs, [5, 20]);
    assert gates[1..] == lower;
    LayerOnTop(gates, inputs, [100]);
  }

  /** The first test circuit's gates fit their digits and none is listed twice. */
  lemma FirstTestWiring()
    ensures GatesInRange(FirstTestGates()[0], 0) && GatesInRange(FirstTestGates()[1], 1)
    ensures forall i :: 0 <= i < 2 ==> DistinctGates(FirstTestGates()[i])
  {
    SmallPowers();
    var gates := FirstTestGates();
    forall i | 0 <= i < 2
      ensures DistinctGates(gates[i])
    {
      if i == 0 {} else {}
    }
  }

  /** The first test circuit is one `prove` and `verify` handle. */
  lemma FirstTestHonest()
    ensures HonestCircuit(FirstTestGates(), [2, 3, 4, 5])
  {
    FirstTestWiring();
    FirstTestEvaluations();
    TwoLayered(FirstTestGates(), Evaluations(FirstTestGates(), [2, 3, 4, 5]));
  }

  /** `test_gkr_protocol1`: `verify` returns true on what `prove` returns. */
  method FirstTest(hash: Bytes -> Digest) returns (accepted: bool)
    ensures accepted
  {
    var layer0 := new Layer([Gate(0, 1, 0, MUL)]);
    var layer1 := new Layer([Gate(0, 1, 0, ADD), Gate(2, 3, 1, MUL)]);
    var circuit := new Circuit([layer0, layer1]);
    assert circuit.Gates() == FirstTestGates();
    FirstTestHonest();
    var proof;
    proof, accepted := ProveAndVerify(circuit, [2, 3, 4, 5], hash);
  }

  /** `test_gkr_protocol2`: pairwise sums of eight inputs, then a product and a sum, then their sum. */
  function SecondTestGates(): seq<seq<Gate>>
  {
    [[Gate(0, 1, 0, ADD)],
     [Gate(0, 1, 0, MUL), Gate(2, 3, 1, ADD)],
     [Gate(0, 1, 0, ADD), Gate(2, 3, 1, ADD), Gate(4, 5, 2, ADD), Gate(6, 7, 3, ADD)]]
  }

  /** The second test circuit's bottom layer adds the inputs pairwise. */
  lemma SecondTestBottom()
    ensures InputsInRange(SecondTestGates()[2], 8)
    ensures LayerValues(SecondTestGates()[2], [1, 2, 3, 4, 5, 6, 7, 8]) == [3, 7, 11, 15]
  {
    OneGatePerOutput(SecondTestGates()[2], [1, 2, 3, 4, 5, 6, 7, 8]);
  }

  /** The second test circuit's middle layer multiplies 3 by 7 and adds 11 and 15. */
  lemma SecondTestMiddle()
    ensures InputsInRange(SecondTestGates()[1], 4) && LayerValues(SecondTestGates()[1], [3, 7, 11, 15]) == [21, 26]
  {
    OneGatePerOutput(SecondTestGates()[1], [3, 7, 11, 15]);
  }

  /** The second test circuit's output layer adds 21 and 26. */
  lemma SecondTestTop()
    ensures InputsInRange(SecondTestGates()[0], 2) && LayerValues(SecondTestGates()[0], [21, 26]) == [47]
  {
    OneGatePerOutput(SecondTestGates()[0], [21, 26]);
  }

  /** On inputs 1 to 8 the second test circuit computes 3, 7, 11, 15, then 21 and 26, then 47. */
  lemma SecondTestEvaluations()
    ensures Evaluable(SecondTestGates(), [1, 2, 3, 4, 5, 6, 7, 8])
    ensures Evaluations(SecondTestGates(), [1, 2, 3, 4, 5, 6, 7, 8])
         == [[47], [21, 26], [3, 7, 11, 15], [1, 2, 3, 4, 5, 6, 7, 8]]
  {
    var gates, inputs := SecondTestGates(), [1, 2, 3, 4, 5, 6, 7, 8];
    SecondTestBottom();
    SecondTestMiddle();
    SecondTestTop();
    var bottom := [gates[2]];
    var lower := [gates[1], gates[2]];
    assert bottom[1..] == [];
    LayerOnTop(bottom, inputs, [3, 7, 11, 15]);
    assert lower[1..] == bottom;
    LayerOnTop(lower, inputs, [21, 26]);
    assert gates[1..] == lower;
    LayerOnTop(gates, inputs, [47]);
  }

  /** The second test circuit's gates fit their digits and none is listed twice. */
  lemma SecondTestWiring()
    ensures GatesInRange(SecondTestGates()[0], 0) && GatesInRange(SecondTestGates()[1], 1) && GatesInRange(SecondTestGates()[2], 2)
    ensures forall i :: 0 <= i < 3 ==> DistinctGates(SecondTestGates()[i])
  {
    SmallPowers();
    var gates := SecondTestGates();
    forall i | 0 <= i < 3
      ensures DistinctGates(gates[i])
    {
      if i == 0 {} else if i == 1 {} else {}
    }
  }

  /** The second test circuit is one `prove` and `verify` handle. */
  lemma SecondTestHonest()
    ensures HonestCircuit(SecondTestGates(), [1, 2, 3, 4, 5, 6, 7, 8])
  {
    SecondTestWiring();
    SecondTestEvaluations();
    ThreeLayered(SecondTestGates(), Evaluations(SecondTestGates(), [1, 2, 3, 4, 5, 6, 7, 8]));
  }

  /** `test_gkr_protocol2`: `verify` returns true on what `prove` returns. */
  method SecondTest(hash: Bytes -> Digest) returns (accepted: bool)
    ensures accepted
  {
    var layer0 := new Layer([Gate(0, 1, 0, ADD)]);
    var layer1 := new Layer([Gate(0, 1, 0, MUL), Gate(2, 3, 1, ADD)]);
    var layer2 := new Layer([Gate(0, 1, 0, ADD), Gate(2, 3, 1, ADD), Gate(4, 5, 2, ADD), Gate(6, 7, 3, ADD)]);
    var circuit := new Circuit([layer0, layer1, layer2]);
    assert circuit.Gates() == SecondTestGates();
    SecondTestHonest();
    var proof;
    proof, accepted := ProveAndVerify(circuit, [1, 2, 3, 4, 5, 6, 7, 8], hash);
  }

  // ---------------------------------------------------------------------
  // Round counts are never checked
  // ---------------------------------------------------------------------

  /** A one-layer circuit with a single addition gate: output 0 is input 0 plus input 1. */
  function AdderGates(): seq<seq<Gate>>
  {
    [[Gate(0, 1, 0, ADD)]]
  }

  /** A proof that the adder outputs 0, with a sum-check of no rounds claiming 0. */
  function ForgedProof(): Proof
  {
    Proof([0], 0, [SC.SumcheckProverProof(0, [], [])], [], [])
  }

  /** The adder on inputs 1 and 2 outputs 3. */
  lemma AdderValue()
    ensures Evaluable(AdderGates(), [1, 2]) && Evaluations(AdderGates(), [1, 2])[0] == [3]
  {
    var gate := Gate(0, 1, 0, ADD);
    assert Evaluations(AdderGates()[1..], [1, 2]) == [[1, 2]];
    assert Contributions([gate], [1, 2], 0) == [Add(1, 2)];
    SumSingleton(Add(1, 2));
    assert LayerValues([gate], [1, 2]) == [3];
  }

  /**
   * The adder's wiring tables fit, and with the output variable bound to
   * r_a and nothing else bound both read 0: the gate sits at position 1,
   * and entries 0 and 4, the pair entry 0 is bound from, are unmarked.
   */
  lemma AdderWiringUnread(ra: Fe, wb: Fe, wc: Fe, st: VerifierState)
    requires st.previous == []
    ensures ClaimReadable(AdderGates()[0], 0, 0, st.previous)
    ensures ExpectedClaim(AdderGates()[0], 0, ra, [], wb, wc, st) == 0
  {
    AdderUnmarked();
    UnreadWiring(AdderGates()[0], ra, wb, wc, st);
  }

  /** The adder's gate sits at position 1 of the output layer's tables, so entries 0 and 4 are unmarked. */
  lemma AdderUnmarked()
    ensures PositionsFit(AdderGates()[0], 0)
    ensures !Marked(AdderGates()[0], ADD, 0, 0) && !Marked(AdderGates()[0], ADD, 0, 4)
    ensures !Marked(AdderGates()[0], MUL, 0, 0) && !Marked(AdderGates()[0], MUL, 0, 4)
  {
    var gate := Gate(0, 1, 0, ADD);
    AdderPosition();
    assert AdderGates()[0] == [gate];
    assert PositionsFit([gate], 0) by {
      assert [gate][0] == gate;
    }
    SingleGateMarked(gate, ADD, 0, 0);
    SingleGateMarked(gate, ADD, 0, 4);
    SingleGateMarked(gate, MUL, 0, 0);
    SingleGateMarked(gate, MUL, 0, 4);
  }

  /** The adder's gate, output 0 reading inputs 0 and 1, sits at position 1 of tables of 2^3 entries. */
  lemma AdderPosition()
    ensures GatePosition(0, Gate(0, 1, 0, ADD)) == 1 && 1 < Pow2(NumOfLayerVariables(0))
  {
    PositionInRange(0, 0, 0, 1);
  }

  /** A layer of one gate marks only that gate's position, for its own operation. */
  lemma SingleGateMarked(gate: Gate, operation: Operation, i: nat, k: nat)
    ensures Marked([gate], operation, i, k) <==> gate.operation == operation && GatePosition(i, gate) == k
  {
    if gate.operation == operation && GatePosition(i, gate) == k {
      assert [gate][0] == gate;
    }
  }

  /**
   * An output layer that fits its tables and leaves entries 0 and 4
   * unmarked reads 0 from both wiring tables once r_a alone is bound, so
   * the expected claim on no challenges is 0.
   */
  lemma UnreadWiring(gates: seq<Gate>, ra: Fe, wb: Fe, wc: Fe, st: VerifierState)
    requires st.previous == [] && PositionsFit(gates, 0)
    requires !Marked(gates, ADD, 0, 0) && !Marked(gates, ADD, 0, 4)
    requires !Marked(gates, MUL, 0, 0) && !Marked(gates, MUL, 0, 4)
    ensures ClaimReadable(gates, 0, 0, st.previous)
    ensures ExpectedClaim(gates, 0, ra, [], wb, wc, st) == 0
  {
    MulZero(Add(wb, wc));
    MulZero(Mul(wb, wc));
    var addI, mulI := Indicator(gates, ADD, 0), Indicator(gates, MUL, 0);
    BindFirstEntry(addI, 3, ra, 0);
    BindFirstEntry(mulI, 3, ra, 0);
    LerpConst(0, ra);
    var addW, mulW := WB.InitialWiring(gates, 0, ADD, ra), WB.InitialWiring(gates, 0, MUL, ra);
    assert Eval(addW, []) == 0 && Eval(mulW, []) == 0;
  }

  /**
   * `verify` accepts the forged proof on inputs 1 and 2, whose sum is 3:
   * the claim W_0(r_a) on the output [0] is 0, a sum-check with no rounds
   * passes and leaves that claim and no challenges, and the wiring tables
   * bound to r_a alone read 0 at their first entry, so the expected claim
   * is 0 too, whatever the hash.
   */
  lemma ForgedOutputAccepted(hash: Bytes -> Digest)
    ensures Evaluable(AdderGates(), [1, 2]) && Evaluations(AdderGates(), [1, 2])[0] == [3]
    ensures Accepts(AdderGates(), ForgedProof(), [1, 2], hash)
  {
    AdderValue();
    var gates, proof, inputs := AdderGates(), ForgedProof(), [1, 2];
    var ra := FirstChallenge(hash, proof.circuitOutput);
    VerifierStartOutputs(proof, hash);
    LerpConst(0, ra);
    var st := VerifierAfter(gates, proof, inputs, hash, 0).state;
    assert st.claimedSum == 0 && st.previous == [];
    VerifierPassAt(gates, proof, inputs, hash, 0, st);
    var sumcheckProof := proof.sumcheckProofs[0];
    var rounds := SC.VerifyRounds(Absorbed(st.sponge, FieldElementToBytes(0)), 0, []);
    assert rounds.passed && rounds.challenges == [] && rounds.claim == 0;
    assert InputsReadable(inputs, []) && Eval(inputs, []) == 1;
    AdderWiringUnread(ra, 1, 1, st);
  }

  // ---------------------------------------------------------------------
  // A verifier that also checks the round counts
  // ---------------------------------------------------------------------

  /** One sum-check proof per layer, layer i with two rounds per input variable of layer i. */
  predicate RoundsChecked(gates: seq<seq<Gate>>, proof: Proof)
  {
    |proof.sumcheckProofs| == |gates| && RoundCounts(proof.sumcheckProofs)
  }

  /** `verify` with the round counts checked first. */
  predicate CheckedAccepts(gates: seq<seq<Gate>>, proof: Proof, inputs: seq<Fe>, hash: Bytes -> Digest)
  {
    RoundsChecked(gates, proof) && Accepts(gates, proof, inputs, hash)
  }

  /** The forged proof of the adder's output, accepted by `verify`, fails the round-count check. */
  lemma ForgedOutputRejected(hash: Bytes -> Digest)
    ensures Accepts(AdderGates(), ForgedProof(), [1, 2], hash)
    ensures !CheckedAccepts(AdderGates(), ForgedProof(), [1, 2], hash)
  {
    ForgedOutputAccepted(hash);
    assert |ForgedProof().sumcheckProofs[0].roundUnivariatePolynomials| != 2 * InputBits(0);
  }

  /** Checking the round counts loses no honest proof: `prove` followed by the checked verifier accepts. */
  lemma CheckedComplete(gates: seq<seq<Gate>>, inputs: seq<Fe>, hash: Bytes -> Digest)
    requires HonestCircuit(gates, inputs)
    ensures CheckedAccepts(gates, HonestProof(gates, inputs, hash), inputs, hash)
  {
    ProveThenVerify(gates, inputs, hash);
    ProverAfterProofs(SC.Honest(2), gates, Evaluations(gates, inputs), hash, |gates|);
  }

  /**
   * `verify` preceded by a check that there is one sum-check proof per
   * layer and that layer i's proof has 2(i + 1) round polynomials.
   */
  method VerifyCounted(circuit: Circuit, proof: Proof, inputs: seq<Fe>, hash: Bytes -> Digest) returns (accepted: bool)
    requires VerifyReturns(circuit.Gates(), proof, inputs, hash)
    ensures accepted == CheckedAccepts(circuit.Gates(), proof, inputs, hash)
  {
    if |proof.sumcheckProofs| != |circuit.layers| {
      return false;
    }
    for k := 0 to |proof.sumcheckProofs|
      invariant RoundCounts(proof.sumcheckProofs[..k])
    {
      if |proof.sumcheckProofs[k].roundUnivariatePolynomials| != 2 * (k + 1) {
        return false;
      }
      assert proof.sumcheckProofs[..k + 1][..k] == proof.sumcheckProofs[..k];
    }
    assert proof.sumcheckProofs[..|proof.sumcheckProofs|] == proof.sumcheckProofs;
    accepted := Verify(circuit, proof, inputs, hash);
  }
}
