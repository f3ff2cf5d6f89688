/**
 * The Fiat–Shamir crate's single-polynomial sum-check: the same protocol as
 * the GKR crate's, over its own `MultilinearPolynomial` (whose
 * `partial_evaluation` never reads `self`).  Both sides are proved to follow
 * the rounds of `SingleSumcheck`.
 */
module FiatShamirProver {
  import opened Field
  import opened Encoding
  import opened Hypercube
  import opened Transcripts
  import opened SumcheckUtility
  import opened FiatShamirMultilinear
  import opened SingleSumcheck
  import MultilinearEV

  class ProofContainer {
    const claimedSum: Fe
    var evaluatedUniPolynomials: seq<seq<Fe>>
    const initialPolynomial: MultilinearPolynomial
    const transcript: Transcript

    /** `ProofContainer::new`: the claimed sum is the sum of all evaluations; no messages yet. */
    constructor (booleanHypercubeEvaluations: seq<Fe>, hash: Bytes -> Digest)
      ensures claimedSum == Sum(booleanHypercubeEvaluations)
      ensures evaluatedUniPolynomials == []
      ensures initialPolynomial == MultilinearPolynomial(booleanHypercubeEvaluations)
      ensures fresh(transcript) && transcript.hasher == Fresh(hash)
    {
      initialPolynomial := MultilinearPolynomial(booleanHypercubeEvaluations);
      transcript := new Transcript(hash);
      claimedSum := Sum(booleanHypercubeEvaluations);
      evaluatedUniPolynomials := [];
    }

    /**
     * The body of `generate_proofs`'s loop: the round message of the current
     * table is appended and absorbed, a challenge drawn and variable 0 bound
     * to it; the prover stays on the rounds of `ProverRounds`, one fewer left.
     */
    method ProveRound(currentPolynomial: seq<Fe>, ghost k: nat, ghost messages: seq<seq<Fe>>, ghost sponge: Sponge)
      returns (randomChallenge: Fe, next: seq<Fe>)
      requires k >= 1 && ProverProgress(transcript.hasher, currentPolynomial, k, evaluatedUniPolynomials, messages, sponge)
      modifies this, transcript
      ensures ProverProgress(transcript.hasher, next, k - 1, evaluatedUniPolynomials, messages, sponge)
    {
      ghost var state := transcript.hasher;
      ghost var done := evaluatedUniPolynomials;
      randomChallenge := SendMessage(currentPolynomial);
      ProverProgressStep(state, currentPolynomial, k, done, messages, sponge, randomChallenge, transcript.hasher);
      next := PartialEvaluation(currentPolynomial, 0, randomChallenge);
    }

    /** The message half of a round: the round message is appended and absorbed, and a challenge drawn. */
    method SendMessage(currentPolynomial: seq<Fe>) returns (randomChallenge: Fe)
      modifies this, transcript
      ensures evaluatedUniPolynomials == old(evaluatedUniPolynomials) + [SplitPolynomialAndSumEach(currentPolynomial)]
      ensures (randomChallenge, transcript.hasher)
              == Challenged(Absorbed(old(transcript.hasher), MultilinearEV.EncodeBe(SplitPolynomialAndSumEach(currentPolynomial))))
    {
      var univariateLrValues := SplitPolynomialAndSumEach(currentPolynomial);
      var univariateToBytes := ConvertToBytes(MultilinearPolynomial(univariateLrValues));
      evaluatedUniPolynomials := evaluatedUniPolynomials + [univariateLrValues];
      transcript.Absorb(univariateToBytes);
      randomChallenge := transcript.RandomChallengeAsFieldElement();
    }

    /**
     * `generate_proofs`: absorbs the table and the claimed sum, then runs
     * one round per variable, appending each message to the ones already
     * held (they are never cleared).
     */
    method GenerateProofs() returns (proof: Prove)
      requires |initialPolynomial.evaluations| >= 1
      requires FoldOk(initialPolynomial.evaluations, Log2(|initialPolynomial.evaluations|))
      modifies this, transcript
      ensures var p := initialPolynomial.evaluations;
        var out := ProverRounds(Opened(old(transcript.hasher), p, claimedSum), p, Log2(|p|));
        && evaluatedUniPolynomials == old(evaluatedUniPolynomials) + out.messages
        && transcript.hasher == out.sponge
      ensures proof == Prove(initialPolynomial.evaluations, claimedSum, evaluatedUniPolynomials)
    {
      var randomChallenges: seq<Fe> := [];
      var polynomialBytes := ConvertToBytes(initialPolynomial);
      transcript.Absorb(polynomialBytes);
      transcript.Absorb(FieldElementToBytes(claimedSum));
      var currentPolynomial := initialPolynomial.evaluations;
      var n := GetNumberOfVar(initialPolynomial);
      ghost var before := evaluatedUniPolynomials;
      ghost var total := ProverRounds(transcript.hasher, currentPolynomial, n);
      ghost var remaining := n;
      for i := 0 to n
        invariant remaining == n - i
        invariant ProverProgress(transcript.hasher, currentPolynomial, remaining, evaluatedUniPolynomials,
                                 before + total.messages, total.sponge)
      {
        var randomChallenge;
        randomChallenge, currentPolynomial := ProveRound(currentPolynomial, remaining, before + total.messages, total.sponge);
        randomChallenges := randomChallenges + [randomChallenge];
        remaining := remaining - 1;
      }
      proof := Prove(initialPolynomial.evaluations, claimedSum, evaluatedUniPolynomials);
    }
  }
}

module FiatShamirVerifier {
  import opened Field
  import opened Encoding
  import opened Hypercube
  import opened MleTheory
  import opened Transcripts
  import opened SumcheckUtility
  import opened FiatShamirMultilinear
  import opened SingleSumcheck
  import FiatShamirProver

  class Verifier {
    const transcript: Transcript

    /** `Verifier::new`: a transcript over a fresh hasher. */
    constructor (hash: Bytes -> Digest)
      ensures fresh(transcript) && transcript.hasher == Fresh(hash)
    {
      transcript := new Transcript(hash);
    }

    /**
     * `verify`: rejects a round count other than the number of variables,
     * then replays the rounds on its own transcript and finally checks the
     * polynomial at the challenges against the last claim.
     */
    method Verify(proof: Prove) returns (ok: bool)
      requires VerifiableProof(transcript.hasher, proof)
      modifies transcript
      ensures (ok, transcript.hasher) == Verdict(old(transcript.hasher), proof)
    {
      var polynomial := MultilinearPolynomial(proof.initialPolynomial);
      var messages := proof.evaluatedUniPolynomials;
      if |messages| != GetNumberOfVar(polynomial) {
        return false;
      }
      var currentClaimedSum := proof.initialClaimedSum;
      var polynomialBytes := ConvertToBytes(polynomial);
      transcript.Absorb(polynomialBytes);
      transcript.Absorb(FieldElementToBytes(proof.initialClaimedSum));
      ghost var all := CheckRounds(transcript.hasher, proof.initialClaimedSum, messages);
      var challenges: seq<Fe> := [];
      for i := 0 to |messages|
        invariant CheckProgress(transcript.hasher, currentClaimedSum, messages, i, challenges, all)
      {
        var message := MultilinearPolynomial(messages[i]);
        CheckProgressNext(transcript.hasher, currentClaimedSum, messages, i, challenges, all);
        MessageEval(message.evaluations, 0);
        MessageEval(message.evaluations, 1);
        var evaluationAtZero := Evaluate(message, [0]);
        var evaluationAtOne := Evaluate(message, [1]);
        if Add(evaluationAtZero, evaluationAtOne) != currentClaimedSum {
          CheckProgressReject(transcript.hasher, currentClaimedSum, messages, i, challenges, all);
          return false;
        }
        ghost var state := transcript.hasher;
        var messageBytes := ConvertToBytes(message);
        transcript.Absorb(messageBytes);
        var challenge := transcript.RandomChallengeAsFieldElement();
        CheckProgressStep(state, currentClaimedSum, messages, i, challenges, all, challenge, transcript.hasher);
        challenges := challenges + [challenge];
        MessageEval(message.evaluations, challenge);
        currentClaimedSum := Evaluate(message, [challenge]);
      }
      CheckProgressDone(transcript.hasher, currentClaimedSum, messages, challenges, all);
      FoldOkEvalOk(polynomial.evaluations, challenges);
      var fEvaluations := Evaluate(polynomial, challenges);
      ok := fEvaluations == currentClaimedSum;
    }
  }

  /**
   * The crate's completeness tests for any table: a prover and a verifier
   * with transcripts over the same hash accept the proof.
   */
  method ProveAndVerify(evaluations: seq<Fe>, n: nat, hash: Bytes -> Digest) returns (ok: bool)
    requires IsTable(evaluations, n)
    ensures ok
  {
    var prover := new FiatShamirProver.ProofContainer(evaluations, hash);
    Completeness(Fresh(hash), evaluations, n);
    ghost var out := ProverRounds(Opened(Fresh(hash), evaluations, Sum(evaluations)), evaluations, n);
    var proof := prover.GenerateProofs();
    assert [] + out.messages == out.messages;
    assert proof == Prove(evaluations, Sum(evaluations), out.messages);
    var verifier := new Verifier(hash);
    ok := verifier.Verify(proof);
  }
}
