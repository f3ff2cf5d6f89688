/**
 * The GKR crate's single-polynomial sum-check: `ProofContainer` holds the
 * table, its claimed sum, the round messages so far and a transcript;
 * `Verifier` holds its own transcript.  Both are proved to follow the
 * rounds of `SingleSumcheck`.
 */
module GkrProver {
  import opened Field
  import opened Encoding
  import opened Hypercube
  import opened MultilinearEV
  import opened Transcripts
  import opened SumcheckUtility
  import opened SingleSumcheck

  class ProofContainer {
    const claimedSum: Fe
    var evaluatedUniPolynomials: seq<seq<Fe>>
    const initialPolynomial: seq<Fe>
    const transcript: Transcript

    /** `ProofContainer::new`: the claimed sum is the sum of all evaluations; no messages yet. */
    constructor (booleanHypercubeEvaluations: seq<Fe>, hash: Bytes -> Digest)
      ensures claimedSum == Sum(booleanHypercubeEvaluations)
      ensures evaluatedUniPolynomials == [] && initialPolynomial == booleanHypercubeEvaluations
      ensures fresh(transcript) && transcript.hasher == Fresh(hash)
    {
      initialPolynomial := booleanHypercubeEvaluations;
      transcript := new Transcript(hash);
      claimedSum := Sum(booleanHypercubeEvaluations);
      evaluatedUniPolynomials := [];
    }

    /**
     * The body of `generate_proofs`'s loop: the round message of the current
     * table is appended and absorbed, a challenge drawn and variable 0 bound
     * to it; the prover stays on the rounds of `ProverRounds`, one fewer left.
     */
    method ProveRound(currentPolynomial: seq<Fe>, ghost k: nat, ghost messages: seq<seq<Fe>>, ghost sponge: Sponge)
      returns (randomChallenge: Fe, next: seq<Fe>)
      requires k >= 1 && ProverProgress(transcript.hasher, currentPolynomial, k, evaluatedUniPolynomials, messages, sponge)
      modifies this, transcript
      ensures ProverProgress(transcript.hasher, next, k - 1, evaluatedUniPolynomials, messages, sponge)
    {
      ghost var state := transcript.hasher;
      var univariateLrValues := SplitPolynomialAndSumEach(currentPolynomial);
      var univariateToBytes := ConvertToBytes(univariateLrValues);
      ghost var done := evaluatedUniPolynomials;
      evaluatedUniPolynomials := evaluatedUniPolynomials + [univariateLrValues];
      transcript.Absorb(univariateToBytes);
      randomChallenge := transcript.RandomChallengeAsFieldElement();
      ProverProgressStep(state, currentPolynomial, k, done, messages, sponge, randomChallenge, transcript.hasher);
      next := PartialEvaluate(currentPolynomial, 0, randomChallenge);
    }

    /**
     * `generate_proofs`: absorbs the table and the claimed sum, then runs
     * one round per variable, appending each message to the ones already
     * held (they are never cleared).
     */
    method GenerateProofs() returns (proof: Prove)
      requires |initialPolynomial| >= 1 && FoldOk(initialPolynomial, Log2(|initialPolynomial|))
      modifies this, transcript
      ensures var out := ProverRounds(Opened(old(transcript.hasher), initialPolynomial, claimedSum),
                                      initialPolynomial, Log2(|initialPolynomial|));
        && evaluatedUniPolynomials == old(evaluatedUniPolynomials) + out.messages
        && transcript.hasher == out.sponge
      ensures proof == Prove(initialPolynomial, claimedSum, evaluatedUniPolynomials)
    {
      var randomChallenges: seq<Fe> := [];
      var polynomialBytes := ConvertToBytes(initialPolynomial);
      transcript.Absorb(polynomialBytes);
      transcript.Absorb(FieldElementToBytes(claimedSum));
      var currentPolynomial := initialPolynomial;
      var n := NumberOfVariables(initialPolynomial);
      ghost var before := evaluatedUniPolynomials;
      ghost var total := ProverRounds(transcript.hasher, initialPolynomial, n);
      ghost var remaining := n;
      for i := 0 to n
        invariant remaining == n - i
        invariant ProverProgress(transcript.hasher, currentPolynomial, remaining, evaluatedUniPolynomials,
                                 before + total.messages, total.sponge)
      {
        var randomChallenge;
        randomChallenge, currentPolynomial := ProveRound(currentPolynomial, remaining, before + total.messages, total.sponge);
        randomChallenges := randomChallenges + [randomChallenge];
        remaining := remaining - 1;
      }
      proof := Prove(initialPolynomial, claimedSum, evaluatedUniPolynomials);
    }
  }
}

module GkrVerifier {
  import opened Field
  import opened Encoding
  import opened Hypercube
  import opened MultilinearEV
  import opened Transcripts
  import opened SumcheckUtility
  import opened SingleSumcheck
  import opened MleTheory
  import GkrProver

  class Verifier {
    const transcript: Transcript

    /** `Verifier::new`: a fresh transcript. */
    constructor (hash: Bytes -> Digest)
      ensures fresh(transcript) && transcript.hasher == Fresh(hash)
    {
      transcript := new Transcript(hash);
    }

    /**
     * `verify`: rejects a round count other than the number of variables,
     * then replays the rounds on its own transcript and finally checks the
     * polynomial at the challenges against the last claim.
     */
    method Verify(proof: Prove) returns (ok: bool)
      requires VerifiableProof(transcript.hasher, proof)
      modifies transcript
      ensures (ok, transcript.hasher) == Verdict(old(transcript.hasher), proof)
    {
      var polynomial, messages := proof.initialPolynomial, proof.evaluatedUniPolynomials;
      if |messages| != NumberOfVariables(polynomial) {
        return false;
      }
      var currentClaimedSum := proof.initialClaimedSum;
      var polynomialBytes := ConvertToBytes(polynomial);
      transcript.Absorb(polynomialBytes);
      transcript.Absorb(FieldElementToBytes(proof.initialClaimedSum));
      ghost var all := CheckRounds(transcript.hasher, proof.initialClaimedSum, messages);
      var challenges: seq<Fe> := [];
      for i := 0 to |messages|
        invariant CheckProgress(transcript.hasher, currentClaimedSum, messages, i, challenges, all)
      {
        var message := messages[i];
        CheckProgressNext(transcript.hasher, currentClaimedSum, messages, i, challenges, all);
        var evaluationAtZero := Evaluate(message, [0]);
        var evaluationAtOne := Evaluate(message, [1]);
        if Add(evaluationAtZero, evaluationAtOne) != currentClaimedSum {
          CheckProgressReject(transcript.hasher, currentClaimedSum, messages, i, challenges, all);
          return false;
        }
        ghost var state := transcript.hasher;
        var messageBytes := ConvertToBytes(message);
        transcript.Absorb(messageBytes);
        var challenge := transcript.RandomChallengeAsFieldElement();
        CheckProgressStep(state, currentClaimedSum, messages, i, challenges, all, challenge, transcript.hasher);
        challenges := challenges + [challenge];
        currentClaimedSum := Evaluate(message, [challenge]);
      }
      CheckProgressDone(transcript.hasher, currentClaimedSum, messages, challenges, all);
      FoldOkEvalOk(polynomial, challenges);
      var fEvaluations := Evaluate(polynomial, challenges);
      ok := fEvaluations == currentClaimedSum;
    }
  }

  /**
   * The crate's prove-then-verify tests for any table: a prover and a
   * verifier with transcripts over the same hash accept the proof.
   */
  method ProveAndVerify(evaluations: seq<Fe>, n: nat, hash: Bytes -> Digest) returns (ok: bool)
    requires IsTable(evaluations, n)
    ensures ok
  {
    var prover := new GkrProver.ProofContainer(evaluations, hash);
    Completeness(Fresh(hash), evaluations, n);
    ghost var out := ProverRounds(Opened(Fresh(hash), evaluations, Sum(evaluations)), evaluations, n);
    var proof := prover.GenerateProofs();
    assert [] + out.messages == out.messages;
    assert proof == Prove(evaluations, Sum(evaluations), out.messages);
    var verifier := new Verifier(hash);
    ok := verifier.Verify(proof);
  }
}
