/**
 * The GKR crate's sum-check over a `SumPolynomial` (`sum_check.rs`): the
 * prover samples each round function at 0..d, interpolates it, absorbs the
 * little-endian coefficients and binds variable 0 to the challenge; the
 * verifier checks g(0) + g(1) against the running claim and moves to g at
 * the challenge.  Completeness: honest rounds on a claim equal to the
 * hypercube sum pass, draw the prover's challenges and end at the
 * polynomial's value there; with any other claim they fail.
 */
module GkrSumcheck {
  import opened Field
  import opened Encoding
  import opened Hypercube
  import opened MultilinearEV
  import opened UniTheory
  import opened Transcripts
  import opened SumcheckUtility
  import opened DensedUniPoly
  import opened ProductPoly
  import opened SumPoly
  import opened RoundTheory
  import MleTheory

  datatype SumcheckProverProof = SumcheckProverProof(
    claimedSum: Fe,
    roundUnivariatePolynomials: seq<DensedUnivariatePolynomial>,
    randomChallenges: seq<Fe>)

  datatype SumcheckVerifierProof = SumcheckVerifierProof(
    isProofValid: bool,
    randomChallenges: seq<Fe>,
    lastClaimedSum: Fe)

  // ---------------------------------------------------------------------
  // Encoding of a round message
  // ---------------------------------------------------------------------

  /** `univariate_to_bytes`: the 32-byte little-endian encodings of the coefficients, in order. */
  function UnivariateToBytes(univariatePoly: seq<Fe>): (bytes: Bytes)
    ensures |bytes| == ElementWidth * |univariatePoly|
  {
    seq(ElementWidth * |univariatePoly|, i requires 0 <= i < ElementWidth * |univariatePoly| =>
      ToBytesLe(univariatePoly[i / ElementWidth])[i % ElementWidth])
  }

  /** Block i of the encoding is coefficient i's little-endian encoding. */
  lemma UnivariateBlock(univariatePoly: seq<Fe>, i: nat)
    requires i < |univariatePoly|
    ensures UnivariateToBytes(univariatePoly)[ElementWidth * i..ElementWidth * (i + 1)] == ToBytesLe(univariatePoly[i])
  {
    var e := UnivariateToBytes(univariatePoly);
    var block := e[ElementWidth * i..ElementWidth * (i + 1)];
    forall k | 0 <= k < ElementWidth
      ensures block[k] == ToBytesLe(univariatePoly[i])[k]
    {
      DivModUnique(ElementWidth * i + k, ElementWidth, i, k);
    }
  }

  /** Different messages are absorbed as different bytes. */
  lemma UnivariateToBytesInjective(a: seq<Fe>, b: seq<Fe>)
    requires UnivariateToBytes(a) == UnivariateToBytes(b)
    ensures a == b
  {
    assert |a| == |b|;
    forall i | 0 <= i < |a|
      ensures a[i] == b[i]
    {
      UnivariateBlock(a, i);
      UnivariateBlock(b, i);
      ToBytesInjective(a[i], b[i]);
    }
  }

  // ---------------------------------------------------------------------
  // generate_round_univariate
  // ---------------------------------------------------------------------

  /** The round function at t: bind variable 0 of every factor to t, collapse, sum. */
  function Sample(pps: seq<ProductPolynomial>, t: Fe): Fe
    requires |pps| >= 1 && ProductsBindAt(pps, 0)
  {
    Sum(PointwiseSum(BindProducts(pps, 0, t)))
  }

  /** The round function sampled at 0, 1, …, d. */
  function RoundEvaluations(pps: seq<ProductPolynomial>, d: nat): (ys: seq<Fe>)
    requires |pps| >= 1 && ProductsBindAt(pps, 0)
    ensures |ys| == d + 1
  {
    seq(d + 1, i requires 0 <= i <= d => Sample(pps, FromNat(i)))
  }

  /** On tables the samples are those of the round function. */
  lemma RoundEvaluationsOnTables(pps: seq<ProductPolynomial>, n: nat, d: nat)
    requires Shape(pps, n) && n >= 1
    ensures ProductsBindAt(pps, 0) && RoundEvaluations(pps, d) == RoundValues(pps, n, d)
  {
    ShapeAfterBinding(pps, n, 0);
    var ys, zs := RoundEvaluations(pps, d), RoundValues(pps, n, d);
    forall i | 0 <= i <= d
      ensures ys[i] == zs[i]
    {
      ShapeAfterBinding(pps, n, FromNat(i));
    }
  }

  /** Whether the products can be collapsed after binding depends only on their lengths. */
  lemma CollapsibleAnyValue(pps: seq<ProductPolynomial>, t: Fe)
    requires ProductsBindAt(pps, 0) && Collapsible(BindProducts(pps, 0, 0))
    ensures Collapsible(BindProducts(pps, 0, t))
  {
    var q0, qt := BindProducts(pps, 0, 0), BindProducts(pps, 0, t);
    forall j, k | 0 <= j < |pps| && 0 <= k < |pps[j].polynomials|
      ensures |qt[j].polynomials[k]| == |q0[j].polynomials[k]|
    {
    }
  }

  /**
   * `generate_round_univariate`: for i = 0..degree binds variable 0 of the
   * sum to i, collapses it element-wise and sums the collapse.
   */
  method GenerateRoundUnivariate(currentPolynomial: SumPolynomial) returns (evaluations: seq<Fe>)
    requires |currentPolynomial.productPolynomials| >= 1 && ProductsBindAt(currentPolynomial.productPolynomials, 0)
    requires Collapsible(BindProducts(currentPolynomial.productPolynomials, 0, 0))
    ensures evaluations == RoundEvaluations(currentPolynomial.productPolynomials, SumPoly.Degree(currentPolynomial))
  {
    var degree := SumPoly.Degree(currentPolynomial);
    var numEvaluations := degree + 1;
    ghost var pps := currentPolynomial.productPolynomials;
    evaluations := [];
    for i := 0 to numEvaluations
      invariant SamplesUpTo(pps, evaluations, i)
    {
      var evaluation := EvaluateRoundAt(currentPolynomial, FromNat(i));
      SamplesSnoc(pps, evaluations, evaluation, i);
      evaluations := evaluations + [evaluation];
    }
    SamplesAreRoundEvaluations(pps, degree, evaluations);
  }

  /** ys holds the round function at 0, 1, …, i - 1, in order. */
  predicate SamplesUpTo(pps: seq<ProductPolynomial>, ys: seq<Fe>, i: nat)
  {
    && |pps| >= 1 && ProductsBindAt(pps, 0) && |ys| == i
    && forall k :: 0 <= k < i ==> ys[k] == Sample(pps, FromNat(k))
  }

  /** The next sample extends the samples so far by one. */
  lemma SamplesSnoc(pps: seq<ProductPolynomial>, ys: seq<Fe>, y: Fe, i: nat)
    requires SamplesUpTo(pps, ys, i) && y == Sample(pps, FromNat(i))
    ensures SamplesUpTo(pps, ys + [y], i + 1)
  {
  }

  /** Values that are the round function at 0, 1, …, d, in order, are its samples. */
  lemma SamplesAreRoundEvaluations(pps: seq<ProductPolynomial>, d: nat, ys: seq<Fe>)
    requires SamplesUpTo(pps, ys, d + 1)
    ensures ys == RoundEvaluations(pps, d)
  {
  }

  /** One pass of the loop above: bind variable 0 to t, collapse element-wise, sum. */
  method EvaluateRoundAt(currentPolynomial: SumPolynomial, value: Fe) returns (evaluation: Fe)
    requires |currentPolynomial.productPolynomials| >= 1 && ProductsBindAt(currentPolynomial.productPolynomials, 0)
    requires Collapsible(BindProducts(currentPolynomial.productPolynomials, 0, 0))
    ensures evaluation == Sample(currentPolynomial.productPolynomials, value)
  {
    var partialEvalSumPoly := SumPoly.PartialEvaluate(currentPolynomial, 0, value);
    CollapsibleAnyValue(currentPolynomial.productPolynomials, value);
    var collapsed := AddPolynomialsElementWise(partialEvalSumPoly);
    evaluation := Sum(collapsed);
  }

  // ---------------------------------------------------------------------
  // The prover's rounds
  // ---------------------------------------------------------------------

  /** Every round can run: several products, each of several factors, all tables of n variables. */
  predicate RoundReady(pps: seq<ProductPolynomial>, n: nat)
  {
    && |pps| > 1
    && (forall j :: 0 <= j < |pps| ==> |pps[j].polynomials| > 1)
    && SumTables(pps, n)
  }

  /** A ready sum keeps its shape and factor counts when variable 0 is bound, and can be collapsed then. */
  lemma ReadyAfterBinding(pps: seq<ProductPolynomial>, n: nat, c: Fe)
    requires RoundReady(pps, n) && n >= 1
    ensures Shape(pps, n) && ProductsBindAt(pps, 0)
    ensures Collapsible(BindProducts(pps, 0, 0))
    ensures RoundReady(BindProducts(pps, 0, c), n - 1)
    ensures forall j :: 0 <= j < |pps| ==> |BindProducts(pps, 0, c)[j].polynomials| == |pps[j].polynomials|
  {
    ShapeAfterBinding(pps, n, c);
    ShapeAfterBinding(pps, n, 0);
    TablesCollapsible(BindProducts(pps, 0, 0), n - 1);
  }

  /** The honest message of a round: the interpolation of the d + 1 samples at 0, 1, …, d. */
  function RoundMessage(pps: seq<ProductPolynomial>, n: nat, d: nat): DensedUnivariatePolynomial
    requires RoundReady(pps, n) && n >= 1
  {
    ReadyAfterBinding(pps, n, 0);
    DensedUnivariatePolynomial(Interp(Points(d), RoundEvaluations(pps, d), d + 1))
  }

  /**
   * The message a prover sends for a round on a sum of n variables.  The
   * crate's prover plays `Honest`; the rounds are defined, and completeness
   * is proved, for any strategy.
   */
  type Strategy = (seq<ProductPolynomial>, nat) -> DensedUnivariatePolynomial

  /**
   * The crate's prover: on a ready sum, the interpolation of the round
   * function's samples at 0, 1, …, d (`prove` never asks otherwise).
   */
  function Honest(d: nat): (strategy: Strategy)
    ensures forall pps: seq<ProductPolynomial>, n: nat :: RoundReady(pps, n) && n >= 1 ==>
      strategy(pps, n) == RoundMessage(pps, n, d)
  {
    (pps: seq<ProductPolynomial>, n: nat) =>
      if RoundReady(pps, n) && n >= 1 then RoundMessage(pps, n, d) else DensedUnivariatePolynomial([])
  }

  /** The messages, challenges and final transcript of the prover's rounds. */
  datatype ProverRun = ProverRun(messages: seq<DensedUnivariatePolynomial>, challenges: seq<Fe>, sponge: Sponge)

  /** A ready sum can be bound at variable 0, and is ready for one round fewer after that. */
  lemma NextReady(pps: seq<ProductPolynomial>, n: nat, c: Fe)
    requires RoundReady(pps, n) && n >= 1
    ensures forall j :: 0 <= j < |pps| ==> BindsAt(pps[j].polynomials, 0)
    ensures RoundReady(BindProducts(pps, 0, c), n - 1)
  {
    ReadyAfterBinding(pps, n, c);
  }

  /**
   * n rounds of `prove` from transcript state s: each round's message is
   * absorbed (little-endian), a challenge drawn and variable 0 bound to it.
   */
  function ProveRounds(s: Sponge, pps: seq<ProductPolynomial>, n: nat, strategy: Strategy): ProverRun
    requires RoundReady(pps, n)
    decreases n
  {
    if n == 0 then ProverRun([], [], s)
    else
      var message := strategy(pps, n);
      var drawn := Challenged(Absorbed(s, UnivariateToBytes(message.coefficients)));
      var c, s1 := drawn.0, drawn.1;
      NextReady(pps, n, c);
      var rest := ProveRounds(s1, BindProducts(pps, 0, c), n - 1, strategy);
      ProverRun([message] + rest.messages, [c] + rest.challenges, rest.sponge)
  }

  /**
   * The prover's progress: the messages and challenges so far followed by
   * those of the k rounds still to run from state s are the totals, and
   * those rounds end in the total's state.
   */
  ghost predicate ProveProgress(s: Sponge, pps: seq<ProductPolynomial>, k: nat, strategy: Strategy,
                                messages: seq<DensedUnivariatePolynomial>, challenges: seq<Fe>, total: ProverRun)
  {
    && RoundReady(pps, k)
    && messages + ProveRounds(s, pps, k, strategy).messages == total.messages
    && challenges + ProveRounds(s, pps, k, strategy).challenges == total.challenges
    && ProveRounds(s, pps, k, strategy).sponge == total.sponge
  }

  /** One round of `ProveRounds` unfolded, for the challenge c and the state s1 the round draws. */
  lemma ProveRoundsCons(s: Sponge, pps: seq<ProductPolynomial>, k: nat, strategy: Strategy, c: Fe, s1: Sponge)
    requires RoundReady(pps, k) && k >= 1
    requires (c, s1) == Challenged(Absorbed(s, UnivariateToBytes(strategy(pps, k).coefficients)))
    ensures ProductsBindAt(pps, 0) && RoundReady(BindProducts(pps, 0, c), k - 1)
    ensures var rest := ProveRounds(s1, BindProducts(pps, 0, c), k - 1, strategy);
      ProveRounds(s, pps, k, strategy) == ProverRun([strategy(pps, k)] + rest.messages, [c] + rest.challenges, rest.sponge)
  {
    ReadyAfterBinding(pps, k, c);
  }

  /** The prover sends one message and draws one challenge per variable. */
  lemma {:induction false} ProveRoundsLength(s: Sponge, pps: seq<ProductPolynomial>, n: nat, strategy: Strategy)
    requires RoundReady(pps, n)
    ensures |ProveRounds(s, pps, n, strategy).messages| == n && |ProveRounds(s, pps, n, strategy).challenges| == n
    decreases n
  {
    if n >= 1 {
      var cs := Challenged(Absorbed(s, UnivariateToBytes(strategy(pps, n).coefficients)));
      ProveRoundsCons(s, pps, n, strategy, cs.0, cs.1);
      ProveRoundsLength(cs.1, BindProducts(pps, 0, cs.0), n - 1, strategy);
    }
  }

  /** Appending one element and then a sequence is appending their concatenation. */
  lemma AppendAssoc<T>(a: seq<T>, x: T, b: seq<T>)
    ensures a + [x] + b == a + ([x] + b)
  {
  }

  /** The progress before the first round. */
  lemma ProveProgressStart(s: Sponge, pps: seq<ProductPolynomial>, n: nat, strategy: Strategy)
    requires RoundReady(pps, n)
    ensures ProveProgress(s, pps, n, strategy, [], [], ProveRounds(s, pps, n, strategy))
  {
    var out := ProveRounds(s, pps, n, strategy);
    assert [] + out.messages == out.messages;
    assert [] + out.challenges == out.challenges;
  }

  /** One round keeps the progress, for the challenge c and the state s1 the round draws. */
  lemma ProveProgressStep(s: Sponge, pps: seq<ProductPolynomial>, k: nat, strategy: Strategy,
                          messages: seq<DensedUnivariatePolynomial>, challenges: seq<Fe>, total: ProverRun,
                          c: Fe, s1: Sponge, next: seq<ProductPolynomial>, k1: nat,
                          messages1: seq<DensedUnivariatePolynomial>, challenges1: seq<Fe>)
    requires ProveProgress(s, pps, k, strategy, messages, challenges, total) && k == k1 + 1
    requires (c, s1) == Challenged(Absorbed(s, UnivariateToBytes(strategy(pps, k).coefficients)))
    requires ProductsBindAt(pps, 0) && next == BindProducts(pps, 0, c)
    requires messages1 == messages + [strategy(pps, k)] && challenges1 == challenges + [c]
    ensures ProveProgress(s1, next, k1, strategy, messages1, challenges1, total)
  {
    ProveRoundsCons(s, pps, k, strategy, c, s1);
    var rest := ProveRounds(s1, next, k1, strategy);
    assert ProveRounds(s, pps, k, strategy) == ProverRun([strategy(pps, k)] + rest.messages, [c] + rest.challenges, rest.sponge);
    AppendAssoc(messages, strategy(pps, k), rest.messages);
    AppendAssoc(challenges, c, rest.challenges);
  }

  /** After the last round the messages, challenges and state are the totals. */
  lemma ProveProgressDone(s: Sponge, pps: seq<ProductPolynomial>, strategy: Strategy,
                          messages: seq<DensedUnivariatePolynomial>, challenges: seq<Fe>, total: ProverRun)
    requires ProveProgress(s, pps, 0, strategy, messages, challenges, total)
    ensures messages == total.messages && challenges == total.challenges && s == total.sponge
  {
    assert messages + [] == messages;
    assert challenges + [] == challenges;
  }

  /** The interpolation of the round's samples is the honest prover's message. */
  lemma MessageOfRound(pps: seq<ProductPolynomial>, k: nat, d: nat, univariate: seq<Fe>, poly: DensedUnivariatePolynomial)
    requires RoundReady(pps, k) && k >= 1
    requires ProductsBindAt(pps, 0) && univariate == RoundEvaluations(pps, d)
    requires poly.coefficients == Interp(Points(d), univariate, d + 1)
    ensures poly == Honest(d)(pps, k)
  {
  }

  /** `prove` runs: the sum is ready for as many rounds as its first factor has variables. */
  predicate ProveReady(sp: SumPolynomial)
  {
    && |sp.productPolynomials| >= 1 && |sp.productPolynomials[0].polynomials| >= 1
    && |sp.productPolynomials[0].polynomials[0]| >= 1
    && RoundReady(sp.productPolynomials, Log2(|sp.productPolynomials[0].polynomials[0]|))
  }

  /** A sum of tables of n variables is ready for `prove`, with n rounds. */
  lemma ProveReadyOnTables(sp: SumPolynomial, n: nat)
    requires RoundReady(sp.productPolynomials, n)
    ensures ProveReady(sp) && SumPoly.NumberOfVariables(sp) == n
  {
    NumberOfVariablesOfTables(sp, n);
  }

  /**
   * `prove`: absorbs the claimed sum (big-endian) and runs one round per
   * variable, the honest prover sampling at 0..degree of the original sum.
   */
  method Prove(sumPolynomial: SumPolynomial, claimedSum: Fe, transcript: Transcript) returns (proof: SumcheckProverProof)
    requires ProveReady(sumPolynomial)
    modifies transcript
    ensures var out := ProveRounds(Absorbed(old(transcript.hasher), FieldElementToBytes(claimedSum)),
                                   sumPolynomial.productPolynomials, SumPoly.NumberOfVariables(sumPolynomial),
                                   Honest(SumPoly.Degree(sumPolynomial)));
      && proof == SumcheckProverProof(claimedSum, out.messages, out.challenges)
      && transcript.hasher == out.sponge
  {
    var numberOfVariables := SumPoly.NumberOfVariables(sumPolynomial);
    var degree := SumPoly.Degree(sumPolynomial);
    var roundUnivariatePolynomials: seq<DensedUnivariatePolynomial> := [];
    var randomChallenges: seq<Fe> := [];
    var currentPolynomial := sumPolynomial;
    transcript.Absorb(FieldElementToBytes(claimedSum));
    ghost var strategy := Honest(degree);
    ghost var total := ProveRounds(transcript.hasher, sumPolynomial.productPolynomials, numberOfVariables, strategy);
    ProveProgressStart(transcript.hasher, sumPolynomial.productPolynomials, numberOfVariables, strategy);
    ghost var remaining := numberOfVariables;
    for round := 0 to numberOfVariables
      invariant remaining == numberOfVariables - round
      invariant ProveProgress(transcript.hasher, currentPolynomial.productPolynomials, remaining, strategy,
                              roundUnivariatePolynomials, randomChallenges, total)
      invariant SumPoly.Degree(currentPolynomial) == degree
    {
      ghost var state := transcript.hasher;
      ghost var pps := currentPolynomial.productPolynomials;
      ghost var k := remaining;
      ReadyAfterBinding(pps, remaining, 0);
      var univariate := GenerateRoundUnivariate(currentPolynomial);
      var xValues := Points(degree);
      var univariatePoly := LagrangeInterpolate(xValues, univariate);
      MessageOfRound(pps, remaining, degree, univariate, univariatePoly);
      transcript.Absorb(UnivariateToBytes(univariatePoly.coefficients));
      ghost var done := roundUnivariatePolynomials;
      roundUnivariatePolynomials := roundUnivariatePolynomials + [univariatePoly];
      var randomChallenge := transcript.RandomChallengeAsFieldElement();
      ReadyAfterBinding(pps, remaining, randomChallenge);
      currentPolynomial := SumPoly.PartialEvaluate(currentPolynomial, 0, randomChallenge);
      ghost var drawn := randomChallenges;
      randomChallenges := randomChallenges + [randomChallenge];
      remaining := remaining - 1;
      ProveProgressStep(state, pps, k, strategy, done, drawn, total, randomChallenge, transcript.hasher,
                        currentPolynomial.productPolynomials, remaining, roundUnivariatePolynomials, randomChallenges);
    }
    ProveProgressDone(transcript.hasher, currentPolynomial.productPolynomials, strategy,
                      roundUnivariatePolynomials, randomChallenges, total);
    proof := SumcheckProverProof(claimedSum, roundUnivariatePolynomials, randomChallenges);
  }

  // ---------------------------------------------------------------------
  // The verifier's rounds
  // ---------------------------------------------------------------------

  /** How the verifier's rounds end: accepted or not, the challenges, the running claim, the transcript. */
  datatype VerifierRun = VerifierRun(passed: bool, challenges: seq<Fe>, claim: Fe, sponge: Sponge)

  /**
   * The rounds of `verify` from state s with running claim `claim`: a
   * message whose values at 0 and 1 do not add up to the claim stops the
   * rounds, with no challenges and the claim it was given; otherwise it is
   * absorbed, a challenge drawn and the claim replaced by its value there.
   */
  function VerifyRounds(s: Sponge, claim: Fe, polys: seq<DensedUnivariatePolynomial>): (o: VerifierRun)
    ensures o.passed ==> |o.challenges| == |polys|
    ensures !o.passed ==> o.challenges == []
    decreases |polys|
  {
    if |polys| == 0 then VerifierRun(true, [], claim, s)
    else
      var m := polys[0].coefficients;
      if Add(EvalPoly(m, 0), EvalPoly(m, 1)) != claim then VerifierRun(false, [], claim, s)
      else
        var drawn := Challenged(Absorbed(s, UnivariateToBytes(m)));
        var c, s1 := drawn.0, drawn.1;
        var rest := VerifyRounds(s1, EvalPoly(m, c), polys[1..]);
        if rest.passed then rest.(challenges := [c] + rest.challenges) else rest
  }

  /** A round that passes its check, followed by rounds that pass, passes with its challenge first. */
  lemma VerifyRoundsPass(s: Sponge, claim: Fe, m: DensedUnivariatePolynomial, polys: seq<DensedUnivariatePolynomial>,
                         c: Fe, s1: Sponge, rest: VerifierRun)
    requires Add(EvalPoly(m.coefficients, 0), EvalPoly(m.coefficients, 1)) == claim
    requires (c, s1) == Challenged(Absorbed(s, UnivariateToBytes(m.coefficients)))
    requires VerifyRounds(s1, EvalPoly(m.coefficients, c), polys) == rest && rest.passed
    ensures VerifyRounds(s, claim, [m] + polys) == rest.(challenges := [c] + rest.challenges)
  {
    assert ([m] + polys)[0] == m && ([m] + polys)[1..] == polys;
  }

  /**
   * The verifier's progress after round i: the rounds from state s with
   * running claim `claim` on the remaining messages reach the outcome `all`
   * of the rounds from the start, and when `all` passes, the challenges
   * drawn so far are its first ones, and when it fails it has none.
   */
  ghost predicate VerifyProgress(s: Sponge, claim: Fe, polys: seq<DensedUnivariatePolynomial>, i: nat,
                                 challenges: seq<Fe>, all: VerifierRun)
  {
    && i <= |polys|
    && var rest := VerifyRounds(s, claim, polys[i..]);
       && rest.passed == all.passed && rest.claim == all.claim && rest.sponge == all.sponge
       && (all.passed ==> challenges + rest.challenges == all.challenges)
       && (!all.passed ==> all.challenges == [])
  }

  /** A round that passes its check keeps the progress with the new claim and challenge. */
  lemma VerifyProgressStep(s: Sponge, claim: Fe, polys: seq<DensedUnivariatePolynomial>, i: nat,
                           challenges: seq<Fe>, all: VerifierRun, c: Fe, s1: Sponge)
    requires VerifyProgress(s, claim, polys, i, challenges, all) && i < |polys|
    requires Add(EvalPoly(polys[i].coefficients, 0), EvalPoly(polys[i].coefficients, 1)) == claim
    requires (c, s1) == Challenged(Absorbed(s, UnivariateToBytes(polys[i].coefficients)))
    ensures VerifyProgress(s1, EvalPoly(polys[i].coefficients, c), polys, i + 1, challenges + [c], all)
  {
    assert polys[i..][0] == polys[i] && polys[i..][1..] == polys[i + 1..];
    var rest := VerifyRounds(s1, EvalPoly(polys[i].coefficients, c), polys[i + 1..]);
    assert challenges + [c] + rest.challenges == challenges + ([c] + rest.challenges);
  }

  /** A round that fails its check ends the rounds: they fail, in the current state, with the current claim. */
  lemma VerifyProgressReject(s: Sponge, claim: Fe, polys: seq<DensedUnivariatePolynomial>, i: nat,
                             challenges: seq<Fe>, all: VerifierRun)
    requires VerifyProgress(s, claim, polys, i, challenges, all) && i < |polys|
    requires Add(EvalPoly(polys[i].coefficients, 0), EvalPoly(polys[i].coefficients, 1)) != claim
    ensures all == VerifierRun(false, [], claim, s)
  {
    assert polys[i..][0] == polys[i];
  }

  /** After the last round the rounds have passed, with the current claim, state and challenges. */
  lemma VerifyProgressDone(s: Sponge, claim: Fe, polys: seq<DensedUnivariatePolynomial>,
                           challenges: seq<Fe>, all: VerifierRun)
    requires VerifyProgress(s, claim, polys, |polys|, challenges, all)
    ensures all == VerifierRun(true, challenges, claim, s)
  {
    assert polys[|polys|..] == [];
  }

  /**
   * `verify`: absorbs the claimed sum and replays the rounds; a failed
   * check returns at once with no challenges and the claim it failed on.
   * The number of rounds is not checked.
   */
  method Verify(proof: SumcheckProverProof, transcript: Transcript) returns (result: SumcheckVerifierProof)
    modifies transcript
    ensures var o := VerifyRounds(Absorbed(old(transcript.hasher), FieldElementToBytes(proof.claimedSum)),
                                  proof.claimedSum, proof.roundUnivariatePolynomials);
      && result == SumcheckVerifierProof(o.passed, o.challenges, o.claim)
      && transcript.hasher == o.sponge
  {
    var polys := proof.roundUnivariatePolynomials;
    transcript.Absorb(FieldElementToBytes(proof.claimedSum));
    var currentSum := proof.claimedSum;
    var randomChallenges: seq<Fe> := [];
    ghost var all := VerifyRounds(transcript.hasher, proof.claimedSum, polys);
    for i := 0 to |polys|
      invariant VerifyProgress(transcript.hasher, currentSum, polys, i, randomChallenges, all)
    {
      var roundPolynomial := polys[i];
      var evalAtZero := DensedUniPoly.Evaluate(roundPolynomial, 0);
      var evalAtOne := DensedUniPoly.Evaluate(roundPolynomial, 1);
      if Add(evalAtZero, evalAtOne) != currentSum {
        VerifyProgressReject(transcript.hasher, currentSum, polys, i, randomChallenges, all);
        return SumcheckVerifierProof(false, [], currentSum);
      }
      ghost var state := transcript.hasher;
      transcript.Absorb(UnivariateToBytes(roundPolynomial.coefficients));
      var randomChallenge := transcript.RandomChallengeAsFieldElement();
      VerifyProgressStep(state, currentSum, polys, i, randomChallenges, all, randomChallenge, transcript.hasher);
      currentSum := DensedUniPoly.Evaluate(roundPolynomial, randomChallenge);
      randomChallenges := randomChallenges + [randomChallenge];
    }
    VerifyProgressDone(transcript.hasher, currentSum, polys, randomChallenges, all);
    result := SumcheckVerifierProof(true, randomChallenges, currentSum);
  }

  // ---------------------------------------------------------------------
  // Completeness
  // ---------------------------------------------------------------------

  /**
   * One honest round on tables of n >= 1 variables with d factors per
   * product: the message's values at 0 and 1 add up to the hypercube sum,
   * and at c it is the hypercube sum of the sum bound at c.
   */
  lemma HonestRound(pps: seq<ProductPolynomial>, n: nat, d: nat, c: Fe)
    requires RoundReady(pps, n) && n >= 1 && Uniform(pps, d) && d < P
    ensures ProductsBindAt(pps, 0)
    ensures var m := RoundMessage(pps, n, d).coefficients;
      && Add(EvalPoly(m, 0), EvalPoly(m, 1)) == Sum(PointwiseSum(pps))
      && EvalPoly(m, c) == Sum(PointwiseSum(BindProducts(pps, 0, c)))
  {
    ReadyAfterBinding(pps, n, c);
    RoundEvaluationsOnTables(pps, n, d);
    MessageIsRoundSum(pps, n, d, 0);
    MessageIsRoundSum(pps, n, d, 1);
    MessageIsRoundSum(pps, n, d, c);
    RoundSumEnds(pps, n);
  }

  /**
   * A strategy whose every message, on sums of d-factor products, is the
   * round polynomial: its values at 0 and 1 add up to the hypercube sum and
   * its value at any c is the hypercube sum after binding variable 0 to c.
   */
  ghost predicate Truthful(strategy: Strategy, d: nat)
  {
    forall pps: seq<ProductPolynomial>, n: nat, c: Fe ::
      RoundReady(pps, n) && n >= 1 && Uniform(pps, d) && ProductsBindAt(pps, 0) ==>
        && Add(EvalPoly(strategy(pps, n).coefficients, 0), EvalPoly(strategy(pps, n).coefficients, 1))
           == Sum(PointwiseSum(pps))
        && EvalPoly(strategy(pps, n).coefficients, c) == Sum(PointwiseSum(BindProducts(pps, 0, c)))
  }

  /** A truthful strategy's message in one round. */
  lemma TruthfulRound(strategy: Strategy, d: nat, pps: seq<ProductPolynomial>, n: nat, c: Fe)
    requires Truthful(strategy, d) && RoundReady(pps, n) && n >= 1 && Uniform(pps, d) && ProductsBindAt(pps, 0)
    ensures Add(EvalPoly(strategy(pps, n).coefficients, 0), EvalPoly(strategy(pps, n).coefficients, 1))
            == Sum(PointwiseSum(pps))
    ensures EvalPoly(strategy(pps, n).coefficients, c) == Sum(PointwiseSum(BindProducts(pps, 0, c)))
  {
  }

  /** The crate's prover sends the round polynomials while d is below the modulus. */
  lemma HonestIsTruthful(d: nat)
    requires d < P
    ensures Truthful(Honest(d), d)
  {
    forall pps: seq<ProductPolynomial>, n: nat, c: Fe |
      RoundReady(pps, n) && n >= 1 && Uniform(pps, d) && ProductsBindAt(pps, 0)
      ensures && Add(EvalPoly(Honest(d)(pps, n).coefficients, 0), EvalPoly(Honest(d)(pps, n).coefficients, 1))
                 == Sum(PointwiseSum(pps))
              && EvalPoly(Honest(d)(pps, n).coefficients, c) == Sum(PointwiseSum(BindProducts(pps, 0, c)))
    {
      HonestRound(pps, n, d, c);
    }
  }

  /**
   * The verifier accepts the rounds from state s with the hypercube sum of
   * pps: it draws the prover's challenges, ends in the prover's state, and
   * its last claim is the sum polynomial evaluated at the challenges.
   */
  ghost predicate Accepted(s: Sponge, pps: seq<ProductPolynomial>, n: nat, out: ProverRun)
  {
    && Shape(pps, n)
    && |out.challenges| == n
    && ProductsEvaluateAt(pps, out.challenges)
    && VerifyRounds(s, Sum(PointwiseSum(pps)), out.messages)
       == VerifierRun(true, out.challenges, Sum(ProductEvaluations(pps, out.challenges)), out.sponge)
  }

  /**
   * A message m that passes the check on the hypercube sum of pps and whose
   * value at its challenge c is the hypercube sum of pps bound at c, in
   * front of rounds accepted on the bound sum, is accepted.
   */
  lemma AcceptedCons(s: Sponge, pps: seq<ProductPolynomial>, n: nat, m: DensedUnivariatePolynomial, c: Fe, s1: Sponge,
                     next: seq<ProductPolynomial>, rest: ProverRun)
    requires Shape(pps, n) && n >= 1 && ProductsBindAt(pps, 0) && next == BindProducts(pps, 0, c)
    requires Add(EvalPoly(m.coefficients, 0), EvalPoly(m.coefficients, 1)) == Sum(PointwiseSum(pps))
    requires Accepted(s1, next, n - 1, rest) && EvalPoly(m.coefficients, c) == Sum(PointwiseSum(next))
    requires (c, s1) == Challenged(Absorbed(s, UnivariateToBytes(m.coefficients)))
    ensures Accepted(s, pps, n, ProverRun([m] + rest.messages, [c] + rest.challenges, rest.sponge))
  {
    BoundProductsEvaluate(pps, c, rest.challenges);
    var tail := VerifierRun(true, rest.challenges, Sum(ProductEvaluations(pps, [c] + rest.challenges)), rest.sponge);
    VerifyRoundsPass(s, Sum(PointwiseSum(pps)), m, rest.messages, c, s1, tail);
  }

  /** One truthful round in front of accepted rounds on the bound tables is accepted. */
  lemma RoundsCompleteStep(s: Sponge, pps: seq<ProductPolynomial>, n: nat, d: nat, strategy: Strategy,
                           c: Fe, s1: Sponge, next: seq<ProductPolynomial>)
    requires RoundReady(pps, n) && n >= 1 && Uniform(pps, d) && Truthful(strategy, d)
    requires (c, s1) == Challenged(Absorbed(s, UnivariateToBytes(strategy(pps, n).coefficients)))
    requires ProductsBindAt(pps, 0) && next == BindProducts(pps, 0, c)
    requires RoundReady(next, n - 1) && Accepted(s1, next, n - 1, ProveRounds(s1, next, n - 1, strategy))
    ensures Accepted(s, pps, n, ProveRounds(s, pps, n, strategy))
  {
    ProveRoundsCons(s, pps, n, strategy, c, s1);
    TruthfulRound(strategy, d, pps, n, c);
    AcceptedCons(s, pps, n, strategy(pps, n), c, s1, next, ProveRounds(s1, next, n - 1, strategy));
  }

  /** Truthful rounds from the hypercube sum are accepted. */
  lemma {:induction false} RoundsComplete(s: Sponge, pps: seq<ProductPolynomial>, n: nat, d: nat, strategy: Strategy)
    requires RoundReady(pps, n) && Uniform(pps, d) && Truthful(strategy, d)
    ensures Accepted(s, pps, n, ProveRounds(s, pps, n, strategy))
    decreases n
  {
    if n == 0 {
      SumWithoutVariables(pps);
    } else {
      var cs := Challenged(Absorbed(s, UnivariateToBytes(strategy(pps, n).coefficients)));
      ReadyAfterBinding(pps, n, cs.0);
      var next := BindProducts(pps, 0, cs.0);
      assert Uniform(next, d);
      RoundsComplete(cs.1, next, n - 1, d, strategy);
      RoundsCompleteStep(s, pps, n, d, strategy, cs.0, cs.1, next);
    }
  }

  /** With a claim other than the hypercube sum, the first truthful round already fails. */
  lemma WrongClaimRejected(s: Sponge, pps: seq<ProductPolynomial>, n: nat, d: nat, strategy: Strategy, claim: Fe)
    requires RoundReady(pps, n) && n >= 1 && Uniform(pps, d) && Truthful(strategy, d)
    requires claim != Sum(PointwiseSum(pps))
    ensures !VerifyRounds(s, claim, ProveRounds(s, pps, n, strategy).messages).passed
  {
    var m := strategy(pps, n);
    var cs := Challenged(Absorbed(s, UnivariateToBytes(m.coefficients)));
    ProveRoundsCons(s, pps, n, strategy, cs.0, cs.1);
    assert Add(EvalPoly(m.coefficients, 0), EvalPoly(m.coefficients, 1)) == Sum(PointwiseSum(pps));
  }

  /**
   * The crate's prove-then-verify test for any ready sum of products with d
   * factors each: a prover and a verifier with transcripts over the same
   * hash, given the hypercube sum, accept; the verifier ends with the
   * prover's challenges and the sum polynomial's value there.
   */
  method ProveAndVerify(sp: SumPolynomial, n: nat, d: nat, hash: Bytes -> Digest) returns (verified: SumcheckVerifierProof)
    requires RoundReady(sp.productPolynomials, n) && Uniform(sp.productPolynomials, d) && d < P
    ensures verified.isProofValid
    ensures ProductsEvaluateAt(sp.productPolynomials, verified.randomChallenges)
    ensures verified.lastClaimedSum == Sum(ProductEvaluations(sp.productPolynomials, verified.randomChallenges))
  {
    var pps := sp.productPolynomials;
    var claimedSum := Sum(PointwiseSum(pps));
    ProveReadyOnTables(sp, n);
    HonestIsTruthful(d);
    var proverTranscript := new Transcript(hash);
    var verifierTranscript := new Transcript(hash);
    var result := Prove(sp, claimedSum, proverTranscript);
    RoundsComplete(Absorbed(Fresh(hash), FieldElementToBytes(claimedSum)), pps, n, d, Honest(d));
    verified := Verify(result, verifierTranscript);
  }

  // ---------------------------------------------------------------------
  // The crate's round test
  // ---------------------------------------------------------------------

  /** Binding x of 2·x·y and 3·x·y at t leaves the lines through 0 and the corner values. */
  lemma CornersBind(ps: seq<seq<Fe>>, t: Fe)
    requires ps == [[0, 0, 0, 2], [0, 0, 0, 3]]
    ensures BindsAt(ps, 0) && BindFactors(ps, 0, t) == [[0, Lerp(0, 2, t)], [0, Lerp(0, 3, t)]]
  {
    BindFour(ps[0], t);
    BindFour(ps[1], t);
    MleTheory.LerpConst(0, t);
    var bs := BindFactors(ps, 0, t);
    assert bs == [bs[0], bs[1]];
  }

  /** Two two-entry factors vanishing at 0 multiply to [0, u·v]. */
  lemma CornersProduct(bs: seq<seq<Fe>>, u: Fe, v: Fe)
    requires bs == [[0, u], [0, v]]
    ensures PointwiseProduct(bs) == [0, Mul(u, v)]
  {
    TwoFactorColumn(bs, 0);
    TwoFactorColumn(bs, 1);
    MulZero(0);
  }

  /** Two equal products whose element-wise product is [0, w] sum to w + w. */
  lemma TwinSum(qs: seq<ProductPolynomial>, bs: seq<seq<Fe>>, w: Fe)
    requires |bs| >= 1 && qs == [ProductPolynomial(bs), ProductPolynomial(bs)] && PointwiseProduct(bs) == [0, w]
    ensures Sum(PointwiseSum(qs)) == Add(w, w)
  {
    assert ProductColumn(qs, 0) == [0, 0];
    assert ProductColumn(qs, 1) == [w, w];
    SumOfPair(0, 0);
    SumOfPair(w, w);
    AddZero(0);
    assert PointwiseSum(qs) == [0, Add(w, w)];
    SumOfPair(0, Add(w, w));
    AddZero(Add(w, w));
    AddComm(0, Add(w, w));
  }

  /** Two copies of the product (2·x·y)(3·x·y), sampled at t: the sum of the two bound products. */
  lemma SampleOfCorners(pps: seq<ProductPolynomial>, t: Fe)
    requires pps == [ProductPolynomial([[0, 0, 0, 2], [0, 0, 0, 3]]), ProductPolynomial([[0, 0, 0, 2], [0, 0, 0, 3]])]
    ensures |pps| >= 1 && ProductsBindAt(pps, 0)
    ensures Sample(pps, t) == Add(Mul(Lerp(0, 2, t), Lerp(0, 3, t)), Mul(Lerp(0, 2, t), Lerp(0, 3, t)))
  {
    assert SumTables(pps, 2);
    BindProductsOnTables(pps, 2, t);
    var ps := pps[0].polynomials;
    CornersBind(ps, t);
    var bs := BindFactors(ps, 0, t);
    CornersProduct(bs, Lerp(0, 2, t), Lerp(0, 3, t));
    var qs := BindProducts(pps, 0, t);
    assert qs == [ProductPolynomial(bs), ProductPolynomial(bs)];
    TwinSum(qs, bs, Mul(Lerp(0, 2, t), Lerp(0, 3, t)));
  }

  /** The corner lines sampled at t: 2·t and 3·t. */
  lemma CornerLines(t: Fe)
    ensures Lerp(0, 2, t) == Mul(t, 2) && Lerp(0, 3, t) == Mul(t, 3)
  {
    assert Sub(2, 0) == 2 && Sub(3, 0) == 3;
    AddZero(Mul(t, 2));
    AddZero(Mul(t, 3));
  }

  /** (2t)(3t) + (2t)(3t): the round function of the crate's test. */
  function TwinValue(t: Fe): Fe
  {
    Add(Mul(Mul(t, 2), Mul(t, 3)), Mul(Mul(t, 2), Mul(t, 3)))
  }

  /** The round function of the crate's test at 0, 1, 2 is 0, 12, 48. */
  lemma TwinSamples()
    ensures forall k :: 0 <= k <= 2 ==> TwinValue(FromNat(k)) == [0, 12, 48][k]
  {
    assert FromNat(0) == 0 && FromNat(1) == 1 && FromNat(2) == 2;
    assert Mul(1, 2) == 2 && Mul(1, 3) == 3 && Mul(2, 3) == 6;
    assert Mul(2, 2) == 4 && Mul(4, 6) == 24;
  }

  /** Two copies of (2·x·y)(3·x·y) sampled at t: (2t)(3t) + (2t)(3t). */
  lemma SampleTwins(pps: seq<ProductPolynomial>, t: Fe)
    requires pps == [ProductPolynomial([[0, 0, 0, 2], [0, 0, 0, 3]]), ProductPolynomial([[0, 0, 0, 2], [0, 0, 0, 3]])]
    ensures |pps| >= 1 && ProductsBindAt(pps, 0)
    ensures Sample(pps, t) == TwinValue(t)
  {
    SampleOfCorners(pps, t);
    CornerLines(t);
  }

  /** The crate's test: the first round of (2·x·y)(3·x·y) + (2·x·y)(3·x·y) samples to 0, 12, 48. */
  lemma RoundUnivariateExample(pps: seq<ProductPolynomial>)
    requires pps == [ProductPolynomial([[0, 0, 0, 2], [0, 0, 0, 3]]), ProductPolynomial([[0, 0, 0, 2], [0, 0, 0, 3]])]
    ensures |pps| >= 1 && ProductsBindAt(pps, 0) && RoundEvaluations(pps, 2) == [0, 12, 48]
  {
    SampleTwins(pps, 0);
    forall k | 0 <= k <= 2
      ensures Sample(pps, FromNat(k)) == TwinValue(FromNat(k))
    {
      SampleTwins(pps, FromNat(k));
    }
    TwinSamples();
    SamplesAreRoundEvaluations(pps, 2, [0, 12, 48]);
  }
}
