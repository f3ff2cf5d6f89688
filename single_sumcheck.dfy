/**
 * The single-polynomial sum-check shared by the GKR crate's `prover.rs` /
 * `verifier.rs` and the Fiat–Shamir crate's copies: the round messages and
 * challenges the prover produces, the verdict the verifier reaches, and
 * completeness — an honest proof of a table's sum is accepted.
 */
module SingleSumcheck {
  import opened Field
  import opened Encoding
  import opened Hypercube
  import opened MultilinearEV
  import opened MleTheory
  import opened Transcripts
  import opened SumcheckUtility
  import opened FiatShamirMultilinear

  /** What a proof carries: the polynomial, the claimed sum and one message per round. */
  datatype Prove = Prove(initialPolynomial: seq<Fe>, initialClaimedSum: Fe, evaluatedUniPolynomials: seq<seq<Fe>>)

  /**
   * Binding variable 0 n times in a row succeeds, starting from a table of
   * `size` entries: each binding halves the table.
   */
  predicate FoldsFrom(size: nat, n: nat)
    decreases n
  {
    n == 0 || (PairsInRange(size, 0) && FoldsFrom(size / 2, n - 1))
  }

  /**
   * Binding variable 0 n times in a row succeeds.  Whether a binding
   * succeeds depends only on the length, so the values bound do not matter.
   */
  predicate FoldOk(p: seq<Fe>, n: nat)
  {
    FoldsFrom(|p|, n)
  }

  /** The first binding of a foldable table succeeds. */
  lemma FoldOkFirst(p: seq<Fe>, n: nat)
    requires FoldOk(p, n) && n >= 1
    ensures BindOk(p, 0)
  {
  }

  /** One fold: the first binding succeeds and the rest are the folds of the halved table. */
  lemma FoldOkCons(p: seq<Fe>, q: seq<Fe>, n: nat)
    requires n >= 1 && |q| == |p| / 2
    ensures FoldOk(p, n) <==> BindOk(p, 0) && FoldOk(q, n - 1)
  {
  }

  /** A table in n variables can be folded up to n times. */
  lemma {:induction false} TableFoldOk(p: seq<Fe>, n: nat, k: nat)
    requires IsTable(p, n) && k <= n
    ensures FoldOk(p, k)
    decreases k
  {
    if k > 0 {
      BindFirst(p, n, 0);
      TableFoldOk(Bind(p, 0, 0), n - 1, k - 1);
      FoldOkCons(p, Bind(p, 0, 0), k);
    }
  }

  /** A foldable table with at least 2^|vs| entries can be evaluated at vs by either crate's routine. */
  lemma {:induction false} FoldOkEvalOk(p: seq<Fe>, vs: seq<Fe>)
    requires FoldOk(p, |vs|) && Pow2(|vs|) <= |p|
    ensures EvalOk(p, vs) && ReadOk(p, vs)
    decreases |vs|
  {
    if |vs| > 0 {
      var q := Bind(p, 0, vs[0]);
      FoldOkCons(p, q, |vs|);
      assert Pow2(|vs|) == 2 * Pow2(|vs| - 1);
      FoldOkEvalOk(q, vs[1..]);
    }
  }

  /** After one fold a foldable table is foldable once less and keeps at least half the bound. */
  lemma FoldOkStep(p: seq<Fe>, n: nat, r: Fe)
    requires FoldOk(p, n) && n >= 1 && Pow2(n) <= |p|
    ensures BindOk(p, 0) && |p| >= 2
    ensures FoldOk(Bind(p, 0, r), n - 1) && Pow2(n - 1) <= |Bind(p, 0, r)|
  {
    FoldOkCons(p, Bind(p, 0, r), n);
    assert Pow2(n) == 2 * Pow2(n - 1);
  }

  /** A round message the verifier can evaluate at one point. */
  predicate MessageOk(m: seq<Fe>)
  {
    |m| >= 2 && BindOk(m, 0)
  }

  lemma MessageEval(m: seq<Fe>, x: Fe)
    requires MessageOk(m)
    ensures EvalOk(m, [x]) && ReadOk(m, [x])
  {
    FoldOkEvalOk(m, [x]);
  }

  /** A two-entry message is the line through its entries: at x it is `a + x * (b - a)`. */
  lemma PairMessageEval(a: Fe, b: Fe, x: Fe)
    ensures MessageOk([a, b]) && EvalOk([a, b], [x])
    ensures Eval([a, b], [x]) == Lerp(a, b, x)
  {
    var m := [a, b];
    assert IsTable(m, 1);
    TableEvalOk(m, 1, [x]);
    EvalFirst(m, [x]);
    BindFirstEntry(m, 1, x, 0);
    assert [x][1..] == [];
  }

  /** The messages, challenges and final transcript of the prover's rounds. */
  datatype ProverOutput = ProverOutput(messages: seq<seq<Fe>>, challenges: seq<Fe>, sponge: Sponge)

  /**
   * n rounds of `generate_proofs` from transcript state s on the table
   * `current`: the split sums are absorbed, a challenge is drawn and
   * variable 0 is bound to it.
   */
  function ProverRounds(s: Sponge, current: seq<Fe>, n: nat): (out: ProverOutput)
    requires FoldOk(current, n)
    ensures |out.messages| == n && |out.challenges| == n
    decreases n
  {
    if n == 0 then ProverOutput([], [], s)
    else
      var message := SplitPolynomialAndSumEach(current);
      var (c, s1) := Challenged(Absorbed(s, EncodeBe(message)));
      FoldOkFirst(current, n);
      FoldOkCons(current, Bind(current, 0, c), n);
      var rest := ProverRounds(s1, Bind(current, 0, c), n - 1);
      ProverOutput([message] + rest.messages, [c] + rest.challenges, rest.sponge)
  }

  /** One round of `ProverRounds` unfolded, for the challenge c and the state s1 the round draws. */
  lemma ProverRoundsCons(s: Sponge, current: seq<Fe>, n: nat, c: Fe, s1: Sponge, n1: nat)
    requires FoldOk(current, n) && n == n1 + 1 && Pow2(n) <= |current|
    requires (c, s1) == Challenged(Absorbed(s, EncodeBe(SplitPolynomialAndSumEach(current))))
    ensures BindOk(current, 0) && |current| >= 2
    ensures FoldOk(Bind(current, 0, c), n1) && Pow2(n1) <= |Bind(current, 0, c)|
    ensures var rest := ProverRounds(s1, Bind(current, 0, c), n1);
      && ProverRounds(s, current, n).messages == [SplitPolynomialAndSumEach(current)] + rest.messages
      && ProverRounds(s, current, n).sponge == rest.sponge
  {
    FoldOkStep(current, n, c);
  }

  /**
   * The prover's progress: `done` followed by the messages of the k rounds
   * still to run from state s on `current` is `messages`, and those rounds
   * end in `sponge`.
   */
  ghost predicate ProverProgress(s: Sponge, current: seq<Fe>, k: nat, done: seq<seq<Fe>>, messages: seq<seq<Fe>>, sponge: Sponge)
  {
    && FoldOk(current, k) && Pow2(k) <= |current|
    && done + ProverRounds(s, current, k).messages == messages
    && ProverRounds(s, current, k).sponge == sponge
  }

  /** One round keeps the progress, with the round's message appended to `done`. */
  lemma ProverProgressStep(s: Sponge, current: seq<Fe>, k: nat, done: seq<seq<Fe>>, messages: seq<seq<Fe>>,
                           sponge: Sponge, c: Fe, s1: Sponge)
    requires k >= 1 && ProverProgress(s, current, k, done, messages, sponge)
    requires (c, s1) == Challenged(Absorbed(s, EncodeBe(SplitPolynomialAndSumEach(current))))
    ensures BindOk(current, 0) && |current| >= 2
    ensures ProverProgress(s1, Bind(current, 0, c), k - 1, done + [SplitPolynomialAndSumEach(current)], messages, sponge)
  {
    ProverRoundsCons(s, current, k, c, s1, k - 1);
    AppendShifted(done, SplitPolynomialAndSumEach(current), ProverRounds(s1, Bind(current, 0, c), k - 1).messages,
                  ProverRounds(s, current, k).messages, done + [SplitPolynomialAndSumEach(current)], messages);
  }

  /** Moving the first of the messages still to come to the ones already sent keeps their concatenation. */
  lemma AppendShifted<T>(done: seq<T>, m: T, rest: seq<T>, all: seq<T>, done1: seq<T>, messages: seq<T>)
    requires all == [m] + rest && done + all == messages && done1 == done + [m]
    ensures done1 + rest == messages
  {
    assert done + [m] + rest == done + ([m] + rest);
  }

  /**
   * The messages the verifier's rounds read before they end, from state s
   * with running claim `claim`: each message is evaluated at 0 and at 1,
   * and only when it sums to the claim is it evaluated at the challenge and
   * the next message read.  A failing round leaves the later messages unread.
   */
  predicate RoundsReadable(s: Sponge, claim: Fe, messages: seq<seq<Fe>>)
    decreases |messages|
  {
    if |messages| == 0 then true
    else
      var m := messages[0];
      && MessageOk(m)
      && (MessageEval(m, 0);
          MessageEval(m, 1);
          Add(Eval(m, [0]), Eval(m, [1])) == claim ==>
            var drawn := Challenged(Absorbed(s, EncodeBe(m)));
            MessageEval(m, drawn.0);
            RoundsReadable(drawn.1, Eval(m, [drawn.0]), messages[1..]))
  }

  /** Messages that can all be evaluated can be read whatever the rounds meet. */
  lemma {:induction false} MessagesReadable(s: Sponge, claim: Fe, messages: seq<seq<Fe>>)
    requires MessagesOk(messages)
    ensures RoundsReadable(s, claim, messages)
    decreases |messages|
  {
    if |messages| > 0 {
      var m := messages[0];
      MessageEval(m, 0);
      MessageEval(m, 1);
      var (c, s1) := Challenged(Absorbed(s, EncodeBe(m)));
      MessageEval(m, c);
      assert MessagesOk(messages[1..]) by {
        forall i | 0 <= i < |messages[1..]|
          ensures MessageOk(messages[1..][i])
        {
          assert messages[1..][i] == messages[i + 1];
        }
      }
      MessagesReadable(s1, Eval(m, [c]), messages[1..]);
    }
  }

  /** How the verifier's rounds end: accepted or not, the challenges, the running claim, the transcript. */
  datatype RoundsOutcome = RoundsOutcome(passed: bool, challenges: seq<Fe>, claim: Fe, sponge: Sponge)

  /**
   * The verifier's rounds from state s with running claim `claim`: each
   * message must sum to the claim over {0, 1}; it is then absorbed, a
   * challenge drawn and the claim replaced by the message at the challenge.
   * The first failing round stops the rounds with the claim it was given.
   */
  function CheckRounds(s: Sponge, claim: Fe, messages: seq<seq<Fe>>): (o: RoundsOutcome)
    requires RoundsReadable(s, claim, messages)
    ensures o.passed ==> |o.challenges| == |messages|
    decreases |messages|
  {
    if |messages| == 0 then RoundsOutcome(true, [], claim, s)
    else
      var m := messages[0];
      MessageEval(m, 0);
      MessageEval(m, 1);
      if Add(Eval(m, [0]), Eval(m, [1])) != claim then RoundsOutcome(false, [], claim, s)
      else
        var (c, s1) := Challenged(Absorbed(s, EncodeBe(m)));
        MessageEval(m, c);
        var rest := CheckRounds(s1, Eval(m, [c]), messages[1..]);
        rest.(challenges := [c] + rest.challenges)
  }

  /**
   * When `verify` runs to its verdict: the polynomial is non-empty, and if
   * the round count matches, the messages the rounds read can be evaluated
   * and, once every round passes, so can the polynomial at the challenges.
   */
  predicate VerifiableProof(s: Sponge, proof: Prove)
  {
    && |proof.initialPolynomial| >= 1
    && var p, sum, messages := proof.initialPolynomial, proof.initialClaimedSum, proof.evaluatedUniPolynomials;
       |messages| == Log2(|p|) ==>
         && RoundsReadable(Opened(s, p, sum), sum, messages)
         && (CheckRounds(Opened(s, p, sum), sum, messages).passed ==> FoldOk(p, Log2(|p|)))
  }

  /** Evaluating at vs succeeds only on a table that can be folded |vs| times, so `VerifiableProof` asks no more than `verify` needs. */
  lemma {:induction false} EvalOkFoldOk(p: seq<Fe>, vs: seq<Fe>)
    requires EvalOk(p, vs)
    ensures FoldOk(p, |vs|)
    decreases |vs|
  {
    if |vs| > 0 {
      var q := Bind(p, 0, vs[0]);
      assert EvalOk(q, vs[1..]);
      EvalOkFoldOk(q, vs[1..]);
      FoldOkCons(p, q, |vs|);
    }
  }

  /** The state after absorbing the polynomial's bytes and then the claimed sum's. */
  function Opened(s: Sponge, polynomial: seq<Fe>, claimedSum: Fe): Sponge
  {
    Absorbed(Absorbed(s, EncodeBe(polynomial)), ToBytesBe(claimedSum))
  }

  /**
   * `verify`'s verdict and final transcript: a round count other than the
   * number of variables rejects at once, a failed round rejects, and
   * otherwise the polynomial at the challenges must equal the last claim.
   */
  function Verdict(s: Sponge, proof: Prove): (v: (bool, Sponge))
    requires VerifiableProof(s, proof)
    ensures v.0 ==> |proof.evaluatedUniPolynomials| == Log2(|proof.initialPolynomial|)
  {
    var p, messages := proof.initialPolynomial, proof.evaluatedUniPolynomials;
    if |messages| != Log2(|p|) then (false, s)
    else
      var o := CheckRounds(Opened(s, p, proof.initialClaimedSum), proof.initialClaimedSum, messages);
      if !o.passed then (false, o.sponge)
      else
        FoldOkEvalOk(p, o.challenges);
        (Eval(p, o.challenges) == o.claim, o.sponge)
  }

  /**
   * One honest round on a table in n >= 1 variables: the message passes the
   * check against the table's sum, and at challenge c it gives the sum of
   * the table with variable 0 bound to c.
   */
  lemma HonestRound(current: seq<Fe>, n: nat, c: Fe)
    requires IsTable(current, n) && n >= 1
    ensures var m := SplitPolynomialAndSumEach(current);
      && MessageOk(m) && EvalOk(m, [0]) && EvalOk(m, [1]) && EvalOk(m, [c]) && BindOk(current, 0)
      && Add(Eval(m, [0]), Eval(m, [1])) == Sum(current)
      && Eval(m, [c]) == Sum(Bind(current, 0, c))
  {
    var m := SplitPolynomialAndSumEach(current);
    assert |current| / 2 == Pow2(n - 1);
    PairMessageEval(m[0], m[1], 0);
    PairMessageEval(m[0], m[1], 1);
    PairMessageEval(m[0], m[1], c);
    assert m == [m[0], m[1]];
    LerpEnds(m[0], m[1]);
    SumBindFirst(current, n, c);
  }

  /** A split message has two entries and can be evaluated. */
  lemma SplitMessageOk(current: seq<Fe>)
    ensures MessageOk(SplitPolynomialAndSumEach(current))
  {
    var m := SplitPolynomialAndSumEach(current);
    PairMessageEval(m[0], m[1], 0);
    assert m == [m[0], m[1]];
  }

  /** Every message has two entries and can be evaluated. */
  predicate MessagesOk(messages: seq<seq<Fe>>)
  {
    forall i :: 0 <= i < |messages| ==> MessageOk(messages[i])
  }

  /** Putting a well-formed message in front of well-formed messages keeps them all well-formed. */
  lemma MessagesConsOk(m: seq<Fe>, messages: seq<seq<Fe>>)
    requires MessageOk(m) && MessagesOk(messages)
    ensures MessagesOk([m] + messages)
  {
    forall i | 0 <= i < |[m] + messages|
      ensures MessageOk(([m] + messages)[i])
    {
      if i > 0 {
        assert ([m] + messages)[i] == messages[i - 1];
      }
    }
  }

  /** The step of `ProverMessagesOk`: the first message is well-formed and so are the rest. */
  lemma ProverMessagesStep(s: Sponge, current: seq<Fe>, n: nat, c: Fe, s1: Sponge)
    requires FoldOk(current, n) && n >= 1 && BindOk(current, 0) && FoldOk(Bind(current, 0, c), n - 1)
    requires (c, s1) == Challenged(Absorbed(s, EncodeBe(SplitPolynomialAndSumEach(current))))
    requires MessagesOk(ProverRounds(s1, Bind(current, 0, c), n - 1).messages)
    ensures MessagesOk(ProverRounds(s, current, n).messages)
  {
    var m := SplitPolynomialAndSumEach(current);
    SplitMessageOk(current);
    var rest := ProverRounds(s1, Bind(current, 0, c), n - 1).messages;
    assert ProverRounds(s, current, n).messages == [m] + rest;
    MessagesConsOk(m, rest);
  }

  /** Every message the prover sends has two entries and can be evaluated. */
  lemma {:induction false} ProverMessagesOk(s: Sponge, current: seq<Fe>, n: nat)
    requires FoldOk(current, n)
    ensures MessagesOk(ProverRounds(s, current, n).messages)
    decreases n
  {
    if n > 0 {
      var m := SplitPolynomialAndSumEach(current);
      var drawn := Challenged(Absorbed(s, EncodeBe(m)));
      var c, s1 := drawn.0, drawn.1;
      FoldOkFirst(current, n);
      FoldOkCons(current, Bind(current, 0, c), n);
      ProverMessagesOk(s1, Bind(current, 0, c), n - 1);
      ProverMessagesStep(s, current, n, c, s1);
    }
  }

  /** A round that passes its check continues with the message's value at the challenge. */
  lemma CheckRoundsCons(s: Sponge, claim: Fe, m: seq<Fe>, messages: seq<seq<Fe>>)
    requires RoundsReadable(s, claim, [m] + messages)
    requires EvalOk(m, [0]) && EvalOk(m, [1]) && Add(Eval(m, [0]), Eval(m, [1])) == claim
    ensures var (c, s1) := Challenged(Absorbed(s, EncodeBe(m)));
      && EvalOk(m, [c])
      && RoundsReadable(s1, Eval(m, [c]), messages)
      && var rest := CheckRounds(s1, Eval(m, [c]), messages);
         CheckRounds(s, claim, [m] + messages) == rest.(challenges := [c] + rest.challenges)
  {
    var all := [m] + messages;
    assert all[0] == m && all[1..] == messages;
    var (c, s1) := Challenged(Absorbed(s, EncodeBe(m)));
    MessageEval(m, c);
  }

  /** A message that passes its check in front of messages readable from where it leads is readable, and the rounds continue there. */
  lemma CheckRoundsPass(s: Sponge, claim: Fe, m: seq<Fe>, c: Fe, s1: Sponge, claim1: Fe, messages: seq<seq<Fe>>)
    requires MessageOk(m) && EvalOk(m, [0]) && EvalOk(m, [1]) && Add(Eval(m, [0]), Eval(m, [1])) == claim
    requires (c, s1) == Challenged(Absorbed(s, EncodeBe(m)))
    requires EvalOk(m, [c]) && Eval(m, [c]) == claim1 && RoundsReadable(s1, claim1, messages)
    ensures RoundsReadable(s, claim, [m] + messages)
    ensures var rest := CheckRounds(s1, claim1, messages);
      CheckRounds(s, claim, [m] + messages) == rest.(challenges := [c] + rest.challenges)
  {
    var all := [m] + messages;
    assert all[0] == m && all[1..] == messages;
  }

  /** A round that fails its check stops the rounds there, with the state and claim it was given. */
  lemma CheckRoundsReject(s: Sponge, claim: Fe, m: seq<Fe>, messages: seq<seq<Fe>>)
    requires RoundsReadable(s, claim, [m] + messages)
    requires EvalOk(m, [0]) && EvalOk(m, [1]) && Add(Eval(m, [0]), Eval(m, [1])) != claim
    ensures CheckRounds(s, claim, [m] + messages) == RoundsOutcome(false, [], claim, s)
  {
    var all := [m] + messages;
    assert all[0] == m;
  }

  /**
   * The verifier's progress after round i: the rounds from state s with
   * running claim `claim` on the remaining messages reach the outcome `all`
   * of the rounds from the start, and when `all` passes, the challenges
   * drawn so far are its first ones.
   */
  ghost predicate CheckProgress(s: Sponge, claim: Fe, messages: seq<seq<Fe>>, i: nat, challenges: seq<Fe>, all: RoundsOutcome)
  {
    && i <= |messages|
    && RoundsReadable(s, claim, messages[i..])
    && var rest := CheckRounds(s, claim, messages[i..]);
       && rest.passed == all.passed && rest.claim == all.claim && rest.sponge == all.sponge
       && (all.passed ==> challenges + rest.challenges == all.challenges)
  }

  /** While rounds remain, the next message can be evaluated at 0 and at 1. */
  lemma CheckProgressNext(s: Sponge, claim: Fe, messages: seq<seq<Fe>>, i: nat, challenges: seq<Fe>, all: RoundsOutcome)
    requires CheckProgress(s, claim, messages, i, challenges, all) && i < |messages|
    ensures MessageOk(messages[i]) && EvalOk(messages[i], [0]) && EvalOk(messages[i], [1])
  {
    assert messages[i..][0] == messages[i];
    MessageEval(messages[i], 0);
    MessageEval(messages[i], 1);
  }

  /** A round whose message sums to the claim over {0, 1} keeps the progress with the new claim and challenge. */
  lemma CheckProgressStep(s: Sponge, claim: Fe, messages: seq<seq<Fe>>, i: nat, challenges: seq<Fe>,
                          all: RoundsOutcome, c: Fe, s1: Sponge)
    requires CheckProgress(s, claim, messages, i, challenges, all) && i < |messages|
    requires EvalOk(messages[i], [0]) && EvalOk(messages[i], [1])
    requires Add(Eval(messages[i], [0]), Eval(messages[i], [1])) == claim
    requires (c, s1) == Challenged(Absorbed(s, EncodeBe(messages[i])))
    ensures MessageOk(messages[i]) && EvalOk(messages[i], [c])
    ensures CheckProgress(s1, Eval(messages[i], [c]), messages, i + 1, challenges + [c], all)
  {
    var m := messages[i];
    assert messages[i..] == [m] + messages[i + 1..];
    CheckRoundsCons(s, claim, m, messages[i + 1..]);
    var rest := CheckRounds(s1, Eval(m, [c]), messages[i + 1..]);
    assert challenges + [c] + rest.challenges == challenges + ([c] + rest.challenges);
  }

  /** A round whose message does not sum to the claim ends the rounds: they fail, in the current state. */
  lemma CheckProgressReject(s: Sponge, claim: Fe, messages: seq<seq<Fe>>, i: nat, challenges: seq<Fe>, all: RoundsOutcome)
    requires CheckProgress(s, claim, messages, i, challenges, all) && i < |messages|
    requires EvalOk(messages[i], [0]) && EvalOk(messages[i], [1])
    requires Add(Eval(messages[i], [0]), Eval(messages[i], [1])) != claim
    ensures !all.passed && all.sponge == s
  {
    assert messages[i..] == [messages[i]] + messages[i + 1..];
    CheckRoundsReject(s, claim, messages[i], messages[i + 1..]);
  }

  /** After the last round the rounds have passed, with the current claim, state and challenges. */
  lemma CheckProgressDone(s: Sponge, claim: Fe, messages: seq<seq<Fe>>, challenges: seq<Fe>, all: RoundsOutcome)
    requires CheckProgress(s, claim, messages, |messages|, challenges, all)
    ensures all.passed && all.claim == claim && all.sponge == s && all.challenges == challenges
  {
    assert messages[|messages|..] == [];
  }

  /**
   * The honest rounds on a table in n variables pass starting from its sum:
   * the verifier draws the prover's challenges, ends in the prover's state,
   * and its last claim is the table evaluated at the challenges.
   */
  lemma {:induction false} RoundsComplete(s: Sponge, current: seq<Fe>, n: nat)
    requires IsTable(current, n)
    ensures FoldOk(current, n)
    ensures var out := ProverRounds(s, current, n);
      && MessagesOk(out.messages)
      && RoundsReadable(s, Sum(current), out.messages)
      && EvalOk(current, out.challenges)
      && CheckRounds(s, Sum(current), out.messages)
         == RoundsOutcome(true, out.challenges, Eval(current, out.challenges), out.sponge)
    decreases n
  {
    TableFoldOk(current, n, n);
    var out := ProverRounds(s, current, n);
    ProverMessagesOk(s, current, n);
    TableEvalOk(current, n, out.challenges);
    if n == 0 {
      assert current == [current[0]];
      SumSingleton(current[0]);
    } else {
      var m := SplitPolynomialAndSumEach(current);
      var (c, s1) := Challenged(Absorbed(s, EncodeBe(m)));
      assert BindOk(current, 0) && IsTable(Bind(current, 0, c), n - 1) by {
        BindFirst(current, n, c);
      }
      var next := Bind(current, 0, c);
      assert FoldOk(next, n - 1) by {
        TableFoldOk(next, n - 1, n - 1);
      }
      var rest := ProverRounds(s1, next, n - 1);
      assert out == ProverOutput([m] + rest.messages, [c] + rest.challenges, rest.sponge);
      assert RoundsReadable(s1, Sum(next), rest.messages)
        && EvalOk(next, rest.challenges)
        && CheckRounds(s1, Sum(next), rest.messages)
           == RoundsOutcome(true, rest.challenges, Eval(next, rest.challenges), rest.sponge) by {
        RoundsComplete(s1, next, n - 1);
      }
      assert MessageOk(m) && EvalOk(m, [0]) && EvalOk(m, [1]) && EvalOk(m, [c])
        && Add(Eval(m, [0]), Eval(m, [1])) == Sum(current) && Eval(m, [c]) == Sum(next) by {
        HonestRound(current, n, c);
      }
      CheckRoundsPass(s, Sum(current), m, c, s1, Sum(next), rest.messages);
      assert Eval(current, out.challenges) == Eval(next, rest.challenges) by {
        EvalFirst(current, out.challenges);
        assert out.challenges[1..] == rest.challenges;
      }
    }
  }

  /**
   * Completeness: an honest proof of a table's sum, made on a transcript in
   * the state the verifier's starts in, is accepted.
   */
  lemma Completeness(s: Sponge, p: seq<Fe>, n: nat)
    requires IsTable(p, n)
    ensures FoldOk(p, n) && Log2(|p|) == n
    ensures var out := ProverRounds(Opened(s, p, Sum(p)), p, n);
      var proof := Prove(p, Sum(p), out.messages);
      && VerifiableProof(s, proof)
      && Verdict(s, proof) == (true, out.sponge)
  {
    Log2OfPow2(n);
    RoundsComplete(Opened(s, p, Sum(p)), p, n);
  }
}
