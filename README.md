# A Dafny model of the GKR, sum-check and polynomial crates

This project models the proving core of a Rust workspace of
zero-knowledge building blocks, all working over one prime field:

- **Multilinear polynomials in evaluation form** (`MultilinearEV`,
  `MleTheory`, `Hypercube`). A multilinear polynomial is a table of its values over the boolean
  hypercube. Binding a variable is linear interpolation between the two
  halves of the table. The model proves that binding and evaluating compute the
  multilinear extension of the table. The Fiat–Shamir crate's own copy is
  modelled in `FiatShamirMultilinear`, and the `multilinear_poly_impl` crate in
  `MultilinearPolyImpl`.
- **Dense univariate polynomials** (`UniTheory`, `DensedUniPoly`,
  `ZkPolynomials`). These are coefficient vectors with evaluation, padded addition,
  convolution and Lagrange interpolation. Each loop is proved against a
  reference definition. The reference definitions are proved to be a ring
  homomorphism into values, and interpolation is proved to be the unique
  polynomial through its samples.
  - `zk_implementation/src/main.rs:8-133` repeats
    `zk_implementation/src/lib.rs` function by function.
  - `sharmir_secret_sharing/src/utility.rs:7-107` is the same code with
    the field renamed.
  - `ZkPolynomials` models all three.
- **Shamir secret sharing** (`ShamirSecretSharing`). Shares are values of a
  polynomial whose constant term is the secret. Recovery interpolates the shares
  and evaluates the result at 0.
- **Single-polynomial sum-check** (`SingleSumcheck`, `SumcheckUtility`,
  `GkrProver`, `GkrVerifier`, `FiatShamirProver`, `FiatShamirVerifier`). Both the GKR crate
  and the Fiat–Shamir crate have a prover and a verifier. Each is proved to follow the
  same rounds, and an honest proof is proved to be accepted.
- **Sum-check over sums of products** (`ProductPoly`, `SumPoly`,
  `RoundTheory`, `GkrSumcheck`). This is the sum-check GKR runs on each layer.
  The model proves that:
  - each round function is a polynomial of bounded degree whose
    interpolation is exact;
  - g(0) + g(1) is the running claim;
  - honest rounds on the true sum are accepted, with the prover's
    challenges, and end at the polynomial's value there;
  - honest rounds on any other claim are rejected.
- **Layered circuits and GKR** (`Gates`, `Layers`, `Circuits`,
  `WbBcUtility`, `Gkr`). The model covers:
  - circuit evaluation;
  - the wiring tables add_i and mul_i;
  - the binary index encoding of gate positions;
  - the per-layer polynomial f(b, c) and the α/β folding of two claims into one;
  - the prover and the verifier of the GKR protocol.
  The prover is proved to compute a proof determined by the circuit, its
  inputs and the hash. The verifier is proved to accept exactly when no
  layer is rejected. Completeness is proved (`WiringSums`,
  `GkrCompleteness`): on every circuit whose layers read the layer below,
  fit their wiring tables and list no gate twice, whose output layer has
  one or two values and whose layer j has 2^j values, `verify` returns true on
  the proof `prove` returns, whatever the hash. The two circuits of the
  GKR tests are instances.
- **Transcript** (`Transcripts`). The Fiat–Shamir transcript absorbs bytes and
  squeezes challenges. It is modelled as a class whose state is the bytes
  absorbed since the last challenge. Keccak-256 is a function parameter
  `hash`, so every protocol property holds for any hash.
- **Field and encodings** (`Field`, `Encoding`). The field is the prime
  field of the Fermat prime 65537, with its elements kept as canonical
  residues. The 32-byte big- and little-endian encodings are modelled together with
  their decoding modulo P.

Rust structs whose methods update fields in place are Dafny classes:
- `Layer`;
- `Circuit`;
- the sum-check `ProofContainer` and `Verifier`;
- `Transcript`.

Loops are methods with invariants, proved against the reference functions.
Pure helpers are functions. A Rust panic (a failed `assert!`, an index out
of bounds, an `unwrap` of `None`, a `usize` underflow) becomes the
member's `requires`. A constructor that checks its arguments and reports
an error returns a `Result`.

## Model

| member | source | states |
|---|---|---|
| Gates.Operations | gkr/src/circuits/gate.rs:16-23 | ADD gives the sum of the two values and MUL their product |
| Gates.NewGate | gkr/src/circuits/gate.rs:24-33 | the gate holds its left, right and output indices and its operation as given |
| Layers.Layer.constructor | gkr/src/circuits/layer.rs:8-10 | the layer keeps the gates in the given order |
| Layers.Layer.UpdateLayer | gkr/src/circuits/layer.rs:12-14 | the gate is appended at the end and every earlier gate keeps its place |
| Circuits.MaxOutputIndex | gkr/src/circuits/circuit.rs:32-37 | no gate's output index exceeds it, some gate reaches it, and it is 0 for a layer without gates |
| Circuits.UntargetedEntry | gkr/src/circuits/circuit.rs:39-55 | an entry of a layer that no gate targets stays zero |
| Circuits.SingleTargetEntry | gkr/src/circuits/circuit.rs:45-55 | an entry targeted by exactly one gate holds that gate's operation on the two entries it reads |
| Circuits.ContributionsSplit | gkr/src/circuits/circuit.rs:45-56 | gates sharing an output add up: splitting the gates into two groups splits every entry into the sum of what each group gives it |
| Circuits.ContributionsSnoc | gkr/src/circuits/circuit.rs:55 | one more gate adds its operation's value to its own output entry and nothing to the others |
| Circuits.EvaluateLayer | gkr/src/circuits/circuit.rs:32-56 | the inner loop leaves exactly `LayerValues`: one entry per index up to the largest output, each the sum over the gates targeting it |
| Circuits.LayerValues | gkr/src/circuits/circuit.rs:39 | a layer has one entry more than its largest output index |
| Circuits.Evaluations | gkr/src/circuits/circuit.rs:24-67 | there is one table per layer plus the inputs, and the inputs come last |
| Circuits.EvaluationsLayer | gkr/src/circuits/circuit.rs:31-60 | table i is layer i evaluated on table i + 1, whose entries every gate of layer i reads in range |
| Circuits.Circuit.constructor | gkr/src/circuits/circuit.rs:17-22 | the circuit keeps its layers |
| Circuits.Circuit.Evaluate | gkr/src/circuits/circuit.rs:24-68 | the layer evaluations are `Evaluations` of the circuit on the inputs, output layer first and inputs last, and `output` is the first of them |
| Circuits.WIPolynomial | gkr/src/circuits/circuit.rs:73-83 | succeeds exactly for an index below the number of layer evaluations, with that layer's values; any other index gives the "layer index out of bounds" error |
| Circuits.Circuit.AddIAndMulIMle | gkr/src/circuits/circuit.rs:85-122 | the two tables are the reference wiring tables `Indicator(ADD)` and `Indicator(MUL)` of the layer's gates |
| Circuits.MarkGate | gkr/src/circuits/circuit.rs:95-115 | after gate j both arrays are the wiring tables of the first j + 1 gates |
| Circuits.IndicatorSnoc | gkr/src/circuits/circuit.rs:95-115 | one more gate writes a one at its position in the table of its own operation and leaves the other table alone |
| Circuits.Indicator | gkr/src/circuits/circuit.rs:89-93 | a wiring table has 2^`num_of_layer_variables(i)` entries |
| Circuits.IndicatorAtGate | gkr/src/circuits/circuit.rs:85-122 | the table of an operation is 1 at the position of (a, b, c) exactly when the layer has a gate with that operation, output a and inputs b and c; every entry there is 0 or 1 |
| Circuits.NumOfLayerVariables | gkr/src/circuits/circuit.rs:125-135 | 3 for the output layer and i + 2(i + 1) after it, that is the output bits plus twice the input bits |
| Circuits.BinaryValueOfBinary | gkr/src/circuits/circuit.rs:156 | the binary digits `format!` writes name the number |
| Circuits.BinaryLength | gkr/src/circuits/circuit.rs:156 | a number has at most w binary digits exactly when it is below 2^w |
| Circuits.PaddedBinary | gkr/src/circuits/circuit.rs:155-157 | the padded string names the number, has at least one digit and at least the width, exactly the width when the number fits, and the bare digits at width 0 |
| Circuits.ZeroWidthStillOneDigit | gkr/src/circuits/circuit.rs:155-157 | at width 0, 0 is written "0" and 5 is written "101" |
| Circuits.TransformAgrees | gkr/src/circuits/circuit.rs:159-168 | the unused `transform_decimal_to_padded_binary` gives the same string as `convert_decimal_to_padded_binary` for every number and width |
| Circuits.FromStrRadix2 | gkr/src/circuits/circuit.rs:152 | a value it parses is below 2^64 |
| Circuits.CombinedValue | gkr/src/circuits/circuit.rs:143-149 | the concatenated digits name a·2^(2(i+1)) + b·2^(i+1) + c and do not start with a sign |
| Circuits.ConvertToBinaryValue | gkr/src/circuits/circuit.rs:137-153 | the position is a·2^(2(i+1)) + b·2^(i+1) + c, or 0 when that overflows 64 bits |
| Circuits.PositionInRange | gkr/src/circuits/circuit.rs:137-153 | for indices that fit their digits the string has `num_of_layer_variables(i)` digits and the position is below the table size |
| Circuits.PositionInjective | gkr/src/circuits/circuit.rs:137-153 | two in-range index triples at the same position are the same triple |
| Circuits.PositionOnto | gkr/src/circuits/circuit.rs:137-153 | every index of a wiring table is the position of an in-range triple |
| Circuits.GatesInRangeFit | gkr/src/circuits/circuit.rs:95-113 | gates whose indices fit their digits write inside the tables, so the writes do not panic |
| MultilinearEV.Bind | gkr/src/evaluation.rs:59-104 | fixing one variable of a table of evaluations halves the table |
| MultilinearEV.BindPairStep | gkr/src/evaluation.rs:67-100 | each iteration of the pairing loop produces the next entry of the bound table and moves j to the next index whose bit for the variable is clear |
| MultilinearEV.PartialEvaluate | gkr/src/evaluation.rs:59-104 | the loop leaves exactly the table with the chosen variable fixed to the given value, in the order of the clear-bit indices |
| MultilinearEV.Evaluate | gkr/src/evaluation.rs:19-31 | repeatedly fixing variable 0 leaves one entry: the value of the multilinear extension at the point |
| MultilinearEV.BindAllSnoc | gkr/src/evaluation.rs:25-28 | fixing one more value continues from the table left by the earlier values |
| MultilinearEV.NumberOfVariables | gkr/src/evaluation.rs:43-45 | the result n is the floor of the base-2 logarithm of the length: 2^n entries fit and 2^(n+1) do not |
| MultilinearEV.EncodeBe | gkr/src/evaluation.rs:33-41 | each field element contributes a fixed number of big-endian bytes, in table order |
| MultilinearEV.ConvertToBytes | gkr/src/evaluation.rs:33-41 | the loop concatenates the big-endian bytes of every evaluation in order |
| MultilinearEV.ScalarMul | gkr/src/evaluation.rs:47-55 | scaling keeps the number of evaluations |
| MultilinearEV.AddPolynomials | gkr/src/evaluation.rs:143-161 | the pointwise sum keeps the common length |
| MultilinearEV.Tensor | gkr/src/evaluation.rs:106-141 | the tensor of tables of sizes m and k has m*k entries |
| MultilinearEV.TensorEntry | gkr/src/evaluation.rs:106-141 | entry x*k+y of the tensor combines entry x of the first table with entry y of the second |
| MultilinearEV.PolynomialTensorAdd | gkr/src/evaluation.rs:106-121 | the nested loops build exactly the additive tensor of the two tables |
| MultilinearEV.PolynomialTensorMul | gkr/src/evaluation.rs:123-141 | the nested loops build exactly the multiplicative tensor of the two tables |
| MleTheory.BindOnTable | gkr/src/evaluation.rs:59-104 | on a table of 2^n entries every variable index below n can be fixed |
| MleTheory.BindFirst | gkr/src/evaluation.rs:59-104 | fixing variable 0 to r pairs entry k with entry k + 2^(n-1) and takes the point at r on the line through them |
| MleTheory.BindFirstEnds | gkr/src/evaluation.rs:59-104 | fixing variable 0 to 0 gives the lower half of the table and to 1 the upper half |
| MleTheory.BindEnds | gkr/src/evaluation.rs:59-104 | fixing any variable to 0 or 1 reads the entries whose bit for that variable is clear or set |
| MleTheory.BindVisitsEveryPair | gkr/src/evaluation.rs:67-100 | the indices the pairing loop visits increase strictly and include every index with a clear bit whose partner is in range |
| MleTheory.TableEvalOk | gkr/src/evaluation.rs:19-31 | a table in n variables can be evaluated at any point of up to n coordinates, and fixing m values leaves 2^(n-m) entries |
| MleTheory.EvalAtBooleanPoint | gkr/src/evaluation.rs:19-31 | at a point of the boolean hypercube the evaluation is the table entry that point indexes |
| MleTheory.EvalFirst | gkr/src/evaluation.rs:19-31 | evaluating is fixing the first coordinate and evaluating the smaller table at the rest |
| MleTheory.EvalLine | gkr/src/evaluation.rs:19-31 | a one-variable table [a, b] evaluates at r to the line through a and b |
| MleTheory.SumBindFirst | gkr/src/evaluation.rs:59-104 | the hypercube sum of a table with variable 0 fixed to r is the line through the sums of its two halves, taken at r |
| MleTheory.BindAdd | gkr/src/evaluation.rs:143-161 | fixing a variable commutes with the pointwise sum |
| MleTheory.BindScale | gkr/src/evaluation.rs:47-55 | fixing a variable commutes with scaling |
| MleTheory.EvalAdd | gkr/src/evaluation.rs:143-161 | the evaluation of a pointwise sum is the sum of the evaluations |
| MleTheory.EvalScale | gkr/src/evaluation.rs:47-55 | the evaluation of a scaled table is the scaled evaluation |
| Hypercube.Log2 | gkr/src/evaluation.rs:43-45 | the result is the largest n with 2^n not above the argument |
| Hypercube.Insert0Step | gkr/src/evaluation.rs:96-100 | the j update moves from one index with a clear bit to the next one |
| Hypercube.Insert0Onto | gkr/src/evaluation.rs:67-100 | every index whose bit for the stride is clear is the k-th clear index for some k |
| Encoding.ToBytesBe | fiat_shamir/src/multilinear_poly.rs:64 | an element is written as exactly 32 big-endian bytes |
| Encoding.ToBytesLe | gkr/src/gkr_sumcheck_dependencies/transcript.rs:48 | an element is written as exactly 32 little-endian bytes |
| Encoding.ToBytesBeDecodes | fiat_shamir/src/multilinear_poly.rs:77 | reading the big-endian bytes of an element back modulo the field order gives the element |
| Encoding.ToBytesLeDecodes | gkr/src/gkr_sumcheck_dependencies/transcript.rs:48 | reading the little-endian bytes of an element back modulo the field order gives the element |
| Encoding.ToBytesInjective | fiat_shamir/src/multilinear_poly.rs:60-68 | distinct elements are written as distinct bytes, in either byte order, so the transcript tells tables apart |
| Field.Inv | sharmir_secret_sharing/src/utility.rs:40 | the inverse of a non-zero element times the element is one |
| Field.NoZeroDivisors | sharmir_secret_sharing/src/utility.rs:40 | a product is zero exactly when one of its factors is zero, so the Lagrange denominators of distinct points are invertible |
| Transcripts.Fresh | gkr/src/gkr_sumcheck_dependencies/transcript.rs:23-27 | a new transcript has absorbed nothing |
| Transcripts.Absorbed | gkr/src/gkr_sumcheck_dependencies/transcript.rs:28-30 | absorbing appends the data to what the hasher has taken in and keeps the hash function |
| Transcripts.Challenged | gkr/src/gkr_sumcheck_dependencies/transcript.rs:36-49 | a challenge is the digest read little-endian modulo the field order, and afterwards the hasher holds only that digest |
| Transcripts.ChallengeDeterministic | gkr/src/gkr_sumcheck_dependencies/transcript.rs:36-49 | two transcripts in the same state that absorb the same bytes draw the same challenge and end in the same state |
| Transcripts.ChallengeForgetsHistory | gkr/src/gkr_sumcheck_dependencies/transcript.rs:36-42 | after a challenge, the next challenge depends only on the previous digest and the bytes absorbed since |
| Transcripts.Transcript.constructor | gkr/src/gkr_sumcheck_dependencies/transcript.rs:23-27 | the new transcript's hasher has absorbed nothing |
| Transcripts.Transcript.Absorb | gkr/src/gkr_sumcheck_dependencies/transcript.rs:28-30 | the hasher's input grows by exactly the data |
| Transcripts.Transcript.SampleRandomChallenge | gkr/src/gkr_sumcheck_dependencies/transcript.rs:36-42 | returns the digest of everything absorbed and leaves the hasher holding only that digest |
| Transcripts.Transcript.RandomChallengeAsFieldElement | gkr/src/gkr_sumcheck_dependencies/transcript.rs:44-49 | returns the challenge and leaves the state that the challenge function describes |
| SumcheckUtility.SplitPolynomialAndSumEach | fiat_shamir/src/utility.rs:4-19 | the two entries of the message add up to the sum of the whole table |
| SumcheckUtility.SplitHalves | fiat_shamir/src/utility.rs:4-19 | the left entry sums the first half of the table and the right entry the rest; on an odd length the middle entry goes right, so one entry e gives [0, e] |
| SumcheckUtility.FieldElementToBytes | fiat_shamir/src/utility.rs:21-23 | an element is written as 32 big-endian bytes |
| SumcheckUtility.FieldElementBytesDecode | fiat_shamir/src/utility.rs:21-23 | the bytes read back modulo the field order give the element |
| FiatShamirMultilinear.FoldStep | fiat_shamir/src/multilinear_poly.rs:43-56 | one fold step produces the next entry of the bound table and moves j to the next index whose bit is clear |
| FiatShamirMultilinear.FoldSteps | fiat_shamir/src/multilinear_poly.rs:42-57 | after n steps the fold holds the first n entries of the bound table and the n-th clear index |
| FiatShamirMultilinear.PartialEvaluation | fiat_shamir/src/multilinear_poly.rs:29-58 | the fold gives the table with the variable fixed to the value, the same table the gkr crate's loop gives |
| FiatShamirMultilinear.ReadOkEvalOk | fiat_shamir/src/multilinear_poly.rs:13-23 | a point this crate's evaluate accepts is also accepted by the gkr crate's evaluate |
| FiatShamirMultilinear.TableReadOk | fiat_shamir/src/multilinear_poly.rs:13-23 | a table in n variables can be evaluated at any point of up to n coordinates without a panic |
| FiatShamirMultilinear.Evaluate | fiat_shamir/src/multilinear_poly.rs:13-23 | the result is the multilinear extension of the table at the point |
| FiatShamirMultilinear.GetNumberOfVar | fiat_shamir/src/multilinear_poly.rs:25-27 | the result n is the floor of the base-2 logarithm of the length |
| FiatShamirMultilinear.NumberOfVarOfTable | fiat_shamir/src/multilinear_poly.rs:25-27 | a table of 2^n entries has n variables |
| FiatShamirMultilinear.ConvertToBytes | fiat_shamir/src/multilinear_poly.rs:60-68 | the loop concatenates the 32-byte big-endian encodings of the entries in order |
| FiatShamirMultilinear.DecodeBe | fiat_shamir/src/multilinear_poly.rs:70-82 | one element per whole 32-byte block |
| FiatShamirMultilinear.FromBytes | fiat_shamir/src/multilinear_poly.rs:70-82 | the loop reads each 32-byte block, in order, as a big-endian element modulo the field order |
| FiatShamirMultilinear.DecodeEncode | fiat_shamir/src/multilinear_poly.rs:60-82 | decoding the bytes of a table gives the table back |
| MultilinearPolyImpl.FoldFrom | multilinear_poly_impl/src/lib.rs:31-44 | the rest of the fold from any step completes the bound table |
| MultilinearPolyImpl.PartialEvaluation | multilinear_poly_impl/src/lib.rs:23-45 | the fold gives the table with the variable fixed to the value |
| MultilinearPolyImpl.Evaluate | multilinear_poly_impl/src/lib.rs:12-21 | the result is the multilinear extension of the table at the point |
| MleTheory.BindLast | multilinear_poly_impl/src/lib.rs:23-45 | fixing the last variable pairs each even entry with the entry after it |
| MultilinearPolyImpl.PartialEvaluationPair | multilinear_poly_impl/tests/test.rs:8-9 | [18, 48] with its variable fixed to 2 is [78] |
| MultilinearPolyImpl.PartialEvaluationEight | multilinear_poly_impl/tests/test.rs:11-12 | [0, 0, 0, 3, 0, 0, 2, 5] with variable 2 fixed to 3 is [0, 9, 0, 11] |
| MultilinearPolyImpl.EvaluateExample | multilinear_poly_impl/tests/test.rs:17-21 | [0, 0, 3, 8] evaluated at (6, 2) is 78 |
| SingleSumcheck.ProverRounds | fiat_shamir/src/prover.rs:47-58 | n rounds send n messages and draw n challenges |
| SingleSumcheck.ProverRoundsCons | fiat_shamir/src/prover.rs:47-58 | the first round sends the split sums of the table, and the remaining rounds run on the table bound at the drawn challenge |
| SingleSumcheck.ProverProgressStep | fiat_shamir/src/prover.rs:47-58 | one loop iteration appends the round's message and leaves the remaining rounds on the bound table |
| SingleSumcheck.ProverMessagesOk | fiat_shamir/src/prover.rs:48-49 | every message the prover sends has two entries and can be evaluated at a point |
| SingleSumcheck.CheckRounds | fiat_shamir/src/verifier.rs:32-47 | when every round passes, one challenge is drawn per message |
| SingleSumcheck.CheckRoundsCons | fiat_shamir/src/verifier.rs:33-46 | a round whose message sums to the claim over {0, 1} absorbs the message, draws a challenge and continues with the message's value there |
| SingleSumcheck.CheckRoundsReject | fiat_shamir/src/verifier.rs:33-41 | a round whose message does not sum to the claim rejects with the transcript as it was |
| SingleSumcheck.PairMessageEval | fiat_shamir/src/verifier.rs:36-46 | a two-entry message evaluated at x is the line through its entries at x |
| SingleSumcheck.Verdict | fiat_shamir/src/verifier.rs:21-50 | acceptance needs as many messages as the polynomial has variables |
| SingleSumcheck.HonestRound | fiat_shamir/src/verifier.rs:36-46 | an honest message sums over {0, 1} to the table's sum, and at the challenge it equals the sum of the table bound there |
| SingleSumcheck.RoundsComplete | fiat_shamir/src/verifier.rs:32-47 | the honest rounds pass from the table's sum, the verifier draws the prover's challenges and ends with the table evaluated at them |
| SingleSumcheck.Completeness | fiat_shamir/src/verifier.rs:21-50 | an honest proof of a table's sum is accepted, and the verifier's transcript ends where the prover's did |
| SingleSumcheck.MessagesReadable | fiat_shamir/src/verifier.rs:33-46 | messages that can all be evaluated at 0, 1 and any challenge never make the round loop read out of bounds |
| SingleSumcheck.EvalOkFoldOk | fiat_shamir/src/verifier.rs:48 | a table that can be evaluated at a point of n coordinates can be bound n times, so the final check asks no more than `evaluate` does |
| SingleSumcheck.CheckRoundsPass | fiat_shamir/src/verifier.rs:33-46 | a first message that sums to the claim over {0, 1} lets the rounds continue from its value at the drawn challenge, which heads the challenges |
| SingleSumcheck.CheckProgressStep | fiat_shamir/src/verifier.rs:33-46 | a loop iteration whose message sums to the claim appends the drawn challenge and moves the claim to the message's value there |
| SingleSumcheck.CheckProgressReject | fiat_shamir/src/verifier.rs:36-41 | a loop iteration whose message does not sum to the claim ends the rounds as failed, in the transcript state of that iteration |
| SingleSumcheck.CheckProgressDone | fiat_shamir/src/verifier.rs:32-47 | after the last iteration the rounds have passed with the loop's claim, transcript and challenges |
| FiatShamirProver.ProofContainer.constructor | fiat_shamir/src/prover.rs:24-36 | the claimed sum is the sum of all evaluations and no message has been sent |
| FiatShamirProver.ProofContainer.ProveRound | fiat_shamir/src/prover.rs:48-57 | one round appends the split sums, absorbs them, draws a challenge and binds variable 0 to it, keeping the prover on its rounds |
| FiatShamirProver.ProofContainer.SendMessage | fiat_shamir/src/prover.rs:48-54 | the split sums are appended to the messages held, their big-endian bytes absorbed, and the challenge is the one the transcript draws next |
| FiatShamirProver.ProofContainer.GenerateProofs | fiat_shamir/src/prover.rs:38-64 | the messages appended are those of the rounds that follow absorbing the table and the claimed sum, the transcript ends in their state, and the proof carries the table, the claimed sum and the messages |
| FiatShamirVerifier.Verifier.constructor | fiat_shamir/src/verifier.rs:14-19 | the verifier's hasher has absorbed nothing |
| FiatShamirVerifier.Verifier.Verify | fiat_shamir/src/verifier.rs:21-50 | the answer and the final transcript are the verdict of the rounds on the proof |
| FiatShamirVerifier.ProveAndVerify | fiat_shamir/tests/test.rs:27-47 | for any table of 2^n entries, a fresh prover's proof is accepted by a fresh verifier over the same hash |
| GkrProver.ProofContainer.constructor | gkr/src/prover.rs:24-36 | the claimed sum is the sum of all evaluations and no message has been sent |
| GkrProver.ProofContainer.ProveRound | gkr/src/prover.rs:48-60 | one round appends the split sums, absorbs them, draws a challenge and binds variable 0 to it, keeping the prover on its rounds |
| GkrProver.ProofContainer.GenerateProofs | gkr/src/prover.rs:38-66 | the messages appended are those of the rounds that follow absorbing the table and the claimed sum, the transcript ends in their state, and the proof carries the table, the claimed sum and the messages |
| GkrVerifier.Verifier.constructor | gkr/src/verifier.rs:18-23 | the verifier's transcript has absorbed nothing |
| GkrVerifier.Verifier.Verify | gkr/src/verifier.rs:25-56 | the answer and the final transcript are the verdict of the rounds on the proof, the same verdict as the fiat_shamir crate's verifier |
| GkrVerifier.ProveAndVerify | gkr/src/verifier.rs:25-56 | for any table of 2^n entries, a fresh prover's proof is accepted by a fresh verifier over the same hash |
| DensedUniPoly.Degree | gkr/src/gkr_sumcheck_dependencies/densed_uni_poly.rs:15-17 | the degree fits in 32 bits, and when the length does too it is one less than the number of coefficients |
| DensedUniPoly.Evaluate | gkr/src/gkr_sumcheck_dependencies/densed_uni_poly.rs:19-28 | the loop computes the polynomial's value at the point, the sum of coefficient i times the point to the power i |
| DensedUniPoly.EvaluateAdvanced | gkr/src/gkr_sumcheck_dependencies/densed_uni_poly.rs:30-38 | the loop computes the same value as `evaluate` |
| DensedUniPoly.ScalarMul | gkr/src/gkr_sumcheck_dependencies/densed_uni_poly.rs:94-102 | the loop multiplies every coefficient by the scalar, keeping their order |
| DensedUniPoly.MultiplyPolynomials | gkr/src/gkr_sumcheck_dependencies/densed_uni_poly.rs:107-127 | the nested loops build the coefficient vector of the product polynomial |
| DensedUniPoly.AddPolynomials | gkr/src/gkr_sumcheck_dependencies/densed_uni_poly.rs:129-147 | the loop builds the coefficient-wise sum, the shorter vector padded with zeros |
| DensedUniPoly.LagrangeBasis | gkr/src/gkr_sumcheck_dependencies/densed_uni_poly.rs:68-92 | the loop and the scaling build the basis polynomial of the focus point, scaled to the sample |
| DensedUniPoly.LagrangeInterpolate | gkr/src/gkr_sumcheck_dependencies/densed_uni_poly.rs:44-65 | the result is the sum of the bases; through distinct points it has one coefficient per point and passes through every sample |
| UniTheory.PaddedAdd | gkr/src/gkr_sumcheck_dependencies/densed_uni_poly.rs:129-147 | the sum is as long as the longer vector |
| UniTheory.EvalPaddedAdd | gkr/src/gkr_sumcheck_dependencies/densed_uni_poly.rs:129-147 | the value of the padded sum at any point is the sum of the two values |
| UniTheory.Scale | gkr/src/gkr_sumcheck_dependencies/densed_uni_poly.rs:94-102 | scaling keeps the number of coefficients |
| UniTheory.EvalScale | gkr/src/gkr_sumcheck_dependencies/densed_uni_poly.rs:94-102 | the value of the scaled polynomial is the scaled value |
| UniTheory.Conv | gkr/src/gkr_sumcheck_dependencies/densed_uni_poly.rs:107-127 | the product of vectors of lengths a and b has a + b - 1 coefficients |
| UniTheory.EvalConv | gkr/src/gkr_sumcheck_dependencies/densed_uni_poly.rs:107-127 | the value of the product at any point is the product of the values |
| UniTheory.Numerator | gkr/src/gkr_sumcheck_dependencies/densed_uni_poly.rs:73-82 | the numerator has at least one coefficient |
| UniTheory.NumeratorAtFocus | gkr/src/gkr_sumcheck_dependencies/densed_uni_poly.rs:84-91 | the numerator is non-zero at its focus, so the division in `lagrange_basis` cannot fail |
| UniTheory.NumeratorVanishes | gkr/src/gkr_sumcheck_dependencies/densed_uni_poly.rs:73-82 | the numerator is zero at every other point of the set |
| UniTheory.NumeratorLength | gkr/src/gkr_sumcheck_dependencies/densed_uni_poly.rs:73-82 | the numerator has one coefficient more than there are points other than its focus |
| UniTheory.BasisEval | gkr/src/gkr_sumcheck_dependencies/densed_uni_poly.rs:68-92 | the basis takes the sample at its focus and zero at every other point of the set |
| UniTheory.EvalSumPolys | gkr/src/gkr_sumcheck_dependencies/densed_uni_poly.rs:44-65 | the running sum from [0] evaluates to the sum of the values of its terms |
| UniTheory.InterpEval | gkr/src/gkr_sumcheck_dependencies/densed_uni_poly.rs:44-65 | interpolation through distinct points reproduces every sample |
| UniTheory.InterpThrough | gkr/src/gkr_sumcheck_dependencies/densed_uni_poly.rs:44-65 | through distinct points the interpolant has one coefficient per point, at least one, and reproduces every sample |
| UniTheory.FactorTheorem | gkr/src/gkr_sumcheck_dependencies/densed_uni_poly.rs:44-65 | p(t) - p(a) is (t - a) times the quotient of p by (X - a) at t |
| UniTheory.VanishingEverywhere | gkr/src/gkr_sumcheck_dependencies/densed_uni_poly.rs:44-65 | a polynomial of at most k coefficients that is zero at k distinct points is zero everywhere |
| UniTheory.InterpUnique | gkr/src/gkr_sumcheck_dependencies/densed_uni_poly.rs:44-65 | any polynomial with no more coefficients than there are xs through the samples agrees with the interpolant everywhere |
| UniTheory.AgreeEverywhere | gkr/src/gkr_sumcheck_dependencies/densed_uni_poly.rs:44-65 | two polynomials of at most k coefficients that agree at k distinct points agree everywhere |
| GkrSumcheck.UnivariateToBytes | gkr/src/sum_check.rs:143-148 | the encoding of a round message is 32 bytes per coefficient |
| GkrSumcheck.UnivariateBlock | gkr/src/sum_check.rs:143-148 | block i of the encoding is the little-endian encoding of coefficient i |
| GkrSumcheck.UnivariateToBytesInjective | gkr/src/sum_check.rs:143-148 | two messages of the same length absorbed as the same bytes are the same message |
| GkrSumcheck.RoundEvaluations | gkr/src/sum_check.rs:111-141 | the round samples are d + 1 values, one per point 0..d |
| GkrSumcheck.RoundEvaluationsOnTables | gkr/src/sum_check.rs:111-141 | on tables, sample i is the round function (the hypercube sum with variable 0 fixed) at i |
| GkrSumcheck.CollapsibleAnyValue | gkr/src/sum_check.rs:127-135 | whether the bound sum can be collapsed element-wise does not depend on the value bound |
| GkrSumcheck.GenerateRoundUnivariate | gkr/src/sum_check.rs:111-141 | the loop returns exactly the round function's samples at 0..degree |
| GkrSumcheck.EvaluateRoundAt | gkr/src/sum_check.rs:126-135 | one pass binds variable 0 to the point, collapses and sums: the round function at that point |
| GkrSumcheck.ReadyAfterBinding | gkr/src/sum_check.rs:55 | binding variable 0 keeps every product's factor count and leaves a sum ready for one round fewer |
| GkrSumcheck.Honest | gkr/src/sum_check.rs:39-48 | the prover's message on a ready sum is the interpolation of the round samples at 0..d |
| GkrSumcheck.NextReady | gkr/src/sum_check.rs:55 | a ready sum can be bound at variable 0 and stays ready with one variable fewer |
| GkrSumcheck.ProveRoundsCons | gkr/src/sum_check.rs:35-58 | one round sends the strategy's message, draws the challenge and continues on the bound sum |
| GkrSumcheck.ProveRoundsLength | gkr/src/sum_check.rs:35-58 | the prover sends one message and draws one challenge per variable |
| GkrSumcheck.ProveProgressStart | gkr/src/sum_check.rs:29-31 | before the first round nothing has been sent and all rounds remain |
| GkrSumcheck.ProveProgressStep | gkr/src/sum_check.rs:39-57 | each loop pass keeps "sent so far + still to send = total" |
| GkrSumcheck.ProveProgressDone | gkr/src/sum_check.rs:60-64 | after the last round the messages, challenges and transcript are the totals |
| GkrSumcheck.MessageOfRound | gkr/src/sum_check.rs:44-48 | interpolating the samples at 0..degree gives the honest message |
| GkrSumcheck.ProveReadyOnTables | gkr/src/sum_check.rs:27 | a sum of tables of n variables runs n rounds |
| GkrSumcheck.Prove | gkr/src/sum_check.rs:22-65 | the proof holds the claimed sum and the rounds run after absorbing the claim, and the transcript ends in their state |
| GkrSumcheck.VerifyRounds | gkr/src/sum_check.rs:76-103 | passing rounds draw one challenge per message; a failed check returns no challenges |
| GkrSumcheck.VerifyRoundsPass | gkr/src/sum_check.rs:82-96 | a round whose g(0) + g(1) equals the claim puts its challenge in front of the later rounds' challenges |
| GkrSumcheck.VerifyProgressStep | gkr/src/sum_check.rs:90-96 | each passing round keeps the verifier's progress with the new claim g(c) and challenge c |
| GkrSumcheck.VerifyProgressReject | gkr/src/sum_check.rs:82-88 | a failed check ends verification invalid, with no challenges and the claim it failed on |
| GkrSumcheck.VerifyProgressDone | gkr/src/sum_check.rs:99-103 | after the last message the proof is valid with the challenges drawn and the last claim |
| GkrSumcheck.Verify | gkr/src/sum_check.rs:67-104 | the result and the final transcript are those of the rounds replayed after absorbing the claimed sum |
| GkrSumcheck.HonestRound | gkr/src/sum_check.rs:39-48 | the honest message's values at 0 and 1 add up to the hypercube sum, and its value at c is the hypercube sum after binding variable 0 to c |
| GkrSumcheck.TruthfulRound | gkr/src/sum_check.rs:82-94 | a truthful message passes the check on the true sum and leads to the true sum of the bound polynomial |
| GkrSumcheck.HonestIsTruthful | gkr/src/sum_check.rs:39-48 | the crate's prover is truthful while the degree is below the modulus |
| GkrSumcheck.AcceptedCons | gkr/src/sum_check.rs:76-97 | a truthful first round in front of accepted rounds on the bound sum is accepted |
| GkrSumcheck.RoundsCompleteStep | gkr/src/sum_check.rs:35-58 | one truthful round followed by accepted rounds is accepted |
| GkrSumcheck.RoundsComplete | gkr/src/sum_check.rs:22-104 | completeness: truthful rounds on the hypercube sum pass, draw the prover's challenges and end at the sum polynomial's value there |
| GkrSumcheck.WrongClaimRejected | gkr/src/sum_check.rs:82-88 | with any claim other than the hypercube sum the first truthful round is rejected |
| GkrSumcheck.ProveAndVerify | gkr/tests/sumcheck_test.rs:33-57 | a prover and verifier over the same hash, given the true sum, accept and end at the sum polynomial's value at the prover's challenges |
| GkrSumcheck.SampleOfCorners | gkr/tests/sumcheck_test.rs:8-31 | the two-product test sum sampled at t is twice the product of its bound corner lines |
| GkrSumcheck.RoundUnivariateExample | gkr/tests/sumcheck_test.rs:8-31 | the test's round samples are 0, 12, 48 |
| RoundTheory.ShapeAfterBinding | gkr/src/sum_check.rs:55 | binding variable 0 leaves tables of one variable fewer and keeps every product's factor count |
| RoundTheory.BoundProductEntry | gkr/src/sum_check.rs:127-133 | entry i of a bound product's collapse is the product of the factors' lines through entries i and i + 2^(n-1) |
| RoundTheory.BoundSumEntry | gkr/src/sum_check.rs:127-133 | entry i of the bound sum's collapse is the sum over products of those line products |
| RoundTheory.LerpColumnEnds | gkr/src/evaluation.rs:67-100 | the lines pass through the lower half at 0 and the upper half at 1 |
| RoundTheory.LowEntry | gkr/src/sum_check.rs:127-133 | bound at 0, the collapse keeps entry i of the unbound collapse |
| RoundTheory.HighEntry | gkr/src/sum_check.rs:127-133 | bound at 1, the collapse's entry i is the unbound collapse's entry i + 2^(n-1) |
| RoundTheory.BoundSumLow | gkr/src/sum_check.rs:127-135 | binding at 0 keeps the lower half of the collapse |
| RoundTheory.BoundSumHigh | gkr/src/sum_check.rs:127-135 | binding at 1 keeps the upper half of the collapse |
| RoundTheory.RoundSumEnds | gkr/src/sum_check.rs:79-82 | the round function's values at 0 and 1 add up to the hypercube sum, the check the verifier makes |
| RoundTheory.EvalLine | gkr/src/evaluation.rs:67-100 | the two coefficients of a line evaluate to the interpolation between its ends |
| RoundTheory.EvalProductLines | gkr/src/sum_check.rs:127-135 | the product of m line polynomials evaluates to the product of the m lines |
| RoundTheory.EvalColumnPoly | gkr/src/sum_check.rs:127-135 | one entry's polynomial evaluates to the sum of that entry's line products |
| RoundTheory.EvalRoundPoly | gkr/src/sum_check.rs:111-141 | the round function is a polynomial in the bound value |
| RoundTheory.RoundPolyLength | gkr/src/sum_check.rs:112-113 | with d factors per product that polynomial has degree d, so d + 1 samples determine it |
| RoundTheory.Points | gkr/src/sum_check.rs:44-46 | the sample points are 0, 1, …, d |
| RoundTheory.PointsDistinct | gkr/src/sum_check.rs:44-46 | below the modulus the sample points are pairwise different |
| RoundTheory.RoundValues | gkr/src/sum_check.rs:125-138 | the samples are the round function at 0..d |
| RoundTheory.MessageIsRoundSum | gkr/src/sum_check.rs:44-48 | the interpolation of the d + 1 samples agrees with the round function everywhere |
| RoundTheory.SumWithoutVariables | gkr/src/sum_check.rs:99-103 | with no variables left the collapse's sum is the polynomial's value at the empty point |
| RoundTheory.BoundProductsEvaluate | gkr/src/sum_check.rs:55 | binding variable 0 to c and evaluating at the rest is evaluating at c followed by the rest |
| ProductPoly.New | gkr/src/product_poly.rs:11-24 | accepted exactly when every factor has the first factor's variable count, keeping the factors; rejected with the count-mismatch error otherwise |
| ProductPoly.NewOnTables | gkr/src/product_poly.rs:11-24 | factors that are all tables of one size are accepted |
| ProductPoly.NewRejectsDifferentLengths | gkr/tests/product_poly_test.rs:6-14 | a one-variable and a two-variable factor are rejected |
| ProductPoly.FactorEvaluations | gkr/src/product_poly.rs:29-31 | one evaluation per factor, in factor order |
| ProductPoly.TablesEvaluate | gkr/src/product_poly.rs:26-34 | tables of n variables can be evaluated at n values |
| ProductPoly.Evaluate | gkr/src/product_poly.rs:26-34 | the result is the product of the factor evaluations |
| ProductPoly.BindFour | gkr/src/evaluation.rs:67-100 | binding the first variable of a two-variable table pairs entry k with entry k + 2 |
| ProductPoly.EvalFour | gkr/src/evaluation.rs:19-31 | a two-variable table at (a, b) is the line in b between its two lines in a |
| ProductPoly.EvalCorner | gkr/tests/product_poly_test.rs:16-29 | the table of a·x·y at (1, 2) is 2a |
| ProductPoly.TwoCorners | gkr/tests/product_poly_test.rs:16-29 | the product of a·x·y and b·x·y at (1, 2) is 2a · 2b |
| ProductPoly.EvaluateExample | gkr/tests/product_poly_test.rs:16-29 | `[0,0,0,2]` times `[0,0,0,3]` at (1, 2) is 24 |
| ProductPoly.BindFactors | gkr/src/product_poly.rs:43-51 | one bound table per factor, in factor order |
| ProductPoly.PartialEvaluate | gkr/src/product_poly.rs:36-54 | the loop returns every factor with the variable bound to the value |
| ProductPoly.BindFactorsOnTables | gkr/src/product_poly.rs:36-54 | binding variable 0 of tables of n variables leaves tables of n − 1 variables that `new` accepts, with the same degree |
| ProductPoly.PartialEvaluateThenEvaluate | gkr/src/product_poly.rs:26-54 | binding the first value and evaluating at the rest agrees with evaluating at all values |
| ProductPoly.BindCorners | gkr/tests/product_poly_test.rs:32-50 | binding x of a·x·y and b·x·y at 2 gives [0, 2a] and [0, 2b] |
| ProductPoly.PartialEvaluateExample | gkr/tests/product_poly_test.rs:32-50 | binding variable 0 at 2 gives `[0, 4]` and `[0, 6]` |
| ProductPoly.PointwiseProduct | gkr/src/product_poly.rs:58-73 | the collapse is as long as the first factor, and entry i is the product of the factors' entries i |
| ProductPoly.ColumnSnoc | gkr/src/product_poly.rs:66-70 | one more factor multiplies every column product by its entry |
| ProductPoly.MultiplyPolynomialsElementWise | gkr/src/product_poly.rs:58-73 | the loops return the entry-by-entry product of the factors |
| ProductPoly.PointwiseProductAtBooleanPoint | gkr/src/product_poly.rs:26-73 | at a boolean point the element-wise product evaluates to the product of the factor evaluations |
| ProductPoly.TwoFactorColumn | gkr/src/product_poly.rs:58-73 | with two factors each entry of the collapse is the product of the two entries |
| ProductPoly.MultiplyExample | gkr/tests/product_poly_test.rs:52-69 | `[0,0,0,2]` times `[0,0,0,3]` entry by entry is `[0,0,0,6]` |
| SumPoly.New | gkr/src/gkr_sumcheck_dependencies/poly_sum.rs:12-28 | accepted exactly when every factor of every product has the variable count of the first factor of the first product; rejected with the count-mismatch error otherwise |
| SumPoly.NewOnTables | gkr/src/gkr_sumcheck_dependencies/poly_sum.rs:12-28 | products whose factors are all tables of one size are accepted |
| SumPoly.NewRejectsDifferentLengths | gkr/tests/poly_sum_test.rs:7-18 | products of a one-variable and of a two-variable table are rejected |
| SumPoly.NumberOfVariablesOfTables | gkr/src/gkr_sumcheck_dependencies/poly_sum.rs:92-94 | on tables of n variables the variable count is n |
| SumPoly.DegreeExample | gkr/tests/poly_sum_test.rs:113-148 | two products of two two-variable factors have degree 2 and two variables |
| SumPoly.ProductEvaluations | gkr/src/gkr_sumcheck_dependencies/poly_sum.rs:33-35 | one evaluation per product, each the product of its factor evaluations |
| SumPoly.SumTablesEvaluate | gkr/src/gkr_sumcheck_dependencies/poly_sum.rs:30-38 | tables of n variables can be evaluated at n values |
| SumPoly.Evaluate | gkr/src/gkr_sumcheck_dependencies/poly_sum.rs:30-38 | the result is the sum of the product evaluations |
| SumPoly.TwoProductsEvaluate | gkr/tests/poly_sum_test.rs:20-41 | two products sum to the sum of their evaluations |
| SumPoly.EvaluateExample | gkr/tests/poly_sum_test.rs:20-41 | (2xy)(3xy) + (xy)(2xy) at (1, 2) is 32 |
| SumPoly.SumOfPair | gkr/src/gkr_sumcheck_dependencies/poly_sum.rs:30-38 | the running sum of two values is their field sum |
| SumPoly.BindProducts | gkr/src/gkr_sumcheck_dependencies/poly_sum.rs:43-48 | one bound product per product, each with every factor bound |
| SumPoly.PartialEvaluate | gkr/src/gkr_sumcheck_dependencies/poly_sum.rs:40-53 | the loop returns every product with every factor's variable bound to the value |
| SumPoly.BindProductsOnTables | gkr/src/gkr_sumcheck_dependencies/poly_sum.rs:40-53 | tables of n ≥ 1 variables can be bound and leave tables of n − 1 variables |
| SumPoly.PartialEvaluateThenEvaluate | gkr/src/gkr_sumcheck_dependencies/poly_sum.rs:30-53 | binding the first value and evaluating at the rest agrees with evaluating at all values |
| SumPoly.PartialEvaluateExample | gkr/tests/poly_sum_test.rs:44-82 | binding variable 0 at 2 gives `[0,4]`,`[0,6]` and `[0,2]`,`[0,4]` |
| SumPoly.ProductColumn | gkr/src/gkr_sumcheck_dependencies/poly_sum.rs:63-73 | entry i of each product's collapse, in product order |
| SumPoly.PointwiseSum | gkr/src/gkr_sumcheck_dependencies/poly_sum.rs:57-76 | the collapse is as long as the first factor, and entry i is the sum of the products' entries i |
| SumPoly.ProductColumnSnoc | gkr/src/gkr_sumcheck_dependencies/poly_sum.rs:67-73 | one more product adds its entry to every column sum |
| SumPoly.ColumnSumStep | gkr/src/gkr_sumcheck_dependencies/poly_sum.rs:70-72 | adding a product's entry at i moves entry i to the sums over one more product |
| SumPoly.ColumnSumsBeyond | gkr/src/gkr_sumcheck_dependencies/poly_sum.rs:70-72 | where a product's collapse ends, the column sums are unchanged by it |
| SumPoly.AddPolynomialsElementWise | gkr/src/gkr_sumcheck_dependencies/poly_sum.rs:57-76 | the loops return the entry-by-entry sum of the products' element-wise products |
| SumPoly.TablesCollapsible | gkr/src/gkr_sumcheck_dependencies/poly_sum.rs:58-61 | several products of several same-size factors pass the assertions of the collapse |
| SumPoly.PointwiseSumAtBooleanPoint | gkr/src/gkr_sumcheck_dependencies/poly_sum.rs:30-76 | at a boolean point the element-wise sum evaluates to `evaluate` |
| SumPoly.AddExample | gkr/tests/poly_sum_test.rs:85-110 | (2xy)(3xy) + (xy)(2xy) collapses to `[0,0,0,8]` |
| WbBcUtility.TensorTable | gkr/src/evaluation.rs:106-141 | the tensor of tables of kb and kc variables is a table of kb + kc variables |
| WbBcUtility.TensorEntryAt | gkr/src/evaluation.rs:106-141 | entry x·m + y of the tensor combines entry x of the left table with entry y of the right |
| WbBcUtility.TensorBindFirstEntry | gkr/src/evaluation.rs:106-141 | each entry of the bound tensor is the entry of the tensor of the bound left table |
| WbBcUtility.TensorBindFirst | gkr/src/evaluation.rs:106-141 | binding the tensor's first variable binds the first variable of its left table |
| WbBcUtility.EvalShift | gkr/src/evaluation.rs:106-121 | a table shifted by k evaluates to k plus its evaluation |
| WbBcUtility.ShiftBindFirst | gkr/src/evaluation.rs:106-121 | binding a shifted row is shifting the bound row |
| WbBcUtility.EvalRowScale | gkr/src/evaluation.rs:123-141 | a table scaled by k evaluates to k times its evaluation |
| WbBcUtility.EvalTensorBase | gkr/src/evaluation.rs:106-141 | a one-entry left table gives one shifted or scaled row |
| WbBcUtility.EvalTensorStep | gkr/src/evaluation.rs:106-141 | one induction step: binding the left table's first variable commutes with the tensor |
| WbBcUtility.EvalTensor | gkr/src/evaluation.rs:106-141 | the tensor at rb followed by rc is b(rb) + c(rc) for the add tensor and b(rb)·c(rc) for the mul tensor |
| WbBcUtility.FbcTables | gkr/src/wb_bc_utility.rs:20-33 | every factor of f(b, c) is a table of 2k variables |
| WbBcUtility.ComputeFbcPolynomial | gkr/src/wb_bc_utility.rs:20-33 | f(b, c) = add_i·(W_b + W_c) + mul_i·(W_b·W_c), as two products of two tables of 2k variables, of degree 2 |
| WbBcUtility.ProductOfTwo | gkr/src/product_poly.rs:26-34 | a product of two tables evaluates to the product of their evaluations |
| WbBcUtility.FbcEvaluation | gkr/src/wb_bc_utility.rs:20-33 | f at (r_b, r_c) is add_i(r)·(W_b(r_b) + W_c(r_c)) + mul_i(r)·W_b(r_b)·W_c(r_c), the verifier's wiring claim |
| WbBcUtility.EvalBindAll | gkr/src/evaluation.rs:59-104 | evaluating after binding the first values is evaluating at all of them |
| WbBcUtility.Folded | gkr/src/wb_bc_utility.rs:70-77 | the folded table has one variable per value not bound |
| WbBcUtility.FoldedEvaluation | gkr/src/wb_bc_utility.rs:35-80 | the folded table at x is α·p(rb, x) + β·p(rc, x) |
| WbBcUtility.BindRest | gkr/src/wb_bc_utility.rs:50-68 | binding the first value and then each later one binds all of them in order |
| WbBcUtility.ComputeNewAddIMulI | gkr/src/wb_bc_utility.rs:35-80 | the new add_i and mul_i are α·p(rb, ·) + β·p(rc, ·) of the old ones |
| WbBcUtility.EvaluateWbWc | gkr/src/wb_bc_utility.rs:82-94 | W_b at the first half of the challenges, W_c at the second half |
| WbBcUtility.InitialWiring | gkr/src/wb_bc_utility.rs:104-117 | the output layer's wiring table with its output variable bound is a table of one variable fewer |
| WbBcUtility.ComputeVerifierInitialClaim | gkr/src/wb_bc_utility.rs:96-123 | the claim is the wiring claim from add_i and mul_i bound at r_0 and evaluated at the challenges, with the given W(r_b) and W(r_c) |
| WbBcUtility.ComputeVerifierFoldedClaim | gkr/src/wb_bc_utility.rs:125-148 | the claim is the wiring claim from add_i and mul_i folded at the previous r_b, r_c with α, β and evaluated at the current challenges |
| Gkr.W0Table | gkr/src/gkr_p.rs:37-45 | a single output value is padded with a zero; otherwise the output is kept as it is |
| Gkr.InitialClaimValue | gkr/src/gkr_p.rs:37-49 | the first claim W_0(r_a) is the line through the first output value and the second, or zero, at r_a |
| Gkr.LayerWiring | gkr/src/gkr_p.rs:56-80 | layer i's add_i and mul_i after binding or folding the output variables are tables of the 2(i+1) input variables |
| Gkr.LayerProducts | gkr/src/gkr_p.rs:86-93 | f(b, c) of layer i is a sum ready for 2(i+1) sum-check rounds |
| Gkr.LayerRun | gkr/src/gkr_p.rs:97 | the layer's sum-check sends one message and draws one challenge per input variable of b and c |
| Gkr.Forwarded | gkr/src/gkr_p.rs:107-131 | after a sum-check that is not the last, r_b and r_c each hold one value per input variable of the layer |
| Gkr.RoundCountsAppended | gkr/src/gkr_p.rs:97-98 | appending the next layer's proof keeps two rounds per input variable for every proof |
| Gkr.WithRounds | gkr/src/gkr_p.rs:97-98 | appending a layer's sum-check proof adds exactly one proof and changes nothing else |
| Gkr.ProveLayer | gkr/src/gkr_p.rs:55-132 | one loop pass adds one proof, and W(r_b), W(r_c) unless the layer is the last, leaving a state ready for the next layer |
| Gkr.LayeredAt | gkr/src/gkr_p.rs:86 | on a layered circuit layer i's wiring fits and the next layer's values form a table of its input variables |
| Gkr.ProverStart | gkr/src/gkr_p.rs:27-49 | the prover starts with no proofs and no evaluations sent |
| Gkr.ProverAfterNext | gkr/src/gkr_p.rs:55-132 | the prover's state after i + 1 layers is layer i's pass on its state after i layers |
| Gkr.ProverAfterStep | gkr/src/gkr_p.rs:55-132 | pass i adds one sum-check proof with two rounds per input variable, sends W(r_b), W(r_c) unless layer i is the last, and leaves the state ready for layer i + 1 |
| Gkr.ProverAfterShape | gkr/src/gkr_p.rs:55-132 | after i layers the prover holds one proof per layer and, before the last layer, r_b and r_c for the next |
| Gkr.ProverAfterProofs | gkr/src/gkr_p.rs:98-116 | after i layers every proof has two rounds per input variable, and W(r_b), W(r_c) were sent for every layer but the last |
| Gkr.LastLayerKeepsClaim | gkr/src/gkr_p.rs:107-131 | the last layer leaves the running claim unchanged, equal to its sum-check's claimed sum |
| Gkr.ProofClaimedSum | gkr/src/gkr_p.rs:134-140 | the proof holds one sum-check proof per layer, and its claimed sum is that of the last one |
| Gkr.LayerWiringTables | gkr/src/gkr_p.rs:56-80 | the wiring tables are bound to r_a at layer 0 and folded with α, β at r_b, r_c after it |
| Gkr.LayerSumcheck | gkr/src/gkr_p.rs:86-98 | the layer's proof is the honest sum-check on f(b, c) from the running claim, on the shared transcript |
| Gkr.ProveLayerStep | gkr/src/gkr_p.rs:55-132 | the loop body leaves exactly the state `ProveLayer` describes |
| Gkr.SendEvaluations | gkr/src/gkr_p.rs:107-131 | W(r_b), W(r_c) are recorded and absorbed, α and β drawn after each, and the claim becomes α·W(r_b) + β·W(r_c) |
| Gkr.CommitOutput | gkr/src/gkr_p.rs:37-49 | the padded output is absorbed, r_a is the challenge drawn, and the claim is the padded output at r_a |
| Gkr.ProveTracedLayer | gkr/src/gkr_p.rs:55-132 | on a layered circuit, pass i takes the state after i layers to the state after i + 1 |
| Gkr.ProveLayers | gkr/src/gkr_p.rs:55-132 | the loop ends in the prover's state after all layers |
| Gkr.Prove | gkr/src/gkr_p.rs:24-141 | the proof is the one determined by the circuit's layers, its evaluation at the inputs and the hash |
| Gkr.VerifyLayer | gkr/src/gkr_p.rs:161-221 | a layer is accepted only if its proof exists and claims the running claim, the accepted layer's challenges, one per round polynomial, become the next layer's previous ones, and a missing proof panics |
| Gkr.VerifierStart | gkr/src/gkr_p.rs:143-159 | the verifier starts with no previous challenges and α = β = 0, and never rejects before its loop |
| Gkr.VerifierStartOutputs | gkr/src/gkr_p.rs:148-159 | on one or two output values the opening claims the line through them, the second padded to zero, at r_a; on an empty output it panics |
| Gkr.StopIsFinal | gkr/src/gkr_p.rs:161-211 | once the verifier returns false or panics, every later state is that same stop |
| Gkr.ReturnsPrefix | gkr/src/gkr_p.rs:161-224 | a verifier that returns at the end did not panic at any earlier layer |
| Gkr.VerifierPassAt | gkr/src/gkr_p.rs:161-222 | pass i of the loop is `VerifyLayer` on layer i from the state after i layers |
| Gkr.AcceptedPrefix | gkr/src/gkr_p.rs:161-224 | every layer of an accepted proof was accepted |
| Gkr.AcceptedClaims | gkr/src/gkr_p.rs:162-164 | an accepted proof's sum-check for layer i claims the verifier's running claim after the layers before it |
| Gkr.LayerWbWc | gkr/src/gkr_p.rs:173-182 | W(r_b), W(r_c) come from the proof before the last layer and from the inputs at the last |
| Gkr.LayerExpectedClaim | gkr/src/gkr_p.rs:184-207 | the expected claim uses the initial wiring at layer 0 and the folded wiring after it |
| Gkr.VerifierIgnoresClaimedSum | gkr/src/gkr_p.rs:142-225 | `verify` never reads the proof's claimed sum: changing it changes no layer's outcome |
| Gkr.VerifyLayerStep | gkr/src/gkr_p.rs:161-221 | the loop body accepts exactly when `VerifyLayer` does and then leaves its state |
| Gkr.VerifyTracedLayer | gkr/src/gkr_p.rs:161-221 | an accepted pass leaves the state after i + 1 layers; a rejected one means the proof is rejected |
| Gkr.OpenOutput | gkr/src/gkr_p.rs:148-159 | the padded output is absorbed, r_a drawn and W_0(r_a) claimed |
| Gkr.VerifyLayers | gkr/src/gkr_p.rs:161-224 | the loop returns true exactly when no layer is rejected |
| Gkr.Verify | gkr/src/gkr_p.rs:142-225 | `verify` returns true exactly when no layer is rejected |
| WiringSums.FbcSum | gkr/src/wb_bc_utility.rs:20-33 | the hypercube sum of f(b, c) is add_i against the table of W(b) + W(c) plus mul_i against the table of W(b)·W(c) |
| WiringSums.LayerSums | gkr/src/circuits/circuit.rs:39-55 | entry a is the sum of what the layer's gates contribute to output a |
| WiringSums.DistinctPositions | gkr/src/circuits/circuit.rs:85-122 | two different gates of one operation, with indices within their digits, mark different positions of the wiring table |
| WiringSums.RowDotsSum | gkr/src/circuits/circuit.rs:39-122 | row a of add_i against W(b) + W(c) plus row a of mul_i against W(b)·W(c) is entry a of the layer's values, when no gate is listed twice |
| WiringSums.BoundWiringDot | gkr/src/gkr_p.rs:56-80 | a wiring table with its output variables bound to r, against the gate table, is the row sums evaluated at r |
| WiringSums.InitialFbcSum | gkr/src/gkr_p.rs:58-93 | at layer 0, the sum of f(b, c) over the wiring bound to r_a is the layer's row sums evaluated at r_a |
| WiringSums.FoldedFbcSum | gkr/src/gkr_p.rs:71-93 | after layer 0, the sum of f(b, c) over the wiring folded at r_b and r_c with α and β is α times the row sums at r_b plus β times the row sums at r_c |
| WiringSums.LayerSumsPadded | gkr/src/circuits/circuit.rs:32-56 | row sums over more outputs than the layer has are its values padded with zeros |
| GkrCompleteness.LayerSumsAreValues | gkr/src/gkr_p.rs:37-45 | on an honest circuit the row sums of layer i are its values, at the output layer padded with a zero to two entries as `prove` pads them |
| GkrCompleteness.OutputClaim | gkr/src/gkr_p.rs:37-97 | the prover's first claim W_0(r_a) is the hypercube sum of the output layer's f(b, c) |
| GkrCompleteness.FoldedClaim | gkr/src/gkr_p.rs:107-131 | the prover's claim α·W(r_b) + β·W(r_c) before a later layer is the hypercube sum of that layer's f(b, c) |
| GkrCompleteness.HonestRoundsPass | gkr/src/gkr_p.rs:97 | honest rounds from the true sum of f pass the verifier's rounds, with the prover's challenges and transcript, ending on the wiring claim at those challenges |
| GkrCompleteness.MirroredClaim | gkr/src/gkr_p.rs:184-207 | from r_b and r_c as previous challenges, the verifier's expected claim is the wiring claim on the prover's tables |
| GkrCompleteness.HonestLayerAccepted | gkr/src/gkr_p.rs:161-221 | from the state mirroring the prover's, the verifier accepts an honest layer and, before the last, ends in the state mirroring the prover's after it |
| GkrCompleteness.SentPrefix | gkr/src/gkr_p.rs:98-116 | what the prover has sent after i layers is a prefix of what it has sent after any later layer |
| GkrCompleteness.ForwardingPass | gkr/src/gkr_p.rs:107-131 | a pass before the last layer sends W at the two halves of its challenges, keeps them as r_b and r_c and folds the claim with the α and β it drew |
| GkrCompleteness.ProofRoundsAt | gkr/src/gkr_p.rs:97-98 | the proof's sum-check proof for layer i is the one the prover computed from its state before layer i |
| GkrCompleteness.ProofEvaluationsAt | gkr/src/gkr_p.rs:107-115 | before the last layer the proof carries layer i + 1's values at the two halves of layer i's challenges |
| GkrCompleteness.HonestStep | gkr/src/gkr_p.rs:161-222 | layer i takes the verifier from the prover's state before it to the prover's state after it |
| GkrCompleteness.HonestStart | gkr/src/gkr_p.rs:143-159 | the verifier opens the honest output into the state of the prover before its loop |
| GkrCompleteness.HonestRunning | gkr/src/gkr_p.rs:161-222 | before every layer of an honest circuit the verifier's loop variables mirror the prover's |
| GkrCompleteness.ProveThenVerify | gkr/src/gkr_p.rs:24-225 | `verify` returns true, without panicking, on the proof `prove` returns, whatever the hash |
| GkrCompleteness.ProveAndVerify | gkr/src/gkr_p.rs:24-225 | running `prove` and then `verify` on the same circuit and inputs returns true |
| GkrCompleteness.OneGatePerOutput | gkr/src/circuits/circuit.rs:39-55 | a layer whose gate k writes entry k has as values each gate's operation on the entries it reads |
| GkrCompleteness.FirstTestEvaluations | gkr/tests/gkr_p_test.rs:7-16 | the first test circuit on 2, 3, 4, 5 computes 5 and 20, then 100 |
| GkrCompleteness.FirstTestHonest | gkr/tests/gkr_p_test.rs:7-16 | the first test circuit reads in range, fits its tables and lists no gate twice |
| GkrCompleteness.FirstTest | gkr/tests/gkr_p_test.rs:7-21 | `test_gkr_protocol1`: `verify` returns true on the proof `prove` returns |
| GkrCompleteness.SecondTestEvaluations | gkr/tests/gkr_p_test.rs:24-50 | the second test circuit on 1 to 8 computes 3, 7, 11, 15, then 21 and 26, then 47 |
| GkrCompleteness.SecondTestHonest | gkr/tests/gkr_p_test.rs:24-50 | the second test circuit reads in range, fits its tables and lists no gate twice |
| GkrCompleteness.SecondTest | gkr/tests/gkr_p_test.rs:24-55 | `test_gkr_protocol2`: `verify` returns true on the proof `prove` returns |
| GkrCompleteness.ForgedOutputAccepted | gkr/src/gkr_p.rs:161-224 | as written, `verify` accepts, for an adder on 1 and 2, a proof that the output is 0, whose sum-check has no rounds |
| GkrCompleteness.ForgedOutputRejected | gkr/src/gkr_p.rs:161-224 | the forged proof is accepted as written and rejected once the round counts are checked |
| GkrCompleteness.CheckedComplete | gkr/src/gkr_p.rs:24-225 | checking the round counts loses no honest proof: `prove` followed by the checked verifier accepts |
| GkrCompleteness.VerifyCounted | gkr/src/gkr_p.rs:142-225 | `verify` preceded by the round-count check returns true exactly when the counts are right and `verify` accepts |
| ZkPolynomials.Terms | zk_implementation/src/lib.rs:16-19 | one term coef_i·x^i per coefficient |
| ZkPolynomials.TermsSum | zk_implementation/src/lib.rs:15-21 | the sum of the first n terms is the value at x of the first n coefficients |
| ZkPolynomials.Evaluate | zk_implementation/src/lib.rs:15-21 | the sum of the terms is the value of the polynomial at x |
| ZkPolynomials.Degree | zk_implementation/src/lib.rs:23-25 | the degree is one less than the number of coefficients, and needs at least one |
| ZkPolynomials.ScalarMul | zk_implementation/src/lib.rs:48-50 | scaling keeps the number of coefficients |
| ZkPolynomials.EvalScalarMul | zk_implementation/src/lib.rs:48-50 | the scaled polynomial's value at every point is the value times y |
| ZkPolynomials.AddPoly | zk_implementation/src/lib.rs:110-131 | the sum's coefficients are the padded coefficient-wise sum of the operands, whichever is longer |
| ZkPolynomials.MulPoly | zk_implementation/src/lib.rs:76-92 | the product's coefficients are the convolution of the operands' |
| ZkPolynomials.SumPolynomials | zk_implementation/src/lib.rs:53-59 | the fold of `Add` from [0] has at least one coefficient |
| ZkPolynomials.SumPolynomialsIsSum | zk_implementation/src/lib.rs:53-59 | the fold is the running padded sum of the coefficient vectors and evaluates to the sum of the values |
| ZkPolynomials.ProductPolynomials | zk_implementation/src/lib.rs:95-108 | the fold of `Mul` from [1] has at least one coefficient |
| ZkPolynomials.Others | zk_implementation/src/lib.rs:36-38 | the points other than x, no more of them than the set has |
| ZkPolynomials.ProductIsNumerator | zk_implementation/src/lib.rs:36-40 | the product of the factors (X − x_n) is the Lagrange numerator of x |
| ZkPolynomials.BasisAt | zk_implementation/src/lib.rs:34-46 | the basis has as many coefficients as the numerator |
| ZkPolynomials.BasisAtEval | zk_implementation/src/lib.rs:34-46 | the basis of x is 1 at x and 0 at every other point of the set |
| ZkPolynomials.ScaledBasis | zk_implementation/src/lib.rs:30 | the basis of x scaled by y is the basis term of the reference interpolation |
| ZkPolynomials.Interpolate | zk_implementation/src/lib.rs:27-32 | the interpolation has at least one coefficient |
| ZkPolynomials.InterpolateIsInterp | zk_implementation/src/lib.rs:27-32 | `interpolate` is the reference Lagrange interpolation of as many samples as the shorter of xs and ys holds, `zip` dropping the unpaired tail |
| ZkPolynomials.InterpolateEval | zk_implementation/src/lib.rs:27-32 | through distinct points, the interpolation takes y_m at x_m for every paired sample and 0 at points left without a y |
| ZkPolynomials.InterpolateUnique | zk_implementation/src/lib.rs:27-32 | through distinct points, the interpolation agrees everywhere with any polynomial with no more coefficients than there are xs through the samples |
| ZkPolynomials.DegreeAndEvaluateExample | zk_implementation/tests/test.rs:26-45 | 1 + 2x + 3x² has degree 2 and value 34 at 3 |
| ZkPolynomials.AddExample | zk_implementation/tests/test.rs:47-64 | (1 + 2x + 3x²) + (3 + 4x + 5x¹¹) is 4 + 6x + 3x² + 5x¹¹ |
| ZkPolynomials.InterpolateExample | zk_implementation/tests/test.rs:84-94 | through (2, 4) and (4, 8) the interpolation is 2x |
| ShamirSecretSharing.SharingCoefficients | sharmir_secret_sharing/src/shamir_secret_sharing.rs:13-14 | `shares` builds threshold − 1 coefficients, the first being the secret when there is one |
| ShamirSecretSharing.IntendedCoefficients | sharmir_secret_sharing/src/shamir_secret_sharing.rs:13-14 | the corrected scheme builds threshold coefficients, the first being the secret |
| ShamirSecretSharing.SharesOf | sharmir_secret_sharing/src/shamir_secret_sharing.rs:16-21 | one share per index 1..number_shares |
| ShamirSecretSharing.Shares | sharmir_secret_sharing/src/shamir_secret_sharing.rs:11-22 | `shares` as written returns number_shares shares |
| ShamirSecretSharing.IntendedShares | sharmir_secret_sharing/src/shamir_secret_sharing.rs:11-22 | the corrected `shares` returns number_shares shares |
| ShamirSecretSharing.Xs | sharmir_secret_sharing/src/shamir_secret_sharing.rs:25 | the first column of the shares, in order |
| ShamirSecretSharing.Ys | sharmir_secret_sharing/src/shamir_secret_sharing.rs:25 | the second column of the shares, in order |
| ShamirSecretSharing.EvalAtZero | sharmir_secret_sharing/src/utility.rs:44-50 | a polynomial's value at 0 is its constant coefficient |
| ShamirSecretSharing.RecoverFromShares | sharmir_secret_sharing/src/shamir_secret_sharing.rs:24-29 | shares with distinct x's on a polynomial of at most as many coefficients as shares recover its constant term |
| ShamirSecretSharing.SharesOfFacts | sharmir_secret_sharing/src/shamir_secret_sharing.rs:16-21 | below the modulus the x's 1..n are distinct, share i has x = i + 1, and every share lies on the polynomial |
| ShamirSecretSharing.RecoverShares | sharmir_secret_sharing/src/shamir_secret_sharing.rs:11-29 | as written, with threshold ≥ 2, any threshold − 1 or more shares recover the secret |
| ShamirSecretSharing.ThresholdOneLosesSecret | sharmir_secret_sharing/src/shamir_secret_sharing.rs:13 | as written, threshold 1 builds no coefficients: every share is 0 and so is the recovered value |
| ShamirSecretSharing.FewerSharesThanThreshold | sharmir_secret_sharing/src/shamir_secret_sharing.rs:13 | as written, with threshold 4 three shares already recover the secret |
| ShamirSecretSharing.RecoverIntendedShares | sharmir_secret_sharing/tests/test_shamir.rs:3-17 | corrected scheme: threshold or more shares recover the secret |
| DensedUniPoly.DegreeExample | gkr/tests/densed_uni_p_test.rs:19-23 | 2x² + 3x⁷ has degree 7 |
| DensedUniPoly.EvaluateExample | gkr/tests/densed_uni_p_test.rs:25-42 | 2x² + 3x⁷ at 2 is 392 |
| DensedUniPoly.AddExample | gkr/tests/densed_uni_p_test.rs:44-53 | (5 + 2x + 5x²) + (2 + x + 8x² + 10x³) is 7 + 3x + 13x² + 10x³ |
| DensedUniPoly.MultiplyExample | gkr/tests/densed_uni_p_test.rs:55-64 | (5 + 2x²)(6 + 2x) is 30 + 10x + 12x² + 4x³; the same vectors are the zk crate's product test |
| DensedUniPoly.InterpolateExample | gkr/tests/densed_uni_p_test.rs:66-75 | through (0, 2), (1, 4), (2, 10) the interpolation is 2 + 2x² |
| MultilinearEV.TensorAddExample | gkr/tests/evaluation_form_test.rs:48-66 | the add tensor of [1, 2] and [3, 4] is [4, 5, 5, 6] |
| MultilinearEV.TensorMulExample | gkr/tests/evaluation_form_test.rs:68-89 | the mul tensor of [2, 3] and [4, 5] is [8, 10, 12, 15] |
| MleTheory.BindSecondExample | gkr/tests/evaluation_form_test.rs:12-15 | binding the second variable of [0, 0, 3, 8] at 2 gives [0, 13] |
| MleTheory.BindFirstExample | gkr/tests/evaluation_form_test.rs:8-11 | binding the first variable of [0, 0, 3, 8] at 6 gives [18, 48] |
| MleTheory.EvalPairExample | gkr/tests/evaluation_form_test.rs:17-21 | [18, 48] at 2 is 78 |
| Field.InvCorrect | sharmir_secret_sharing/src/utility.rs:69 | the extended-Euclid coefficient of a non-zero element, reduced, is its inverse |
| UniTheory.Interp | gkr/src/gkr_sumcheck_dependencies/densed_uni_poly.rs:44-65 | the reference Lagrange interpolation is the sum of the scaled bases, at least one coefficient long |
| UniTheory.InterpLength | gkr/src/gkr_sumcheck_dependencies/densed_uni_poly.rs:44-65 | through distinct points every basis, and so the interpolant, has one coefficient per point |

## Left out

- The field is fixed to the prime 65537. The Rust code is generic over
  `PrimeField`, and its tests use the BN254 base field. Every proof uses only that
  P is prime, but the constants in the example lemmas are values modulo 65537.
- Keccak-256 (`sha3`) is the parameter `hash` of the transcripts. Properties
  that depend on the hash being unpredictable (soundness, detection of
  a tampered proof) are out of reach and are not stated. Only completeness
  and the deterministic rejection paths are proved.
- `Transcript::squeeze` (gkr/src/gkr_sumcheck_dependencies/transcript.rs)
  is not modelled. It reads the hasher without changing it, and no protocol calls it.
- The random coefficients that `shares` draws from `thread_rng` are a
  parameter. Randomness is not modelled.
- `fn main` and its `println!` (zk_implementation/src/main.rs:135-137) are
  I/O and are not modelled.
- `usize`/`u32` widths are unbounded integers. The exception is where the code
  depends on the width, in `from_str_radix(..).unwrap_or(0)` on positions of
  64 or more bits. Vector lengths near `usize::MAX` are not modelled.
- `convert_to_bytes` of `ProductPolynomial` and `SumPolynomial`
  (gkr/src/product_poly.rs, gkr/src/gkr_sumcheck_dependencies/poly_sum.rs)
  is not modelled, because no protocol absorbs a product or a sum
  polynomial. The byte encodings of evaluation tables and univariate
  polynomials are modelled.
- gkr/src/prover.rs imports `crate::utility::utils`, and that file is not part of
  this model. It is taken to behave as fiat_shamir/src/utility.rs, which
  `SumcheckUtility` models.
- gkr/src/layer.rs is not declared by gkr/src/lib.rs and cannot compile,
  so it is not modelled. gkr/tests/layer_tests.rs targets it. `Layers` models
  gkr/src/circuits/layer.rs.
- fiat_shamir/src/traits.rs (a trait declaration) and gkr/src/lib.rs (a
  module list) hold no behaviour. gkr/tests/gkr_sumcheck.rs is
  commented out.
- sharmir_secret_sharing/tests/test_utility.rs names functions that
  sharmir_secret_sharing/src/utility.rs does not define, so its vectors are not
  modelled.
- The test vectors of zk_implementation/src/main.rs:139-256 are those of
  zk_implementation/tests/test.rs, and the `ZkPolynomials` example lemmas state them.
- GkrCompleteness.ProveThenVerify: requires that no layer lists a gate
  twice. `add_i_and_mul_i_mle` writes a repeated gate's 1 once, while
  `evaluate` adds its value twice, so the prover's claim is then not the
  sum the sum-check proves. The model does not follow such circuits.
- Gkr.Prove: requires a layered circuit whose output layer has one or two
  values and whose layer j has 2^j values. These conditions are where
  `prove` does not panic, not a modelling choice. Three or more outputs
  need a layer-0 gate with output 2 or more. At width 0 that output is
  written as two digits, so the gate's position is at least 8, the size of
  layer 0's wiring tables, and the write into `add_i_values` or
  `mul_i_values` panics (gkr/src/circuits/circuit.rs:95-114). A layer j
  with fewer than 2^j values gives a W ⊗ W table with fewer variables
  than the wiring table, and the ProductPolynomial::new call of
  gkr/src/wb_bc_utility.rs:29-30 panics on the mismatch
  (gkr/src/product_poly.rs:15-21). Gate positions already keep every
  layer except the inputs at no more than 2^j values. That leaves one case.
  Let k be the number of input variables of the last layer. An input
  vector of more than 2^k values whose square stays below 2^(2k+1) passes
  that assertion, and the model does not follow it.
- Gkr.Verify: requires that `verify` returns, true or false, without
  panicking (`VerifyReturns`). It panics on a missing sum-check proof, on
  a missing W(r_b) or W(r_c) before the last layer, and on wiring or input
  tables too short for the number of challenges the rounds produced.
  Every other proof, including one with any number of rounds, is modelled.
- ZkPolynomials.InterpolateExample: states that the interpolation through
  (2, 4) and (4, 8) takes the value 2t at every t, rather than listing its
  coefficients.
- DensedUniPoly.InterpolateExample: states the interpolation test's result
  as equal values at every point, rather than as equal coefficient vectors.

## Findings

| source | as written | input that shows it | evidently intended | confidence | as-written member | corrected member |
|---|---|---|---|---|---|---|
| gkr/src/gkr_p.rs:161-169 | `verify` never checks how many round polynomials a layer's sum-check proof has; a proof with none passes its rounds with the claim unchanged | an adder circuit on inputs 1 and 2 (output 3), and the proof that the output is 0 whose only sum-check proof claims 0 and has no rounds: it is accepted whatever the hash | reject a layer proof without two rounds per input variable of the layer, which loses no honest proof | not executed | GkrCompleteness.ForgedOutputAccepted | GkrCompleteness.VerifyCounted, GkrCompleteness.ForgedOutputRejected, GkrCompleteness.CheckedComplete |
| sharmir_secret_sharing/src/shamir_secret_sharing.rs:13 | `shares` draws `threshold - 1` coefficients, the secret included, so the polynomial has degree `threshold - 2` | threshold 4 and 3 shares: the 3 shares recover the secret; threshold 1: the polynomial is empty and every share is 0 | `threshold` coefficients (degree `threshold - 1`), so that exactly `threshold` shares recover the secret | not executed | ShamirSecretSharing.RecoverShares, ShamirSecretSharing.ThresholdOneLosesSecret, ShamirSecretSharing.FewerSharesThanThreshold | ShamirSecretSharing.IntendedCoefficients, ShamirSecretSharing.IntendedShares, ShamirSecretSharing.RecoverIntendedShares |
