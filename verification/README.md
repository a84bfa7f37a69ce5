# AssetFare: verified model

This project models, in Dafny, the parts of AssetFare that decide whether money can be spent twice, whether a quote
can be replaced unnoticed, and whether a route is what it claims to be. Three connected components are covered.

**The caller-owned session runner and its wallet adapter** (`src/caller-runner.js`,
`src/standard-wallet-adapter.js`). `RunnerMachine` describes every effect of the runner as a labelled step over
memory, the state file, the wallet's records and the point of the program that the process has reached, with the flag
of its try block. A save copies memory to the file, a crash copies the file back and may come between any two steps,
and a call, a write or a check may fail wherever one is made. `RunnerInvariant` proves the invariant that all steps
keep, `RunnerStages` what each point of the program knows. From these, `RunnerSafety`, `RunnerHistory`, `RunnerCap`,
`RunnerOutcomes`, `RunnerResume`, `RunnerRestart`, `RunnerRevocation` and `RunnerAttempts` draw what holds of every
run;
`RunnerLimits` holds runs that show where the protections end, built from the steps of `RunnerSteps`.
The class `Runner.Runner` is the program itself: loops, saves, adapter and session calls with arbitrary replies, the
recovery in the catch block. Each of its methods proves that whatever happened is a run of the machine, so the
theorems about runs are theorems about it. It also keeps a log of what it asked of the clock, the disk, the adapter
and the session, and of every answer (`RunnerEvents`): its contracts say which questions are asked and in what order,
that the first wrong answer ends them, what is recorded of right answers, and that nothing but a wrong answer or a
stated limit makes an execution fail. The class `WalletAdapter.StandardWalletAdapter` does the same for the packaged
adapter, whose answers are inputs, and proves that it takes only the wallet steps that the machine allows.

**The canonical encodings and the quote binding** (`src/continuation-v3.js`). JSON values are binary64 patterns,
UTF-16 code units and members in insertion order. `TypedCanonical` and `TypedDecoding` show what equal typed bytes
mean, `CanonicalText` what equal canonical texts mean, `DecimalString` what the decimal normaliser keeps,
`Projection` what the hashed projection of a quote forgets, and `Continuation` puts these together: a continuation is
accepted for one quote only, and for a quote at given times only one continuation is. `ProjectionMeaning`,
`ContinuationMeaning` and `QuoteClaim` say what the projection, an accepted continuation or approval, and the claim
say, member by member and by name.

**The route summary validator and the route builder** (`src/direct-route-summary.js`,
`integrations/agenti/src/directRouteSummary.ts`). `RouteSummary` gives the validator as one pass with cursors and
proves it against a specification of valid quotes, `RouteMeaning` writes out the one quote that a definition and its
amounts admit, `RouteGuarantees` says what an accepted quote guarantees, `Routes`
covers the builder, with the way that every route takes, and `Scanner` the explicit-stack scanners. `RouteProjection` joins the validator to the hash
projection: on accepted quotes the projection replaces numbers by texts of the same value.

## Where the code departs from its documentation

- The documentation (README.md:403-412) says that the runner reserves the worst case of native spend before the first
  approval and checks the caller's caps before each submission. A recovery drops the abandoned approval's record and
  keeps the reserve (src/caller-runner.js:162), while the next attempt spends again. The ledger stays within the cap
  (`RunnerSafety.LedgerSafety`), the recorded spend does not: `RunnerLimits.SpendPassesCap`.
  `RunnerCap.SpendWithinCapIff` says exactly which runs keep the cap, `RunnerCap.RecoveryKeepsCapIff` what must hold
  before a revocation is sent so that nothing the process does can break it, and `RunnerSafety.SpendBound` bounds the
  excess. That condition is about the revocation's whole gas limit; a single run may fail it and stay within the cap,
  because the actual fee was lower: `RunnerLimits.GuardIsNotNecessary`.
- The reserve of a submission with an unknown outcome is meant to be kept. Whether a submission was attempted is
  remembered only by the running execution (src/caller-runner.js:130, 151), so a later execution releases the reserve
  when it fails before marking a request: `RunnerLimits.UnknownOutcomeReleased`.
  `RunnerOutcomes.SentReserveReleasedIff` says for every run that this is the only way.
- A revocation is meant to end its attempt. Until its record is saved (src/caller-runner.js:160-162) a stop lets the
  same attempt continue: `RunnerLimits.UnrecordedRevocationForgotten`. `RunnerRevocation.RevokedAttemptResumesIff` and
  `RunnerAttempts.RevokedAttemptContinuesIff` say exactly when it can; once the record is saved,
  `RunnerRevocation.RevokedAttemptOver` closes every operation of the attempt.
- These runs use a policy within all bounds of src/caller-runner.js:61-82 (`RunnerLimits.ValidPolicy`), and contain
  the calls that come before each submission and confirmation.
- The guard check after the loop of the validator (src/direct-route-summary.js:133) adds something only for
  definitions with guards whose last step has none: `RouteGuarantees.FinalGuardImpliedIff`. For the routes that the
  builder guards, it adds nothing.

## Assumptions

- An action id stands for one fixed list of requests and one optional approval (`RunnerState.Env`). The runner checks
  bindings again only for confirmed requests (src/caller-runner.js:134).
- In the runner a digest that is only compared is modelled by the value it digests. In `Continuation` SHA-256 is a
  parameter of which nothing is assumed; `ContinuationMeaning.IssuedFits` and `IssuedAccepted` take it to return 64
  hexadecimal digits.
- Calls for one operation id do not interleave: one process at a time works on a state file.
- The step of a handoff is the session's current step. The bundle's own workflow is checked to be at its step
  (scripts/plan.mjs:213), but the runner does not compare it with the session it belongs to.
- The text of a number (`CanonicalText.NumberTexts`), `Number(text)` on decimal texts, `toLowerCase`, `Date.parse`,
  the formats of ids and dates, and the route tables are parameters, with the properties
  stated where they are used; `CanonicalText.NumberTextsPossible` and `Projection.ProjectableQuote` show that the
  hypotheses about numbers and quotes can be met.
- Cloned JSON is a tree: no part of a quote is shared between two places.

## Model

| member | source | states |
|---|---|---|
| RunnerInvariant.MemoryStepKeeps | src/caller-runner.js:92-183 | every update keeps the invariant: requests in order and bound to their rows, charged reserves within the ledger and the cap, totals equal to the sums of what is recorded |
| RunnerInvariant.NextKeeps | src/caller-runner.js:88-236 | every step of the system, crashes included, keeps the invariant of memory, file, wallet and keys |
| RunnerInvariant.SpentWithinReserve | src/caller-runner.js:96-97 | an action never records more actual fee and value than its reserve, because each request stays within its own gas cap |
| RunnerStages.RunStageOk | src/caller-runner.js:125-166 | at every moment of every run: an execution works on one action, whose reserve is held in memory and on disk if it is an EVM action, no other action of its step has unobserved hashes, and a reserve that memory drops with nothing recorded is about to be written or is lost with the process |
| RunnerSafety.LedgerSafety | src/caller-runner.js:92-100 | at every moment, in memory and on disk, outstanding reserves <= evm_maximum_native_spend_wei <= the policy's cap |
| RunnerSafety.ReleaseNeverThrows | src/caller-runner.js:97 | on every state that keeps the invariant, neither check of releaseConfirmedEvmReserves can fail |
| RunnerSafety.ActualTotalCheckNeverFires | src/caller-runner.js:147 | on runs without a recovery the recorded spend stays within the ledger, so the check on the actual total never fires |
| RunnerSafety.SpendBound | src/caller-runner.js:153-162 | with r recoveries, recorded spend <= ledger + r times the cost of one recovery, and 2r <= the transaction cap |
| RunnerSafety.SpendBoundOverRuns | src/caller-runner.js:140-162 | the same bound on disk at every moment of every run, for the largest action |
| RunnerSafety.Conservation | src/caller-runner.js:144-162 | on disk the actual fee, protocol value, spend and transaction count are exactly the sums over live requests, recoveries and abandoned approvals; transactions never pass the policy's cap |
| RunnerSafety.SolanaAccounts | src/caller-runner.js:169-183 | on disk Solana fees are exactly the confirmed actuals and within the cap, each within its recorded maximum; recorded transactions within the count cap |
| RunnerCap.SpendWithinCapIff | src/caller-runner.js:146-162 | for every run and every moment: the native spend on disk is within the policy's cap if and only if no recovery that went over it, from what was spent before and what the revocation cost, was written; confirmations over the cap are never written |
| RunnerCap.RecoveryKeepsCapIff | src/caller-runner.js:153-162 | for every run that has prepared a revocation: whatever the rest of the process does, the file stays within the cap if and only if spend + recovery gas * fee cap fits the cap already, which a caller can check before sending it |
| RunnerOutcomes.FlagRemembers | src/caller-runner.js:130-151 | submissionAttempted is false when an execution begins, and at every later point of its try block it is true exactly if a request was marked since |
| RunnerOutcomes.ReleasedIff | src/caller-runner.js:149-152 | in the catch block of any run the reserve can be released if and only if nothing is recorded and no request was marked since this execution began |
| RunnerOutcomes.SentReserveReleasedIff | src/caller-runner.js:130-152 | for every run: a write drops the durable reserve of an action whose request was handed to the adapter, with nothing recorded, if and only if a later execution of it failed in the same process before marking a request; an execution that marked one keeps the reserve |
| RunnerResume.SubmissionNeedsRoom | src/caller-runner.js:125-147 | what a process submits first, when it executes only one action, is that action's next request, and then a request, a reserve or room for one, a transaction and room for an unconfirmed value were left in the loaded state |
| RunnerRestart.AttemptResumesIff | src/caller-runner.js:125-147 | after a stop at any moment of any run: the next process can submit an operation of an action on disk, before anything else, if and only if it is the next one of the attempt on disk and that much is left; the process is built step by step |
| RunnerRevocation.RevokedAttemptResumesIff | src/caller-runner.js:149-162 | a revocation was sent, and the process stops at any later moment: the next process can submit a further request of the revoked attempt if and only if the recovery is not on disk and there is room left for the request |
| RunnerAttempts.AttemptContinuesIff | src/caller-runner.js:125-147 | an attempt on disk holds its reserve when a process stops: some continuation, with any number of processes and any actions in between, submits a further request of it if and only if a request and a transaction are left, and room in the cap for a value that is still to be confirmed |
| RunnerAttempts.RevokedAttemptContinuesIff | src/caller-runner.js:149-162 | a revocation was sent, and a process stops later with the reserve still held: some continuation submits a request after the approval of the revoked attempt if and only if the recovery is not on disk and that much is left |
| RunnerRevocation.RevokedAttemptOver | src/caller-runner.js:133-162 | once the recovery is on disk, no operation of the revoked attempt is submitted in the rest of the run |
| RunnerLimits.SpendPassesCap | src/caller-runner.js:147-162 | under a policy that validatePolicy accepts, with a cap of 9: a run for every n that the transaction cap of 16 allows, in which n recoveries and 2n sent transactions leave 8n recorded as spent on disk, so the cap of the documentation is not kept |
| RunnerLimits.GuardIsNotNecessary | src/caller-runner.js:153-162 | a run in which a recovery is written although spend + recovery gas * fee cap is over the cap, and the file stays within it, because the revocation cost less than its limit |
| RunnerLimits.UnknownOutcomeReleased | src/caller-runner.js:130-152 | under the same policy: a run in which a transaction is with the wallet, its outcome is recorded as unknown, and the next process fails to prepare and releases the whole reserve |
| RunnerLimits.UnrecordedRevocationForgotten | src/caller-runner.js:143-162 | under the same policy: a run in which the approval, its revocation and then the swap of the same attempt are sent, in this order, because a crash came before the recovery was recorded |
| RunnerHistory.SubmittedNoMore | src/caller-runner.js:133-144 | once an operation's hash is durable, or its attempt is closed by a recorded recovery, no later step of the run submits that operation, whatever crashes lie between |
| RunnerHistory.RecordedNoMore | src/caller-runner.js:133-144 | in particular, once the file holds the record of a request, its operation is never submitted again |
| RunnerHistory.SentNoMore | src/caller-runner.js:133-144 | from then on the wallet is never handed another transaction for that operation |
| RunnerHistory.SendsIdentical | src/standard-wallet-adapter.js:35-36 | all transactions sent for one operation id carry the identical request, window, gas, gas price and nonce |
| RunnerHistory.StoreStep | src/standard-wallet-adapter.js:35-41 | no step of the system removes a prepared operation, changes its terms, or sends it once its hash is stored |
| RunnerHistory.HashedSendsNoMore | src/standard-wallet-adapter.js:36 | once the adapter has stored a hash the wallet is never handed that operation again over the rest of the run, and prepared terms never change |
| RunnerHistory.SentUnderReserve | src/caller-runner.js:128-144 | whenever an EVM request is submitted, the whole worst case of its action is reserved in the state file and counted in the ledger there |
| RunnerHistory.PendingNotBypassed | src/caller-runner.js:206-230 | when a step is refreshed, an execution for it begins or one of its requests is submitted, every action of that step with recorded hashes has been observed by the session, or has a further request in submission |
| RunnerHistory.RevokeFollowsApproval | src/caller-runner.js:150-160 | a revocation is only sent when the attempt's first request, the approval, is confirmed and nothing is recorded after it |
| RunnerHistory.KeysAreDurable | src/caller-runner.js:101 | the operation number in the key of every observe and refresh call is on disk before the call |
| RunnerHistory.ObservationKeys | src/caller-runner.js:211-219 | over a whole run with crashes, two observations carry the same key if and only if they observe the same action, or the same step's output |
| RunnerHistory.RefreshKeysUnique | src/caller-runner.js:227 | a refresh never shares its key with any other refresh or observation of the run |
| RunnerHistory.KeyTexts | src/caller-runner.js:101 | over a whole run with crashes, two session calls carry the same key text if and only if they are the same refresh, or observations of the same action or of the same step's output |
| OperationIds.OperationTextInjective | src/caller-runner.js:133-154 | different operations (action, attempt, request index or revocation) have different id texts, whatever characters action ids contain |
| OperationIds.KeyTextDetermines | src/caller-runner.js:101 | equal key texts have equal operation numbers, whatever kinds they were made for, even after cleaning and cutting |
| OperationIds.NameTextInjective | src/caller-runner.js:212-231 | different observations are kept under different names |
| OperationIds.TextsOf | src/caller-runner.js:38-133 | what the texts of operations, names and keys look like, on examples |
| OperationIds.KeyTextValidIff | src/caller-runner.js:101 | a key can be made if and only if it has 8 to 128 characters; authorization and kind, each cut to 72, can be too long together |
| Runner.Runner.LoadState | src/caller-runner.js:88-90 | a process starts from what is on disk |
| Runner.Runner.SaveState | src/caller-runner.js:91 | the file becomes memory when the write succeeds and stays as it was when it fails; the write is the one new event |
| Runner.Runner.ReleaseConfirmedEvmReserves | src/caller-runner.js:92-100 | the loop never throws; every releasable reserve is dropped and the total moves by exactly what the reserves exceeded the actual spend |
| Runner.Runner.ActionState | src/caller-runner.js:102 | the state gains the handoff's action if it was unknown and nothing else; a mismatch is reported |
| Runner.Runner.PrepareRequest | src/caller-runner.js:136-141 | succeeds if and only if the windows are open, the adapter answers for this operation, request and window within the gas and fee caps and with the exact maximum, and a transaction is left; a prepared request is within the caps and inside the window |
| Runner.Runner.SubmitRequest | src/caller-runner.js:136-144 | succeeds if and only if every answer was right and a transaction is left; the mark is written before the submission is asked for, and memory is, depending on how far the answers were right, unchanged, marked, or marked with exactly the answered hash and the prepared maximum on record |
| Runner.Runner.SubmitMarked | src/caller-runner.js:143-144 | the marked request is recorded with the answered hash if and only if the answer names its operation, binding and window, and succeeds if and only if that is also written |
| Runner.Runner.SendPrepared | src/caller-runner.js:142-144 | asks, in this order and up to the first wrong answer, for the write of the mark, the submission, and the write of the record |
| Runner.Runner.ConfirmRequest | src/caller-runner.js:146-147 | asks for the confirmation of the last recorded operation, binding, window and hash, at a cost within its recorded maximum: on an answer that names them memory becomes that with this fee confirmed, on any other it is unchanged; throws if and only if an answer was wrong or the spend is over the cap, and then the file stays as it was |
| Runner.Runner.SendRequests | src/caller-runner.js:131-149 | on success all rows of the action are recorded and confirmed, in order, every answer was right, and memory is durable if it was before; when every answer is right it fails only because no transaction is left or the spend is over the cap |
| Runner.Runner.PrepareRevocation | src/caller-runner.js:156-159 | succeeds if and only if the windows are open and the adapter answers for the revocation within the recovery gas and fee caps |
| Runner.Runner.RevokeApproval | src/caller-runner.js:153-162 | without room for a transaction nothing is asked; otherwise preparation, submission, confirmation of the answered hash with allowance zero at a cost within gas * fee, and the write are asked for up to the first wrong answer; the recovery is in memory if and only if the confirmation was right |
| Runner.Runner.SendRevocation | src/caller-runner.js:160-162 | the recovery is recorded with the answered hash and fee if and only if submission and confirmation, allowance included, were answered rightly |
| Runner.Runner.HandleFailure | src/caller-runner.js:149-165 | the reserve is released if and only if this execution marked no request and nothing is recorded; otherwise it is kept, an unanswered attempt is marked unknown, and an approval with no downstream request, and only that, is revoked; what is asked and recorded meanwhile is determined by the answers |
| Runner.Runner.ReserveAction | src/caller-runner.js:126-130 | succeeds if and only if the action is the recorded one, its worst case fits the policy alone and with what is reserved already, and the write succeeds; memory then holds exactly that reserve, and an action that holds one is not charged again |
| Runner.Runner.ExecuteEvm | src/caller-runner.js:125-166 | hashes are returned only for an action all of whose rows are recorded and confirmed, with its reserve settled, durably; when every answer is right it fails only because the reserve does not fit, no transaction is left, or the spend is over the cap |
| Runner.Runner.SubmitSolana | src/caller-runner.js:172-180 | succeeds if and only if every answer was right, the prepared maximum within what the policy leaves for Solana, and a transaction is left; the answered hash and the prepared maximum are recorded if and only if the submission was answered rightly |
| Runner.Runner.SubmitPrepared | src/caller-runner.js:178-179 | the answered hash is recorded if and only if the answer names the operation, construction and window, and succeeds if and only if that is also written |
| Runner.Runner.ConfirmSolana | src/caller-runner.js:181 | asks for the confirmation of the recorded operation, binding, window and hash at a fee within its maximum and what the policy leaves: confirmed with this fee on an answer that names them, unchanged on any other; succeeds if and only if that is also written |
| Runner.Runner.ExecuteSolana | src/caller-runner.js:169-183 | hashes are returned only for an action whose single transaction is recorded and confirmed durably; when every answer is right it fails only without a construction, for an id known as something else, or because no transaction is left |
| Runner.Runner.NextNumber | src/caller-runner.js:101 | the counter grows by one, is durable, and was never used before, when a key is returned; that is so if and only if the write succeeds and the key is neither too short nor too long |
| Runner.Runner.KeyFor | src/caller-runner.js:211-231 | a name that has a key keeps it; a new one gets the number just counted; succeeds if and only if the writes do and the key can be made, and then the table on disk has it |
| Runner.Runner.ObserveAction | src/caller-runner.js:231-233 | calls observe-source with a durable key; the action becomes observed if and only if the session accepts the hashes; throws if and only if a write or the key fails or the refusal is not one to be tried again |
| Runner.Runner.ObserveOutput | src/caller-runner.js:217-222 | calls observe-output with a durable key and touches no action and no total; throws if and only if the key or a write fails, or the call fails and the session, asked again, fails or still waits after a refusal that is not to be tried again |
| Runner.Runner.Refresh | src/caller-runner.js:227 | calls refresh with a fresh durable key, never while hashes of the step are pending, and returns the handoff of the answer; throws if and only if the key, its write or the call fails |
| Runner.Runner.ExecuteHandoff | src/caller-runner.js:229-234 | a handoff is checked before it is executed and its hashes reported; when every answer is right it fails only for a stated limit of the policy, an id known as something else, or a key that cannot be made |
| Runner.Runner.ExecuteStep | src/caller-runner.js:223-230 | an action that is ready and has the minimum time left is handed over at once, one that is ready with less is waited for, and a new one is asked for in every other case |
| Runner.Runner.FindPending | src/caller-runner.js:210 | finds a recorded but unobserved action of the step, or there is none |
| Runner.Runner.Cycle | src/caller-runner.js:200-234 | one turn of the loop: it completes if and only if the session is complete with at least the minimum output and that is written; pending hashes are reported before anything else, then an output is reported or the step goes on; when every answer is right it stops only for a state that is not known, a key that cannot be made or a limit of the policy |
| Runner.Runner.RunCallerOwnedSession | src/caller-runner.js:196-236 | one process from start to end: whatever the replies and failed writes, its effects extend the history by steps of the machine, so the theorems about runs hold of it; a completed state file is reported as complete without any call |
| Runner.Runner.Lifetimes | src/caller-runner.js:196-236 | the same for any number of processes one after the other |
| WalletAdapter.StandardWalletAdapter.PrepareEvm | src/standard-wallet-adapter.js:35-38 | succeeds if and only if the window is open, chain and account are right and, at the first time, the estimate with a quarter of headroom, rounded down for gas and up for the price, is within the caps and the record is written; that record fixes the terms, a repetition returns them or refuses a different request; refines the machine's prepare step |
| WalletAdapter.StandardWalletAdapter.PrepareSolana | src/standard-wallet-adapter.js:39 | the same for a construction, with the whole cap as the action's maximum and the blockhash that was answered |
| WalletAdapter.StandardWalletAdapter.Submit | src/standard-wallet-adapter.js:36-40 | a stored hash is returned again without a send; otherwise the stored terms are sent if and only if the window is open, a provider is there and the wallet accepts, and the hash is stored if and only if it arrives and the write succeeds; refines the machine's submit step, lost replies included |
| WalletAdapter.StandardWalletAdapter.ConfirmEvm | src/standard-wallet-adapter.js:37 | for every list of polls: confirmed if and only if the hash is on record for this request and window, some poll saw the successful receipt twice in one block at the required depth before any failed one, the allowance is zero if it was a revocation, and the record is written; the fee is that of the second receipt of the first such poll |
| WalletAdapter.StandardWalletAdapter.ConfirmSolana | src/standard-wallet-adapter.js:41 | confirmed if and only if the hash is on record, the first finalized answer did not fail and the record is written; it reports what the payer lost, or the charged fee if it lost nothing |
| Unicode.Utf8Strict | src/continuation-v3.js:241-244 | the index loop returns the UTF-8 bytes of exactly the well-formed UTF-16 strings (section 2 of RFC 2781) and refuses all others |
| Unicode.WellFormedIff | src/continuation-v3.js:241-244 | a string is the UTF-16 form of some text exactly when it has no lone surrogate |
| Unicode.StrictInjective | src/continuation-v3.js:241-244 | different well-formed strings have different UTF-8 bytes (section 3 of RFC 3629) |
| Unicode.FromToUtf8 | src/continuation-v3.js:241-244 | a decoder recovers every text from its UTF-8 bytes |
| Unicode.Utf8Order | src/continuation-v3.js:267 | comparing UTF-8 bytes is comparing code points (section 1 of RFC 3629) |
| Sorting.LessIsLexical | src/continuation-v3.js:267 | one sequence is before another if and only if it is smaller at the first difference, or ends there |
| Sorting.PrefixFirst | src/continuation-v3.js:267 | a key comes before every longer key that begins with it |
| Ordering.MembersAscend | src/continuation-v3.js:266-268 | the members of an ordered object are as many as the object has and come in that order of their keys, by UTF-8 bytes in the typed encoding and by code units in canonical text |
| Json.UnsafeIntegers | src/continuation-v3.js:254-255 | among binary64 patterns, the unsafe integers are exactly the finite ones whose exponent field reaches 2^53 |
| TypedCanonical.EncodeAccepts | src/continuation-v3.js:246-271 | the encoder accepts exactly finite numbers that are not unsafe integers, well-formed strings and keys, and arrays and objects of these |
| TypedCanonical.SameEncodesAlike | src/continuation-v3.js:263-268 | values equal up to the order of members have equal bytes or fail with the same error: insertion order does not matter |
| TypedDecoding.DecodeEncode | src/continuation-v3.js:246-271 | a decoder recovers the value, with its members in key order, from its bytes and leaves what follows |
| TypedDecoding.Recovered | src/continuation-v3.js:246-271 | every accepted value is recovered from its bytes followed by anything, up to the order of members |
| TypedDecoding.SelfDelimiting | src/continuation-v3.js:246-271 | if two encodings followed by anything give the same bytes, the values are equal and so is the rest: no encoding is a proper prefix of another |
| TypedDecoding.EncodingMeaning | src/continuation-v3.js:246-271 | two values encode alike if and only if they are equal JSON values up to member order, with types, number bits and the sign of zero kept |
| Projection.QuotePayloadV3Projection | src/continuation-v3.js:216-237 | the loop over the clone returns the projection exactly for the quotes with exact amounts and raw steps to put them on, and fails for all others |
| ProjectionMeaning.TopSays | src/continuation-v3.js:207-211 | the projection has no continuation_v3, and every member but intent and route is the quote's |
| ProjectionMeaning.IntentSays | src/continuation-v3.js:223-224 | its intent is the quote's, with expected_input_base of the first summary step as estimated_input_base |
| ProjectionMeaning.RouteSays | src/continuation-v3.js:225-227 | its route has input_base from the first summary step and both outputs from the last |
| ProjectionMeaning.RouteKeeps | src/continuation-v3.js:216-237 | and every other member of it but its steps is the quote's |
| ProjectionMeaning.StepSays | src/continuation-v3.js:228-236 | each raw step is the quote's, with the four exact amounts of its summary step, minimum_input_base as floor_input_base |
| Projection.ProjectionErases | src/continuation-v3.js:213-237 | two quotes project to equal values if and only if they are equal outside the continuation and the substituted paths |
| Projection.ProjectionIdempotent | src/continuation-v3.js:216-237 | a projection can be projected again, and that changes nothing |
| Projection.PayloadAccepts | src/continuation-v3.js:246-275 | the payload can be encoded if and only if everything outside the substituted paths can: unsafe integers in those paths do no harm |
| Projection.PayloadMeaning | src/continuation-v3.js:273-275 | two quotes have equal payload bytes if and only if they are equal up to member order outside the continuation and the substituted paths |
| CanonicalText.PrintUnique | src/continuation-v3.js:159-163 | compact JSON text is uniquely decodable: a value, up to the sign of zero, and what follows it are determined by the text |
| CanonicalText.ReadPrint | src/continuation-v3.js:159-163 | a reader of JSON text (RFC 8259) reads the printed text of every value back as that value, up to the sign of zero and non-finite numbers, and leaves what follows |
| CanonicalText.ShortEscapes | src/continuation-v3.js:159-163 | quotes, backslashes and five control characters have two-character escapes |
| CanonicalText.LongEscapes | src/continuation-v3.js:159-163 | other control characters and lone surrogates are written in lower-case hexadecimal, and everything else as it is |
| CanonicalText.CanonicalMeaning | src/continuation-v3.js:159-163 | two values have the same canonical text if and only if they are equal up to member order, the sign of zero and which non-finite number it is |
| CanonicalText.CanonicalBytesMeaning | src/continuation-v3.js:165-167 | canonical text is always well-formed UTF-16, so the same holds of the bytes that are hashed |
| DecimalString.AcceptedIff | src/continuation-v3.js:176 | a parser accepts exactly the texts of literals, so it reads the same language as the regular expression |
| DecimalString.ParseText | src/continuation-v3.js:176-181 | every literal is read back from its text: whole part, fraction, exponent and sign are unambiguous |
| DecimalString.PlacePoint | src/continuation-v3.js:182-186 | padding with zeros and placing the point writes the two sides of the coefficient around the shifted point, for every exponent |
| DecimalString.DecimalString | src/continuation-v3.js:173-192 | accepts exactly the literals and returns the text of a normal form that denotes the same rational number |
| DecimalString.NormalKeepsValue | src/continuation-v3.js:173-192 | the normal form has no exponent, no redundant zeros and no negative zero, and the value is unchanged |
| DecimalString.NormalUnique | src/continuation-v3.js:173-192 | two normal forms of one number are identical |
| DecimalString.SameNumberSameText | src/continuation-v3.js:173-192 | two literals denote the same number if and only if their outputs are the same text |
| DecimalString.NormalIdempotent | src/continuation-v3.js:173-192 | a normal form is accepted again and unchanged |
| Chains.ChainsOfMeaning | src/continuation-v3.js:194-201 | the required chains are exactly the chains of the endpoints, each once, in code unit order |
| Chains.RequiredWalletChains | src/continuation-v3.js:194-201 | the loop over a set followed by a sort gives that list |
| ContinuationMeaning.BeforeIff | src/continuation-v3.js:194-201 | the chain of an endpoint text is what stands before its first colon, or the whole text when it has none |
| ContinuationMeaning.RequiredChainsMeaning | src/continuation-v3.js:194-201 | a list is the required chains of some steps if and only if it is ascending and has exactly the chains of their `from` and `to` members |
| QuoteClaim.ClaimTextUnique | src/continuation-v3.js:317-320 | two claims with the same canonical text are the same claim, field by field |
| QuoteClaim.ClaimReads | src/continuation-v3.js:301-319 | the claim has 17 members, and these say which quote it is about and when it holds |
| QuoteClaim.ClaimHashesRead | src/continuation-v3.js:301-319 | its hashes by name |
| QuoteClaim.ClaimRestReads | src/continuation-v3.js:301-319 | its least output, chains, modes, counts and flags by name |
| QuoteClaim.ClaimPartsRead | src/continuation-v3.js:301-319 | its intent and its input bounds by name |
| Continuation.AcceptsExactly | src/continuation-v3.js:277-322 | a continuation is accepted if and only if it fits the schema, its times are consistent and it is, up to canonical equality, the one built for the quote at those times |
| Continuation.BuilderAccepted | src/continuation-v3.js:277-322 | what is built for a quote is accepted for it if and only if it fits the schema and the times are consistent |
| Continuation.OneContinuation | src/continuation-v3.js:277-322 | at given times two accepted continuations of one quote are the same up to canonical equality of the intent |
| Continuation.BindsQuote | src/continuation-v3.js:277-322 | two quotes that accept the same continuation are equal outside the continuation itself and the substituted paths, or their payloads are a collision of SHA-256 |
| Continuation.AmountFits | src/continuation-v3.js:48 | the claimed amount passes the schema's pattern if and only if the quoted amount is not negative, however it was written |
| ContinuationMeaning.AcceptedIff | src/continuation-v3.js:277-322 | a continuation is accepted if and only if it fits the schema, its times are 1000 * ttl_seconds apart and, where that matters, now is between them, and it repeats the quote's members by name: input of the first step, least output of the last, chains and signer of all, ids, counts, hashes, intent, and a claim that repeats all of it |
| ContinuationMeaning.RefusedFor | src/continuation-v3.js:277-321 | the error of a refusal is that of the first check that fails, in the order schema, quote, payload, hashes, times, type of an endpoint, binding, amount, claim |
| ContinuationMeaning.SignerMeaning | src/continuation-v3.js:203-205 | the signer is required if and only if some step has provider circle_cctp and a `from` that starts with "solana:", provided that every earlier one of that provider has a text there |
| ContinuationMeaning.CountMeaning | src/continuation-v3.js:288-299 | a number of the quote counts as n if and only if it is a JSON number, not negative, whose binary64 value is n |
| ContinuationMeaning.DecimalClaimMeaning | src/continuation-v3.js:302-307 | the claimed amount is the normal text of the very number in the quote |
| ContinuationMeaning.IssuedFits | src/continuation-v3.js:30-106 | the continuation built for a quote fits the schema if and only if the quote has an id, 1 to 60 seconds to live, 1 to 8 steps, an intent, an amount that is not negative, and no chain that is not served |
| ContinuationMeaning.IssuedAccepted | src/continuation-v3.js:277-322 | so what a server issues for a quote is accepted for it if and only if the quote is in order and the times are as far apart as it says |
| ContinuationMeaning.AmountOfDigits | src/continuation-v3.js:331 | the amount read from the text of a number is that number |
| ContinuationMeaning.PositiveDecimalIff | src/continuation-v3.js:30-106 | the amounts that the schemas admit are exactly the texts of positive numbers |
| ContinuationMeaning.ApprovalAcceptedIff | src/continuation-v3.js:324-334 | an approval is accepted if and only if it is well formed, in an allowed mode and the one asked for, about this continuation, within both of its bounds as numbers, and, where that matters, before its end |
| ContinuationMeaning.ApprovalRefusedFor | src/continuation-v3.js:324-333 | the error of a refused approval is that of the first check that fails |
| ContinuationMeaning.ApprovalWithinQuote | src/continuation-v3.js:324-334 | an accepted approval of an accepted continuation allows no more than the number in expected_input_base of the quote's first step and no less than the one in minimum_output_base of its last, is bound to the quote's id and hashes, and approves several steps only as a session |
| Scanner.Scan | src/direct-route-summary.js:24-43 | the explicit-stack loop accepts a value if and only if it has at most 2048 nodes, depth at most 20 and no refused key or claim anywhere, and it ends on every value |
| Scanner.Visit | src/caller-runner.js:40-44 | one popped node: refused exactly when one of its own members is; otherwise its children are pushed and nothing is lost |
| Scanner.IncludesIff | src/direct-route-summary.js:36 | a term is found in a key if and only if some part of the key spells it, with any underscores and hyphens inside |
| Scanner.RefusedIff | src/caller-runner.js:40-44 | a key is refused if and only if it contains such a spelling of a term, is one of an exact word, or is one of a claim whose value is not false |
| Scanner.RouteRefusedIff | src/direct-route-summary.js:24-43 | the refused keys of summaries and routes, word by word |
| Scanner.PublicRefusedIff | src/caller-runner.js:29-44 | the refused keys of states, handoffs and adapter answers, word by word |
| Routes.SplitIff | integrations/agenti/src/directRouteSummary.ts:216-220 | an endpoint text is accepted exactly when it is the text of one chain and one token, and then of only one |
| Routes.SplitGuard | integrations/agenti/src/directRouteSummary.ts:297-298 | for any number of steps the guards sum to exactly 50 basis points, differ by at most one, and larger ones come first |
| Routes.BuildDefinition | integrations/agenti/src/directRouteSummary.ts:222-306 | for endpoint texts that split, the built steps lead from the one endpoint to the other with total fee 1 if and only if the pair is composable; then the steps are exactly the legs of the itinerary, the mode is the one that says so, and the fee is on one known leg; each step has the provider for its tokens; guards are split exactly on Paxos ingress routes |
| Routes.ItineraryStraight | integrations/agenti/src/directRouteSummary.ts:222-306 | for every pair of endpoints the itinerary leaves no endpoint twice, except that a receipt stays where it is, and two swaps follow each other only between SOL and USDG through USDC on Solana: no route is a detour |
| Routes.CctpWay | integrations/agenti/src/directRouteSummary.ts:302-305 | over CCTP there is one bridge and one swap for each side whose token is not USDC |
| Routes.EgressWay | integrations/agenti/src/directRouteSummary.ts:258-269 | from Robinhood every way crosses to Solana as USDG, and goes on as USDC unless USDG there is wanted |
| Routes.AcrossWay | integrations/agenti/src/directRouteSummary.ts:271-284 | over Across a chain other than Solana needs one bridge and a swap for ETH on either side |
| Routes.AcrossFromSolanaWay | integrations/agenti/src/directRouteSummary.ts:271-284 | from Solana the way goes over Base |
| Routes.IngressWay | integrations/agenti/src/directRouteSummary.ts:285-299 | over Paxos a chain other than Solana goes to Solana as USDC, to USDG there, and on |
| Routes.IngressFromSolanaWay | integrations/agenti/src/directRouteSummary.ts:285-299 | from Solana the way only changes to USDG first |
| Routes.AdmittedComposable | integrations/agenti/src/directRouteSummary.ts:222-306 | every pair that the schemas offer is composable |
| RouteSummary.CheckStep | src/direct-route-summary.js:94-131 | one turn of the loop fails exactly when the step, its key sets included, is not right given the steps before it, and moves the cumulative guard on |
| RouteSummary.CheckSteps | src/direct-route-summary.js:88-132 | the loop accepts exactly the step lists that are right at every position, and returns cursors, fee sum and fee index of the whole list |
| RouteSummary.ValidateDirectRouteSummary | src/direct-route-summary.js:79-136 | accepts exactly the quotes that pass the scan for key material and signing claims, have the exact key sets and are valid for their route's definition; an error names a check that fails, and one about a step is about the first step that is not right; returns the given summary unchanged if and only if the table numbers its steps by position |
| RouteMeaning.AcceptedSpelled | src/direct-route-summary.js:79-136 | a quote is valid if and only if it is safe and is, in every member that is looked at, the very quote that its definition, a list of amounts, the step with the fee and the presence of product metadata spell; the amounts are positive, chained, and within the guards |
| RouteMeaning.WhichDefinition | src/direct-route-summary.js:83-85 | a quote is accepted if and only if it is valid for the legacy definition of its route, or for the current one in a mode that the legacy table does not list |
| RouteMeaning.RawMeaning | src/direct-route-summary.js:57-77 | a raw step passes if and only if it reads as its definition and amounts say, with the members, finality, family and receipt of its provider |
| RouteMeaning.StepMeaning | src/direct-route-summary.js:94-113 | a summary step passes if and only if it reads as its definition and amounts say |
| RouteMeaning.CeilGuardMeaning | src/direct-route-summary.js:54-56 | an amount keeps a guard if and only if it is at least expected * (10000 - guard) / 10000 as a rational number, guards above the whole included |
| RouteMeaning.DeclaredGuard | src/direct-route-summary.js:86-88 | the guard that an accepted direct quote declares, in summary and route, is the sum of all steps' guards, and absent if and only if no step has one |
| RouteMeaning.WholeGuard | src/direct-route-summary.js:133 | the last minimum output of an accepted quote is within that sum of the last expected output |
| RouteMeaning.FinalGuardIsFinal | src/direct-route-summary.js:133 | the check after the loop is the one of `RouteGuarantees.FinalGuardImpliedIff` on the amounts of the steps |
| RouteGuarantees.CeilGuardIsCeiling | src/direct-route-summary.js:54-56 | the BigInt expression is the ceiling of expected * (10000 - guard) / 10000 for every amount and guard |
| RouteGuarantees.MinimumWithinExpected | src/direct-route-summary.js:113-121 | in an accepted quote minimum amounts are positive and never exceed expected ones, at the input and output of every step |
| RouteGuarantees.GuardedOutput | src/direct-route-summary.js:118-121 | each guarded step's minimum output keeps within the guards accumulated so far |
| RouteGuarantees.FeeCarriedOnce | src/direct-route-summary.js:126-134 | exactly one step of an accepted quote carries the fee, the one at the returned index and in the offer |
| RouteGuarantees.PathIsDefined | src/direct-route-summary.js:99-117 | an accepted quote's steps chain endpoint to endpoint and amount to amount from its source to its destination |
| RouteGuarantees.NumericValueKept | src/direct-route-summary.js:50-52 | where Number() is exact (amounts up to 2^53 - 1), accepted raw numbers are the exact amounts they duplicate |
| RouteGuarantees.FinalGuardImpliedIff | src/direct-route-summary.js:133 | the guard check after the loop is implied by those inside it if and only if there is no guard, the last step is guarded, or the guards give everything away |
| RouteGuarantees.AcceptedGuards | src/direct-route-summary.js:118-133 | the amounts of an accepted quote are among those that the previous theorem speaks of |
| RouteProjection.AcceptedProjectable | src/continuation-v3.js:216-222 | every quote that the route validator accepts can be projected for hashing |
| RouteProjection.ProjectionKeepsNumbers | src/continuation-v3.js:213-237 | in an accepted quote, at every path that the projection overwrites, it writes a positive decimal text, and the number there before was Number() of that text |
| RouteProjection.ProjectionKeepsValue | src/continuation-v3.js:213-237 | so where Number() is exact, below 2^53, the projection writes the very number that it replaces |

## Left out

- RunnerAttempts.AttemptContinuesIff: an attempt whose reserve is released before it goes on needs room for it again, which other actions may take or free; for such attempts `RunnerRestart.AttemptResumesIff` speaks only of what the next process submits first, while it executes only that action.
- RunnerLimits.SpendPassesCap: the parts of a policy that the model does not have (wallets, route, input bound, custody flags) are left out of `RunnerLimits.ValidPolicy`.
- RunnerMachine.Next: time is the sequence of replies; progress, polling intervals, sleeping and the wall clock between calls are not modelled.
- Runner.Runner.ExecuteHandoff: plan and bundle verification in validateHandoff is a guard with an arbitrary answer, besides the remaining lifetime and the handoff's step.
- Runner.Runner.LoadState: file modes, links, size limits and fsync are left out; only atomic durable replacement is kept, and a state file that does not parse or match the policy ends the process.
- Runner.Runner.ConfirmSolana: the last check against the policy's Solana cap comes before memory changes, in the code after it; the error then ends the process, and that memory is neither saved nor read again.
- Runner.Runner.PrepareRequest: the shape of answers (versions, handles, custody flags, patterns of hashes) is part of whether there is an answer.
- Runner.Runner.ExecuteSolana: with the packaged adapter each action's maximum is the whole cap, so nothing is claimed about routes with several Solana steps making progress.
- RunnerSafety.SolanaAccounts: fees that Solana charged for transactions that were never confirmed are not in the runner's totals, and so not in the model's.
- WalletAdapter.StandardWalletAdapter.Submit: transaction building, RPC transport and signatures are arbitrary replies.
- WalletAdapter.StandardWalletAdapter.ConfirmEvm: hashes are compared as they are; the code ignores the case of hexadecimal digits.
- OperationIds.OperationTextInjective: texts are sequences of Dafny characters; cutting at 72 counts characters, which differs from UTF-16 units for characters beyond the basic plane.
- DecimalString.DecimalString: exponents are unbounded; the engine's limit on string length (an exponent of many digits throws) is left out. Turning a number into text is a parameter.
- TypedCanonical.EncodeAccepts: values are JSON data; sparse arrays, accessors, symbols, class instances and extra properties on arrays, which the encoder refuses, cannot be written in the model.
- Projection.QuotePayloadV3Projection: an intent that is an array is refused at once; the code sets a property on it and lets the encoder refuse it. Truthy primitives as intent fail there with a type error, here with the same None as the other failures.
- Continuation.AcceptsExactly: schema fields with a single admitted value (versions, custody flags, session and idempotency descriptors) are not in the record, and unknown keys are refused by construction.
- Continuation.ValidateApproval: dates that do not parse cannot occur in an accepted continuation, and are not expired here.
- RouteSummary.ValidateDirectRouteSummary: records pair an object's key set with typed fields; the scanned JSON value is a separate field of the quote, not decoded into them. The raw guard key, whose value the code never reads, is absent. A definition without steps fails with an error value where the code fails with a type error.
- Scanner.Scan: the scanner of the agenti integration differs from this one only in its list, which is a parameter.
- Routes.BuildDefinition: for pairs that are not composable the contract says that the steps do not lead to the destination, not which steps they are.
- The policy, adapter and handoff field checks, agent cards, tool descriptions and HTTP, MCP and A2A plumbing are long conjunctions of constants and are left out.
- Economic guidance and capability validation, and the coinbase-agentkit copy of the route code, are left out.
- Local verification verdicts and progress callbacks are left out; nothing depends on them.
