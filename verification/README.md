# Watchtower core: models and proofs

The watchtower scans a chain, scores agents and is meant to act at most once per offence. These files model the parts of it that
carry state, arithmetic or an encoding, and prove what they are relied on for:

- identifiers: every id is a hash of canonical JSON, so the canonical text must forget key order and nothing else
  (`Json`, `JsonShape`, `Canonical`), and the risk report must not depend on the order in which signals arrive
  (`Sorting`, `Scoring`, `ScoringLaws`, `ScoringExact`), must say what it is meant to of them (`ReportMeaning`), and must be
  identified by its id (`ReportIds`);
- cursors: the identity poller (`Identity`) against a chain that grows and reorganises while polls overlap and die
  (`Reorgs`, `ExactStore`, `Orphans`), and the context sync's block windows (`Context`, with overlapping syncs in
  `SyncOverlap` and the counterparty histogram in `Counterparties`);
- load: retries inside a circuit breaker, over a whole outage (`Resilience`);
- at most once: the action executor and its ledger under overlapping batches and restarts
  (`Actions`, `BatchMeaning`, `Overlap`), and how often handlers are called (`HandlerCalls`);
- encodings: the DER codec and low-S arithmetic of the KMS signer (`Signatures`), the webhook signature header
  (`Webhook`), agent ids (`AgentIds`), lines of JSON in a file (`Ndjson`);
- files: evidence rotation and paged queries (`Store`, `StoreLaws`, `QueryMeaning`, `Utf8`), verification of a solver's evidence behind two
  lexical path checks (`Paths`, `EvidenceCheck`, and `Receipts` for receipts made from a manifest), and the transparency
  log (`Transparency`).

`Texts`, `Lists`, `Files` and `Options` hold what they share. Where the source mutates an object, the model is a class
whose methods are proved against functions, and the properties are proved of those functions and of runs built from them.

`dafny verify dfyconfig.toml` checks everything.

## What the proofs found

Where the code and its description differ, the models follow the code:

- Assigning to `__proto__` in `sortKeys` sets no property, so such a member is lost from the canonical text
  (`Canonical.ProtoMemberIsLost`); array-index keys come first in numeric order, which harms nothing.
- Reorganisations may reach one block further than confirmations and overlap together: no event is missed exactly up to
  depth `confirmations + overlapBlocks + 1`, or if a batch is so small that polls never leave `startBlock`
  (`Reorgs.MissesNothingExactly`). What is canonical at the moment a poll finishes is stored exactly if reorganisations
  stay within the confirmations, for one may come between the answer and the inserts (`Reorgs.AlwaysCurrentExactly`).
  Under the same condition, and only then, the store holds no rows of events that were reorganised away
  (`Orphans.NeverOrphansExactly`); nothing ever removes such rows (`Orphans.RowsStay`).
- `reset()` forgets the failures exactly if the breaker was not closed or had none (`Resilience.ResetForgetsExactly`); the
  kept ones count when the next failure comes (`Resilience.FailureAfterReset`).
- The ledger admits one reported success per receipt, but that does not make it one handler call. A handler is effectively
  called at most once per receipt exactly if batches do not overlap, no restart comes while a handler is running, and
  every handler is of one of the two types that the ledger records (`HandlerCalls.OneCallExactly`). Otherwise two
  overlapping batches both call it, a process that dies while awaiting leaves no trace of the call, and a call of any
  other type returns, is reported as failed and is made again.
- `type:ref` identifies an evidence link only where types hold no colon. The report is independent of arrival order exactly
  if links with one key, and links and signals that the locale compares as equal, are equal
  (`ScoringExact.ReportOrderFreeExactly`).
- Evidence verification compares path lists joined by commas. A manifest's list passes for another, comma-free one exactly
  if it names nothing, or it has a path with a comma and the parts of its sorted text are in order
  (`EvidenceCheck.ConfusableExactly`); one path with commas passes for any list of two or more
  (`EvidenceCheck.OnePathForMany`). Files are checked against the receipt's hashes, never the manifest's: on every host, a
  receipt is verified whatever hashes and sizes a manifest with its paths declares (`EvidenceCheck.OkDespiteManifest`), and
  the files meet the manifest exactly if it agrees with the receipt on both (`EvidenceCheck.OkMeetsManifestExactly`).
  Both callers in the repository (packages/watchtower-core/src/behavior/ingestReceipt.ts:74 and
  packages/watchtower-cli/src/cli.ts:328) make the receipt from that very manifest with `normalizeReceipt`, so this can
  happen to callers of the exported function only. For such receipts the list comparison always succeeds, and `ok` says
  that all of the manifest's artifacts hold (`Receipts.CheckManifest`). With the file root as run directory, only a path
  that normalises to nothing passes the second check (`Paths.AcceptedStaysInside`).
- A query with `limit` 0 returns a record if there is one left (`StoreLaws.LimitKept`). Once a day's first evidence file is full,
  every further record of the day gets a file of its own (`StoreLaws.TargetHasRoom`).
- Context syncs that see tip 0 first are forgotten. Each block is then counted once exactly if the first tip is positive,
  or it is the only one, or the second is `maxBlocks + 1` (`Context.EachBlockOnceExactly`): a lower one repeats block 0
  (`Context.RepeatsExactly`), and a first positive tip above it skips the blocks in between (`Context.SkipsExactly`). A
  window may hold `maxBlocks + 1` blocks, and at `fromBlock` 0 the prior window lies inside the current one
  (`Context.PriorWindow`). Nothing keeps two syncs of one agent apart: with positive tips, blocks are counted once in
  all runs exactly if they do not overlap (`SyncOverlap.CountedOnceExactly`).
- The DER parser takes more than DER, such as a wrong outer length (`Signatures.LaxInputIsAccepted`); what is then verified
  is what was returned exactly for canonical DER (`Signatures.VerifiedAsReturnedExactly`).
- A log line `null` makes `verifyLogFile` throw instead of counting an invalid leaf (`Transparency.NullLineThrows`), and so
  does a leaf with the right id whose signature the verifier throws on, but nothing else (`Transparency.LogThrowsExactly`).

## Model

| member | source | states |
|---|---|---|
| Json.PrintReads | packages/watchtower-core/src/utils/canonical.ts:7-9 | The printed text of any value reads back to it whatever delimited text follows: the printer is prefix-decodable, string escapes of RFC 8259 section 7 included |
| Json.PrintInjective | packages/watchtower-core/src/utils/canonical.ts:7-9 | Different values never print the same text |
| Json.PrintIsOneLine | packages/evidence-store/src/store.ts:201 | Printed values hold no control character, so a line break separates them |
| JsonShape.ArrShape | packages/watchtower-core/src/utils/canonical.ts:7-9 | An array is printed as its printed items joined by commas in brackets, without white space |
| JsonShape.ObjShape | packages/watchtower-core/src/utils/canonical.ts:7-9 | An object is printed as its members joined by commas in braces, keys and values joined by colons |
| JsonShape.EscapeIsShortest | packages/watchtower-core/src/utils/canonical.ts:7-9 | No text that reads as a code unit is shorter than the one printed for it, lone surrogates aside |
| Canonical.SortKeys | packages/watchtower-core/src/utils/canonical.ts:11-22 | The recursive loop, which sets the sorted keys one after the other on an object with JavaScript's property order, builds the canonical form |
| Canonical.CanonObject | packages/watchtower-core/src/utils/canonical.ts:14-19 | A canonical object has exactly the canonicalised members other than `__proto__`, in enumeration order |
| Canonical.MembersAscend | packages/watchtower-core/src/utils/canonical.ts:14-17 | Members of a canonical object: decimal texts below 2^32 - 1 first, by their number, then the others by the first code unit that differs |
| Canonical.CanonicalJsonIdentifies | packages/watchtower-core/src/utils/canonical.ts:3-22 | Two values have the same canonical text if and only if they are equal up to object-key order at every depth, `__proto__` members left aside |
| Canonical.CanonicalJsonForgetsOnlyKeyOrder | packages/watchtower-core/src/utils/canonical.ts:3-22 | Without `__proto__` members: same text if and only if equal up to key order |
| Canonical.ProtoMemberIsLost | packages/watchtower-core/src/utils/canonical.ts:17 | `{"__proto__":1}` and `{}` are different values with one canonical text |
| Canonical.CanonicalJsonReproduces | packages/watchtower-core/src/utils/canonical.ts:7-22 | Reading canonical text and canonicalising again gives the same text |
| ScoringExact.SortsOrderFree | packages/watchtower-core/src/utils/sort.ts:13-30 | `sortSignals` and `sortEvidence` give one result for all arrival orders if and only if what their comparators take as equal is equal |
| Sorting.SortOrderFree | packages/watchtower-core/src/utils/sort.ts:14-29 | The same for a stable sort under any consistent comparator |
| Identity.IdentityStore.InsertIdentityEvent | packages/watchtower-core/src/identity/identityStore.ts:35-62 | A row is added unless its id is there already, with owner and transaction in lower case and log index and the other columns as in the event; nothing else changes |
| Identity.KeyInjective | packages/watchtower-core/src/identity/identityStore.ts:41-43 | For colon-free transaction hashes two events have one text under the id's hash if and only if chain, transaction in lower case and log index agree |
| Identity.PollIdentityEvents | packages/watchtower-core/src/identity/identityPoller.ts:26-55 | One poll: range, rows and cursor afterwards, and nothing at all when it is skipped |
| Reorgs.UndisturbedPoll | packages/watchtower-core/src/identity/identityPoller.ts:26-55 | The poll's steps in the transition system, one for each await, do to rows and cursor what the method promises |
| Reorgs.NoEventMissed | packages/watchtower-core/src/identity/identityPoller.ts:14-53 | In every run with growth, overlapping and dying polls and reorganisations of depth at most confirmations + overlap + 1: right after a poll every event up to the cursor that was canonical when the source answered is stored, and at all times every canonical one up to the settled bound |
| Reorgs.CanonicalNow | packages/watchtower-core/src/identity/identityPoller.ts:46-52 | Where nothing up to the new cursor was rewritten since the answer, a finished poll leaves every canonical event up to it stored |
| Reorgs.MissesNothingExactly | packages/watchtower-core/src/identity/identityPoller.ts:29-52 | This holds for all runs if and only if reorganisations go no deeper than confirmations + overlap + 1, or batchSize <= overlapBlocks + 1 |
| Reorgs.DeeperReorgLosesEvent | packages/watchtower-core/src/identity/identityPoller.ts:29-35 | For every deeper depth, every startBlock and every batch of at least overlapBlocks + 2 there is a run after which any given event of block startBlock is canonical, below the cursor and missing |
| Reorgs.LostIsMissing | packages/watchtower-core/src/identity/identityPoller.ts:29-35 | The event of that run is below the cursor and has no row |
| Reorgs.AlwaysCurrentExactly | packages/watchtower-core/src/identity/identityPoller.ts:46-52 | What is canonical at the moment a poll finishes is stored up to its cursor, in all runs, if and only if reorganisations stay within the confirmations (or batchSize is 0) |
| ExactStore.StoreIsExact | packages/watchtower-core/src/identity/identityPoller.ts:46-52 | If event ids are distinct on every chain that is ever canonical, reorganisations stay within the confirmations, polls do not overlap and a batch outreaches the overlap: at all times the rows are the canonical events from startBlock on, each once and in chain order, up to the cursor at least and the safe head at most; they end at the cursor right after every finished poll, and always where no poll dies; the cursor never decreases |
| ExactStore.RowsHoldEvents | packages/watchtower-core/src/identity/identityStore.ts:41-61 | In the same runs the columns of the i-th row are those of the i-th canonical event |
| Orphans.NeverOrphansExactly | packages/watchtower-core/src/identity/identityPoller.ts:37-52 | In all runs, with overlapping and dying polls and batches of any size, every row is that of an event canonical now, if and only if reorganisations stay within the confirmations (or batchSize is 0) |
| Orphans.OrphanAppears | packages/watchtower-core/src/identity/identityPoller.ts:46-52 | For every deeper reorganisation and any event there is a run after which its row is stored and no block of the chain holds an event |
| Orphans.RowsStay | packages/watchtower-core/src/identity/identityStore.ts:35-62 | No run ever removes or changes a row |
| Identity.PollsReachSafeHead | packages/watchtower-core/src/identity/identityPoller.ts:37-42 | With a fixed head, each poll shrinks the distance to head - confirmations, and that many polls reach it |
| Identity.ProgressNeedsTwoMore | packages/watchtower-core/src/identity/identityPoller.ts:29-40 | Every poll with a cursor behind the safe head, itself not below startBlock, advances if and only if batchSize >= overlapBlocks + 2 |
| Identity.MonotonicityNeedsOneMore | packages/watchtower-core/src/identity/identityPoller.ts:29-40 | No poll moves the cursor back if and only if batchSize >= overlapBlocks + 1 |
| Resilience.DelayInBand | packages/resilience/src/index.ts:51-67 | Each delay is within the jitter band of min(base * 2^attempt, max), rounded down, and not negative |
| Resilience.CappedDoubles | packages/resilience/src/index.ts:57-61 | The delay before jitter starts at the base and doubles until it meets the cap |
| Resilience.DelayFollowsDraw | packages/resilience/src/index.ts:63-66 | Up to rounding down, the delay is the point of its band that the random draw picks: the lower end for 0, the middle for one half |
| Resilience.WithRetry | packages/resilience/src/index.ts:124-178 | Attempts are one plus the index of the first success, first non-retryable error or maxRetries; the result is that attempt's, and the total delay is the sum of the delays before it |
| Resilience.TotalDelayBounded | packages/resilience/src/index.ts:57-66 | n delays sum to at most 1 + jitterFactor times the capped geometric sum |
| Resilience.CappedSumGeometric | packages/resilience/src/index.ts:57-61 | The capped sum is below base * (2^n - 1) |
| Resilience.CappedSumLinear | packages/resilience/src/index.ts:61 | The capped sum is below n times the cap |
| Resilience.CircuitBreaker.IsAllowed | packages/resilience/src/index.ts:277-293 | Admission and the new state, for every state and clock |
| Resilience.CircuitBreaker.RecordSuccess | packages/resilience/src/index.ts:309-319 | The new state after a success |
| Resilience.CircuitBreaker.RecordFailure | packages/resilience/src/index.ts:324-338 | The new state after a failure, counted or not |
| Resilience.CircuitBreaker.Reset | packages/resilience/src/index.ts:343-363 | The new state after a manual reset |
| Resilience.ClosedBelowThreshold | packages/resilience/src/index.ts:277-363 | After every history, late completions included: closed if and only if failures < failureThreshold |
| Resilience.ClosedBelowThresholdExactly | packages/resilience/src/index.ts:335 | This equivalence holds for all histories if and only if the threshold is positive |
| Resilience.HalfOpenBelowSuccesses | packages/resilience/src/index.ts:309-314 | With a positive successThreshold, half-open implies successes < successThreshold |
| Resilience.HalfOpenBelowSuccessesExactly | packages/resilience/src/index.ts:282-314 | This holds for all histories if and only if successThreshold is positive |
| Resilience.FailuresAreTheRun | packages/resilience/src/index.ts:315-336 | In every state, failures is the number of counted failures since the last success of a closed breaker or the last close |
| Resilience.SuccessesAreTheTrials | packages/resilience/src/index.ts:309-362 | In half-open, successes is the number of successes since the event that last made the breaker half-open |
| Resilience.SuccessesClose | packages/resilience/src/index.ts:309-314 | k further successes close a half-open breaker if and only if together with those since it became half-open they reach successThreshold |
| Resilience.FailureEndsTrials | packages/resilience/src/index.ts:324-338 | A counted failure opens a half-open breaker; one that is not counted changes nothing in any state |
| Resilience.OpenAdmitsAfterTimeout | packages/resilience/src/index.ts:282-289 | Open admits a call if and only if resetTimeoutMs have passed since the last counted failure of the history |
| Resilience.ResetForgetsNothingWhenClosed | packages/resilience/src/index.ts:343-350 | One failure short of the threshold, a reset does not keep the next failure from opening the breaker |
| Resilience.ResetForgetsExactly | packages/resilience/src/index.ts:343-363 | After every history a reset leaves no failures if and only if the breaker was not closed or had none |
| Resilience.FailureAfterReset | packages/resilience/src/index.ts:329-363 | The next counted failure after a reset opens the breaker if and only if it reaches the threshold on top of the failures that were not forgotten |
| Resilience.Resilient | packages/resilience/src/index.ts:419-451 | Breaker and retry loop composed: verdict, number of invocations and breaker state afterwards |
| Resilience.OutageSteps | packages/resilience/src/index.ts:277-338 | In an outage every admitted call is one more failure, the breaker is open from failureThreshold failures on, and from then on admitted calls start at least resetTimeoutMs after the end of the one before |
| Resilience.OutageLoadBound | packages/resilience/src/index.ts:419-451 | Admitted calls of at most maxRetries + 1 invocations each sum to at most (failureThreshold + floor(T / resetTimeoutMs)) * (maxRetries + 1), however many calls are made |
| Resilience.Endure | packages/resilience/src/index.ts:419-451 | Using a fresh wrapper again and again while the function fails takes the breaker through the outage of the lemmas, and the invocations the wrapper makes keep to that bound |
| Actions.PutSets | packages/core/src/state/actionLedger.ts:91-134 | Setting a key of the map keeps its old place or adds a last one, and leaves all other entries alone |
| Actions.LoadSaved | packages/core/src/state/actionLedger.ts:117-159 | Loading what was saved gives the ledger back, order included |
| Actions.ActionLedger.RecordAction | packages/core/src/state/actionLedger.ts:84-98 | Records and saves a new receipt; fails and changes nothing for a known one |
| Actions.ExecuteAction | packages/core/src/actions/actionExecutor.ts:122-186 | Result and ledger for one finding, in every branch |
| Actions.ExecuteActions | packages/core/src/actions/actionExecutor.ts:82-117 | Results and ledger of a batch that nothing interleaves with |
| BatchMeaning.ActionMeans | packages/core/src/actions/actionExecutor.ts:122-186 | A real success if and only if there is no dry run, a handler is there and returns, and the receipt is absent or can be recorded; then the transaction is reported and an entry with receipt, type, transaction, block, time and finding is added; dry runs succeed on paper only |
| BatchMeaning.BatchInOrder | packages/core/src/actions/actionExecutor.ts:82-117 | The ledger only grows, results come in the order of the findings, and none is about a finding that asks for nothing or was recorded before |
| BatchMeaning.BatchIsComplete | packages/core/src/actions/actionExecutor.ts:82-117 | Real successes stay within the limit; below it every finding has a result, asks for nothing or is recorded in the end |
| BatchMeaning.DryRunRehearses | packages/core/src/actions/actionExecutor.ts:126-136 | A dry run reports each finding that asks for something and is not recorded as done on paper, whatever the handlers, and leaves the ledger alone |
| Overlap.LoneBatch | packages/core/src/actions/actionExecutor.ts:82-186 | The moves of the interleaved system, taken by one batch alone, add up to the sequential method |
| Overlap.AtMostOneSuccessPerReceipt | packages/core/src/actions/actionExecutor.ts:101-173 | Under every interleaving of batches and every restart: at most one real success per lower-cased receipt, none for one already recorded, each in the saved file with its own transaction |
| Overlap.BatchesWithinLimit | packages/core/src/actions/actionExecutor.ts:84-113 | No batch produces more real successes than maxActionsPerBatch, whatever runs beside it |
| HandlerCalls.NoCallOnceRecorded | packages/core/src/actions/actionExecutor.ts:101-105 | A receipt in the ledger leads to no further handler call, restarts included |
| HandlerCalls.OneCallExactly | packages/core/src/actions/actionExecutor.ts:101-173 | Each receipt has at most one handler call that did not throw, in all runs, if and only if no handler can be called at all, or batches do not overlap, no restart cuts a running handler off and every handler is of a type that the ledger records |
| HandlerCalls.OverlappingBatchesCallTwice | packages/core/src/actions/actionExecutor.ts:102-154 | Two overlapping batches call the handler twice for one receipt; the first return is a success, the second is reported as failed |
| HandlerCalls.RestartCallsTwice | packages/core/src/actions/actionExecutor.ts:154-165 | A lone batch calls twice across a restart that comes before the first call returns; no result is ever produced |
| HandlerCalls.UnmappedCallsTwice | packages/core/src/actions/actionExecutor.ts:154-200 | A handler of a type the ledger does not know returns, is reported as failed, leaves the ledger empty and is called again, without overlap or cut-off calls |
| Scoring.DedupeEvidence | packages/watchtower-core/src/scoring/scoreAgent.ts:142-153 | The loop keeps the first link of each key |
| Scoring.AccumulateRisk | packages/watchtower-core/src/scoring/scoreAgent.ts:19-30 | The loop computes the capped risk and whether a signal is critical |
| Scoring.CollectReasons | packages/watchtower-core/src/scoring/scoreAgent.ts:43-51 | The sorted set of reasons |
| Scoring.ScoreAgent | packages/watchtower-core/src/scoring/scoreAgent.ts:12-140 | Report and alerts, id and every branch included |
| ReportMeaning.RiskMeans | packages/watchtower-core/src/scoring/scoreAgent.ts:19-30 | The risk is 100 with a critical signal or if the weights of low, medium and high signals times 5, 15 and 30 sum to at least 99.5, and otherwise the integer nearest to that sum |
| ReportMeaning.FullWeights | packages/watchtower-core/src/scoring/scoreAgent.ts:4-30 | With weights 1 and no critical signal it is min(100, 5 * low + 15 * medium + 30 * high) |
| ReportMeaning.AlertsMean | packages/watchtower-core/src/scoring/scoreAgent.ts:80-137 | One alert for a critical signal, or else HIGH_RISK_SCORE if and only if the sum is at least 79.5, or else none |
| ReportMeaning.AlertEvidence | packages/watchtower-core/src/scoring/scoreAgent.ts:81-133 | The alert shows the evidence of the critical signals, in order, or else the report's |
| ReportMeaning.AlertTexts | packages/watchtower-core/src/scoring/scoreAgent.ts:105-134 | The alert's text names the agent and the report's risk |
| ReportMeaning.ConfidenceMeans | packages/watchtower-core/src/scoring/scoreAgent.ts:32-41 | High confidence if and only if there are five signals and two snapshot ids, low if and only if there is one signal at most |
| ReportMeaning.ReasonsMean | packages/watchtower-core/src/scoring/scoreAgent.ts:43-51 | The reasons are those of the signals and of a critical one, each once, ascending by code units |
| ReportMeaning.LinksMean | packages/watchtower-core/src/scoring/scoreAgent.ts:53-58 | The links are links of signals, sorted, one for every `type:ref` that occurs |
| ReportMeaning.SummariesMean | packages/watchtower-core/src/scoring/scoreAgent.ts:60-65 | The report lists every signal, the most severe first, those of one severity by id |
| ReportIds.ReportIdIdentifies | packages/watchtower-core/src/scoring/scoreAgent.ts:67-84 | With an injective hash two reports have one id if and only if they say the same, the time aside |
| ReportIds.AlertIdIdentifies | packages/watchtower-core/src/scoring/scoreAgent.ts:90-121 | Two alerts have one id if and only if agent, severity, type and the references of their first five links agree |
| ScoringLaws.ReportIgnoresArrivalOrder | packages/watchtower-core/src/scoring/scoreAgent.ts:12-153 | Report, report id and alerts are the same for every order of snapshots, of signals within them and of evidence within these, wherever comparator and key tell different links apart |
| ScoringLaws.AntisymmetricDiscerns | packages/watchtower-core/src/scoring/scoreAgent.ts:146 | An antisymmetric comparator and colon-free evidence types suffice for that |
| ScoringLaws.DedupeOrderFreeExactly | packages/watchtower-core/src/scoring/scoreAgent.ts:142-153 | The surviving links are independent of arrival order if and only if equal keys mean equal links |
| ScoringLaws.ColonFreeKeysSeparate | packages/watchtower-core/src/scoring/scoreAgent.ts:146 | With colon-free types the key identifies the link |
| ScoringLaws.ClashingLinksDependOnOrder | packages/watchtower-core/src/scoring/scoreAgent.ts:146-149 | Of two links with one key the report shows the one that arrives first |
| ScoringLaws.LinksClash | packages/watchtower-core/src/scoring/scoreAgent.ts:146 | With a colon in a type there are different links with one key |
| ScoringExact.ReportOrderFreeExactly | packages/watchtower-core/src/scoring/scoreAgent.ts:12-153 | Report and alerts are the same for every rearrangement of the input if and only if equal keys mean equal links, and links and summaries that compare equal are equal |
| ScoringLaws.ReportGrows | packages/watchtower-core/src/scoring/scoreAgent.ts:19-58 | With non-negative weights and separate keys, adding signals lowers neither overallRisk nor confidence and removes no reason and no evidence link |
| Signatures.Bytes32Value | packages/signers/src/gcpKmsSigner.ts:174-175 | Hex text padded to 64 digits turns every integer below 2^256 into 32 bytes of that value |
| Signatures.ParseDerSignature | packages/signers/src/gcpKmsSigner.ts:302-323 | Reading at an advancing offset agrees with the field layout: both tags and both lengths must be there and both integers have a byte, the outer length and what follows are not looked at |
| Signatures.LaxInputIsAccepted | packages/signers/src/gcpKmsSigner.ts:302-323 | A sequence of wrong length with a truncated s is accepted, and verified as other bytes than those returned |
| Signatures.ParseIsLax | packages/signers/src/gcpKmsSigner.ts:302-323 | Whatever the outer length, bytes after s are ignored, and an s shorter than declared is taken as it is |
| Signatures.Asn1Integer | packages/signers/src/gcpKmsSigner.ts:332-340 | The loop drops the leading zeros and one is put back before a high bit |
| Signatures.EncodeDerSignature | packages/signers/src/gcpKmsSigner.ts:325-330 | The two INTEGERs in one SEQUENCE, each with its tag and length octet |
| Signatures.CanonicalParses | packages/signers/src/gcpKmsSigner.ts:302-323 | Every canonical DER signature is accepted |
| Signatures.ParseEncode | packages/signers/src/gcpKmsSigner.ts:302-340 | Parsing an encoding returns the values of its two integers |
| Signatures.EncodeIsCanonical | packages/signers/src/gcpKmsSigner.ts:325-340 | Encodings are canonical DER: minimal integers, every length in short form (sections 8.3 and 10.1 of ITU-T X.690) |
| Signatures.EncodeParse | packages/signers/src/gcpKmsSigner.ts:221-223 | Encoding the parse of any canonical signature with values below 2^256 returns the original bytes |
| Signatures.CanonicalUnique | packages/signers/src/gcpKmsSigner.ts:302-323 | Two canonical signatures with the same parse are the same bytes |
| Signatures.LowS | packages/signers/src/gcpKmsSigner.ts:197-219 | For 0 < s < N the normalised s is in [1, N/2], normalising again changes nothing, and the value rebuilt for verification is the raw s |
| Signatures.LowSIdentifies | packages/signers/src/gcpKmsSigner.ts:197-199 | Two raw values normalise to one s if and only if they are equal or sum to N |
| Signatures.VerifiedAsReturned | packages/signers/src/gcpKmsSigner.ts:194-223 | A canonical signature is verified as the very bytes that the KMS returned, flipped or not |
| Signatures.VerifiedIsCanonical | packages/signers/src/gcpKmsSigner.ts:194-223 | Whatever the lax parser let through, what is verified is canonical DER of the very integers that were parsed |
| Signatures.VerifiedAsReturnedExactly | packages/signers/src/gcpKmsSigner.ts:194-223 | For parsed values in the signer's range, what is verified is what was returned if and only if that was canonical DER |
| Signatures.SignHashLayout | packages/signers/src/gcpKmsSigner.ts:172-177 | The compact signature is 65 bytes: r and s at full width, then v - 27 |
| Signatures.SpkiRoundTrip | packages/signers/src/gcpKmsSigner.ts:342-356 | The key info built from a 65-byte key ends in that key, and every element's length octet covers its content |
| Paths.ValidMeaning | packages/watchtower-core/src/behavior/verifyEvidence.ts:46-61 | The first check accepts exactly the relative, NUL-free, non-empty paths whose normal form has no segment that starts with two dots or holds a backslash before two |
| Paths.SafeJoinIsContainment | packages/watchtower-core/src/behavior/verifyEvidence.ts:63-70 | The second check, which compares text, succeeds exactly when the base's segments are a prefix of the joined ones (or nothing is joined), and returns the joined path |
| Paths.FoldNormalized | packages/watchtower-core/src/behavior/verifyEvidence.ts:53-65 | The stack argument: below any base, a path and its normal form lead to the same place |
| Paths.AcceptedStaysInside | packages/watchtower-core/src/behavior/verifyEvidence.ts:46-70 | A path the first check accepts is joined as the base followed by the path's normal segments; this succeeds for every base but the file root |
| Paths.SafeJoinAccepts | packages/watchtower-core/src/behavior/verifyEvidence.ts:63-70 | On any relative path the second check succeeds if and only if the path, after its steps up, comes back down through the directories it left; at the file root, if and only if it goes nowhere |
| EvidenceCheck.VerifyEvidence | packages/watchtower-core/src/behavior/verifyEvidence.ts:74-291 | `ok` if and only if manifest hash, schema, size and path list hold and every delivered artifact exists inside the base with its size and hash within the limits; otherwise every artifact at fault is reported and every report is true; links in order |
| EvidenceCheck.ManifestCodes | packages/watchtower-core/src/behavior/verifyEvidence.ts:89-187 | What each code that ends the call at the manifest says of the file, and that nothing tested before it applies; no code if and only if the manifest holds |
| EvidenceCheck.LimitIsInclusive | packages/watchtower-core/src/behavior/verifyEvidence.ts:133-249 | A file holds under a limit of exactly its size, and not under one less |
| EvidenceCheck.CheckArtifact | packages/watchtower-core/src/behavior/verifyEvidence.ts:207-288 | No failure if and only if the artifact holds; size and hash are reported independently |
| EvidenceCheck.BuildResult | packages/watchtower-core/src/behavior/verifyEvidence.ts:293-309 | `ok` is the absence of failures, and sorting keeps them all and puts them in order of code and path |
| EvidenceCheck.MatchesExactly | packages/watchtower-core/src/behavior/verifyEvidence.ts:189-204 | For comma-free paths that the locale separates, the lists match if and only if they are rearrangements of each other, but for no artifact against one with an empty path |
| EvidenceCheck.CommaConfuses | packages/watchtower-core/src/behavior/verifyEvidence.ts:196-199 | With a comma in a path, a list of one path matches a list of two |
| EvidenceCheck.ConfusableExactly | packages/watchtower-core/src/behavior/verifyEvidence.ts:189-204 | For every list of artifacts: some comma-free list with other paths matches it if and only if it names nothing (no path, or one empty one), or one of its paths has a comma and its sorted, joined text splits into parts that are in order |
| EvidenceCheck.OnePathForMany | packages/watchtower-core/src/behavior/verifyEvidence.ts:189-204 | Every list of two artifacts or more matches one artifact whose path is the joined text |
| EvidenceCheck.OkPinsContents | packages/watchtower-core/src/behavior/verifyEvidence.ts:155-285 | With an injective hash, two successful verifications under one manifest hash saw the same manifest, and files delivered under one hash have the same contents |
| EvidenceCheck.FoundInside | packages/watchtower-core/src/behavior/verifyEvidence.ts:100-226 | Every file that is looked at lies in the run directory, where the normal form of its path says |
| EvidenceCheck.HeadLinksMean | packages/watchtower-core/src/behavior/verifyEvidence.ts:83-86 | Every result starts with the links of the receipt id and of the manifest's hash |
| EvidenceCheck.CodesAscend | packages/watchtower-core/src/behavior/verifyEvidence.ts:10-22 | The failure codes have different names, ascending in the order listed |
| EvidenceCheck.OkLinksAll | packages/watchtower-core/src/behavior/verifyEvidence.ts:287 | An `ok` links the hashes of all artifacts in delivery order |
| EvidenceCheck.OkMeetsManifestExactly | packages/watchtower-core/src/behavior/verifyEvidence.ts:189-285 | After an `ok`, the files have the hash and size that the manifest declares for the delivered paths if and only if receipt and manifest agree on them |
| EvidenceCheck.OkMeansDeclaredExactly | packages/watchtower-core/src/behavior/verifyEvidence.ts:189-285 | For comma-free paths that the locale separates, all of the manifest's artifacts hold if and only if they are the delivered ones |
| EvidenceCheck.OkDespiteManifest | packages/watchtower-core/src/behavior/verifyEvidence.ts:189-281 | On every host: a receipt of artifacts that hold is verified against any manifest that names its paths, and the manifest's own declarations hold if and only if they are the receipt's |
| EvidenceCheck.OkDespiteOtherHash | packages/watchtower-core/src/behavior/verifyEvidence.ts:196-281 | A host with a manifest and one file, whose hash is not the declared one: the receipt with the file's own hash is verified |
| Receipts.NormalizedHolds | packages/watchtower-core/src/integrations/solverReceiptV0.ts:72-105 | A normalised receipt names `evidence/manifest.json`, the hash given, and the manifest's artifacts in ascending order of their paths |
| Receipts.OwnListMatches | packages/watchtower-core/src/integrations/solverReceiptV0.ts:72-83 | The sorted list of a normalised receipt always matches the manifest's, commas or not |
| Receipts.CheckManifest | packages/watchtower-core/src/behavior/ingestReceipt.ts:41-83 | For a receipt made from the manifest read, with a consistent locale and a collision-free hash: `ok` if and only if it parses, is the very manifest in the run directory, and all the artifacts it declares hold |
| Ndjson.LinesReadBack | packages/evidence-store/src/store.ts:324-325 | Both ways of splitting a file into lines give back the lines appended |
| Store.EvidenceStore.GetRotatedFilePath | packages/evidence-store/src/store.ts:110-132 | The day's first file while it has room, or else the least free suffix; the search terminates |
| Store.SuffixesRunOut | packages/evidence-store/src/store.ts:123-129 | A directory of n files leaves a suffix up to n + 1 free, which is why the search ends |
| Store.EvidenceStore.WriteFinding | packages/evidence-store/src/store.ts:137-163 | Refused exactly when validation is on and fails, changing nothing; otherwise one line is appended to the target |
| Store.EvidenceStore.WriteActionResult | packages/evidence-store/src/store.ts:168-194 | The same for action results |
| Store.EntryReadsBack | packages/evidence-store/src/store.ts:150-154 | A written line parses to its kind and to what the record schemas make of its data |
| Store.Filter | packages/evidence-store/src/store.ts:228-254 | The filters in source order select exactly the stated records |
| Store.Scan | packages/evidence-store/src/store.ts:221-271 | The nested loop with its early exit is take(limit) of drop(offset) of the selected records of all files |
| QueryMeaning.ChainFilter | packages/evidence-store/src/store.ts:240 | A chain filter keeps, of what is selected without it, the records of that chain |
| QueryMeaning.ReceiptFilter | packages/evidence-store/src/store.ts:242 | A receipt filter keeps the records of that receipt; an empty one keeps all |
| QueryMeaning.FindingFilters | packages/evidence-store/src/store.ts:245-249 | Rule and severity filters keep the findings that have them |
| QueryMeaning.ActionsIgnoreFindingFilters | packages/evidence-store/src/store.ts:245-249 | They leave actions alone |
| QueryMeaning.DateFilters | packages/evidence-store/src/store.ts:251-254 | Both dates are inclusive |
| QueryMeaning.KindsPartition | packages/evidence-store/src/store.ts:236 | Findings and actions, queried apart, make up what is queried together |
| QueryMeaning.FilesAscend | packages/evidence-store/src/store.ts:306-315 | The files read are exactly the evidence files, in ascending order of their names |
| QueryMeaning.FilesInTurn | packages/evidence-store/src/store.ts:224-228 | What earlier files give comes before what later ones give |
| QueryMeaning.EvidenceNames | packages/evidence-store/src/store.ts:310 | An evidence file is named `evidence-`, anything, `.jsonl` |
| QueryMeaning.AcceptedExactly | packages/evidence-store/src/store.ts:230-231 | A line is accepted if and only if it has a known type, version 1 and data that a schema accepts |
| QueryMeaning.TornLineIsSkipped | packages/evidence-store/src/store.ts:320-337 | A line that does not parse costs no record before or after it |
| Utf8.BytesRead | packages/evidence-store/src/store.ts:118-119 | Well-formed text comes back from its UTF-8 bytes (section 3 of RFC 3629) |
| Utf8.LengthIsBytes | packages/evidence-store/src/store.ts:118-119 | The length that rotation compares with the limit is the number of these bytes |
| StoreLaws.PagesAreQuery | packages/evidence-store/src/store.ts:221-271 | n consecutive pages of at least one record, put together, are the first n pages' worth of the whole result: nothing lost, nothing repeated |
| StoreLaws.LimitKept | packages/evidence-store/src/store.ts:262-267 | The limit is kept if and only if it is at least 1 or nothing is left |
| StoreLaws.TargetHasRoom | packages/evidence-store/src/store.ts:110-132 | No write goes to a file at its limit; behind a full first file every write makes a new file |
| StoreLaws.NamesDiffer | packages/evidence-store/src/store.ts:101-134 | Every day has a first file of its own; a suffixed name is of one day and one suffix and is never a first file |
| StoreLaws.TargetUnique | packages/evidence-store/src/store.ts:110-132 | Directory and date determine the target |
| StoreLaws.WriteKeepsContiguous | packages/evidence-store/src/store.ts:123-129 | A write keeps each day's suffixes contiguous from 1 |
| StoreLaws.WriteAddsRecord | packages/evidence-store/src/store.ts:199-271 | A write adds to the answer of every query exactly its own record, where the filters select it |
| StoreLaws.RunKeepsRecords | packages/evidence-store/src/store.ts:110-271 | Over any run of writes every query answers, as a multiset, with what it answered before plus what was written; suffixes stay contiguous, files whole, rotated files one line long |
| StoreLaws.UnfilteredIsWritten | packages/evidence-store/src/store.ts:137-271 | From an empty directory the unfiltered query returns the multiset of validated records written |
| Transparency.BuildPayload | packages/watchtower-core/src/transparency/leaf.ts:67-75 | Assigning property after property gives the payload of the defined ones |
| Transparency.CreatedLeafVerifies | packages/watchtower-core/src/transparency/leaf.ts:31-89 | Every created leaf verifies under the matching key |
| Transparency.SamePayloadBothWays | packages/watchtower-core/src/transparency/leaf.ts:32-75 | What the verifier recomputes from a leaf is what the creator hashed, for all eight choices of optional fields |
| Transparency.LeafIdBinds | packages/watchtower-core/src/transparency/leaf.ts:65-89 | With an injective hash, two values read from a log that both verify have one leafId if and only if all payload properties agree up to key order, `__proto__` members inside their values left aside |
| Transparency.LeafIdPinsLeaf | packages/watchtower-core/src/transparency/leaf.ts:5-89 | Two verified leaves have one leafId if and only if they agree on everything but leafId, writtenAt and signature |
| Transparency.TransparencyLog.AppendLeaf | packages/watchtower-core/src/transparency/log.ts:20-26 | One line is appended to the file of the leaf's date |
| Transparency.VerifyLines | packages/watchtower-core/src/transparency/log.ts:56-80 | total = lines = valid + invalid and invalid = errors; valid counts the good lines; the errors are the faulty lines in order with their ids; it throws if and only if some line does |
| Transparency.LogVerdict | packages/watchtower-core/src/transparency/log.ts:54-91 | Of a log of any values the valid leaves are those whose id is the hash of their canonical payload and whose signature of it is accepted; an error says what is wrong with its line, a bad signature if and only if the id is right and the signature refused |
| Transparency.CreatedLeafHolds | packages/watchtower-core/src/transparency/leaf.ts:31-58 | A created leaf has the fields of its input, the time, the hash of its payload as id and the signature of that |
| Transparency.BlankLinesIgnored | packages/watchtower-core/src/transparency/log.ts:54 | Blank lines change nothing that is read |
| Transparency.LogThrowsExactly | packages/watchtower-core/src/transparency/log.ts:56-67 | Verifying a log of any values throws if and only if one of them is null, or has the right id and a signature the verifier throws on |
| Transparency.NullLineThrows | packages/watchtower-core/src/transparency/log.ts:60-67 | A line `null` throws under every key |
| Transparency.TransparencyLog.VerifyLogFile | packages/watchtower-core/src/transparency/log.ts:40-81 | The same for a file, all zero where there is none |
| Transparency.TornLineFailsReading | packages/watchtower-core/src/transparency/log.ts:86-93 | One line that does not parse makes reading a log throw |
| Transparency.ReadReturnsAppended | packages/watchtower-core/src/transparency/log.ts:20-93 | After any sequence of appends every log file reads back as what it held followed by its own leaves, in order |
| Transparency.CreatedLogVerifies | packages/watchtower-core/src/transparency/log.ts:40-81 | A log of created leaves verifies fully: nothing throws, all are valid, no errors |
| Context.ContextStore.SyncContext | packages/watchtower-core/src/context/ingestContext.ts:52-170 | Range, counts, prior window, skip and cursor row of one sync, overrides included |
| Context.ContextStore.SetContextCursor | packages/watchtower-core/src/context/contextStore.ts:14-25 | Upserts one row and no other |
| Context.WindowsAreAdjacent | packages/watchtower-core/src/context/ingestContext.ts:53-76 | Without overrides and with a first tip of at least 1, successive windows are adjacent, non-empty, of at most maxBlocks + 1 blocks, and end at the cursor |
| Context.EachBlockOnce | packages/watchtower-core/src/context/ingestContext.ts:53-158 | With a first tip of at least 1, no block is in two windows, every block from the first fromBlock up to the cursor is in one, and no other block is in any |
| Context.EachBlockOnceExactly | packages/watchtower-core/src/context/ingestContext.ts:53-158 | No block is repeated and none skipped if and only if the first tip is positive, or is the only one, or is followed by maxBlocks + 1 |
| Context.AdjacentExactly | packages/watchtower-core/src/context/ingestContext.ts:53-76 | The windows are adjacent under the same condition |
| Context.CountsAddUp | packages/watchtower-core/src/context/ingestContext.ts:79-164 | The txCounts of a run sum to the transactions of that range |
| Context.CountsTransactions | packages/watchtower-core/src/context/ingestContext.ts:76-104 | The number reported for a window is the number of transactions in its blocks |
| Context.CountsEachTransactionOnce | packages/watchtower-core/src/context/ingestContext.ts:79-164 | The counts of a run sum to the number of transactions in the blocks covered |
| Context.TipZeroRescans | packages/watchtower-core/src/context/ingestContext.ts:56 | After a first sync at tip 0, block 0 is covered again, and any block repeated, if and only if the next tip is at most maxBlocks |
| Context.RepeatsExactly | packages/watchtower-core/src/context/ingestContext.ts:56 | A run repeats a block if and only if it starts with two tips of 0, or with one that a tip of at most maxBlocks follows |
| Context.SkipsExactly | packages/watchtower-core/src/context/ingestContext.ts:56 | A run skips blocks if and only if tips of 0 are followed by a first positive tip above maxBlocks + 1 |
| Context.SplitAtZeros | packages/watchtower-core/src/context/ingestContext.ts:56 | Every run is one window of block 0 for each leading tip of 0, and then a first run |
| Context.CatchesUp | packages/watchtower-core/src/context/ingestContext.ts:56-76 | With a fixed tip, where the cursor is after any number of further syncs, and so how many reach the tip |
| Context.ProgressNeedsPositive | packages/watchtower-core/src/context/ingestContext.ts:74-76 | Every sync behind the tip advances if and only if maxBlocks is positive |
| Context.PriorWindow | packages/watchtower-core/src/context/ingestContext.ts:87-91 | The prior window is the min(size, fromBlock) blocks just before a positive fromBlock, and disjoint from the current window if and only if fromBlock is positive |
| SyncOverlap.SerialSyncsAreRuns | packages/watchtower-core/src/context/ingestContext.ts:52-158 | Down to the awaits between reading and writing the cursor, syncs that follow one another do what the sequential runs do, whichever of them die |
| SyncOverlap.OverlapCountsTwice | packages/watchtower-core/src/context/ingestContext.ts:53-158 | Two syncs that both read the empty cursor before either writes it count one window twice |
| SyncOverlap.CountedOnceExactly | packages/watchtower-core/src/context/ingestContext.ts:53-158 | For positive maxBlocks and tips, each block from the first one counted up to the cursor is counted once and no other is, in all runs, if and only if syncs of the agent do not overlap |
| Context.AgentsAreIndependent | packages/watchtower-core/src/context/contextStore.ts:3-25 | With syncs of many agents interleaved, each cursor is that of the agent's own run |
| Counterparties.Histogram | packages/watchtower-core/src/context/deriveContextSignals.ts:81-90 | One entry for each other side, with the number of transactions with it: the recipient of what the agent sent, the sender of anything else |
| Counterparties.TopIsMaximal | packages/watchtower-core/src/context/deriveContextSignals.ts:95 | The reduction picks an entry with the greatest count |
| Counterparties.CounterpartyConcentration | packages/watchtower-core/src/context/deriveContextSignals.ts:80-114 | The signal fires if and only if there are enough transactions and some other side has more than the threshold share of them, and names, of the most frequent ones, the one that comes up first, with the number of transactions with it and the number of other sides |
| Counterparties.NamesAnother | packages/watchtower-core/src/context/deriveContextSignals.ts:82-90 | The agent is named as its own counterparty only if it sent something to itself |
| Counterparties.ConcentratedOrderFree | packages/watchtower-core/src/context/deriveContextSignals.ts:80-98 | Whether it fires does not depend on the order of the transactions |
| Counterparties.ReportedOrderFree | packages/watchtower-core/src/context/deriveContextSignals.ts:94-110 | Nor do its counts; with a threshold of at least one half neither does the peer it names |
| Webhook.TimingSafeEqual | packages/webhook/src/index.ts:129-139 | The loop of ORs and XORs is true if and only if the texts are equal |
| Webhook.HeaderParses | packages/webhook/src/index.ts:86-96 | The header built for a delivery parses back to its exact timestamp and signature |
| Webhook.SignedPayloadUnambiguous | packages/webhook/src/index.ts:65 | The signed text determines timestamp and payload |
| Webhook.VerifySignature | packages/webhook/src/index.ts:80-124 | The verdict in every branch: valid if and only if the header parses, the age is in [-60, maxAgeSeconds] and the signature is the HMAC of its timestamp and the payload |
| Webhook.AcceptsExactly | packages/webhook/src/index.ts:201-202 | A sent header is accepted if and only if its signature is the HMAC of its timestamp and payload and it is fresh |
| Webhook.SignatureBindsDelivery | packages/webhook/src/index.ts:54-67 | With an injective HMAC a signature is accepted for its own payload and timestamp only |
| AgentIds.AgentIdRoundTrip | packages/watchtower-core/src/identity/identityTypes.ts:30-53 | An id parses to the coordinates it was made of, address in lower case, if address and token are colon-free, and not at all otherwise |
| AgentIds.ParsedHasForm | packages/watchtower-core/src/identity/identityTypes.ts:40-53 | Only texts `erc8004:chain:address:token` parse |
| Texts.LowerMeans | packages/watchtower-core/src/identity/identityTypes.ts:30-36 | Lower-casing changes capital letters only, and leaves none |

## Left out

- SHA-256, HMAC, Ed25519 and curve arithmetic are functions given from outside; injectivity of a hash is assumed only where a lemma says so.
- `localeCompare` is any total preorder on texts; whether it separates texts is a hypothesis where it matters.
- Signal weights and retry delays are exact reals, not IEEE doubles; JSON numbers are integers; `undefined`, `toJSON` and other host objects are not JSON values here.
- `JSON.parse` reads compact text, which is what the modelled programs write; other white space and non-integer numbers are not modelled.
- Hashes and HMACs are taken of texts, not of their UTF-8 bytes; `toLowerCase` is ASCII only or a parameter.
- Disk failures, torn writes, corrupted state files and the ledger's `clear()`, which exists for testing: saves are atomic and succeed.
- SQLite: the tables are insertion-ordered rows and maps; snapshots, reports, alerts and the getters for them are not modelled.
- The recovery id is `28` for a flipped s and `27` otherwise in the source; whether it recovers the right address needs curve arithmetic.
- Actions.LoadSaved: the file is the list of entries; its JSON text with block numbers and dates as strings is not modelled.
- Reorgs.NoEventMissed: the source answers a range from one chain; an answer that mixes two chains is not modelled.
- HandlerCalls.OneCallExactly: a handler that throws is taken not to have acted.
- Store.EvidenceStore.GetRotatedFilePath: takes one date per write; a clock that passes midnight between two readings inside one write is not modelled.
- StoreLaws.UnfilteredIsWritten: is about multisets; the order of a day's rotated files is that of their names under the locale, not of writing.
- StoreLaws.PagesAreQuery: is about one state of the files; writes between two page queries are not modelled.
- EvidenceCheck.VerifyEvidence: sees one unchanging file system during the call; failure messages are left out, their codes and paths are not.
- Counterparties.Histogram: addresses are plain keys; names that a JavaScript object inherits, such as `constructor`, are not modelled. The funding, burst, dormancy and micropayment rules would only add easy members.
- Transparency.TransparencyLog.AppendLeaf: the date in the file name is a function of `writtenAt`, given from outside; its time zone is not modelled.
- Transparency.ReadReturnsAppended: leaves are written in the member order `createLeaf` gives them.
- Context.CountsAddUp: block contents are fixed during the run; reorganisations below the tip are not modelled for this sync.
- SyncOverlap.SerialSyncsAreRuns: storing the snapshot and writing the cursor are one step, with no await between them; a process killed in between, and overrides of the range, are not modelled.
- Receipts.CheckManifest: the receipt id and the fields that verification does not read are given from outside or left out.
- Context.ContextStore.SyncContext: token transfers, signal derivation, snapshots and reports inside the sync are left out.
- `isDefaultRetryable` matches error messages; here any predicate on errors decides. The webhook's delivery loop and its backoff repeat the pattern of `withRetry` and are left out.
- `parseInt` and cursors are unbounded integers; values above 2^53 lose precision in the source.
- `BlockCursor`, the worker loop, rules, RPC and chain clients, HTTP routes, command lines, loggers, metrics, configuration parsing and the agent-card fetcher are not modelled.
