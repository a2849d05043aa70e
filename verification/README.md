# GridStory in Dafny

GridStory is a content management system. This project models its stateful protocols and its tree
and text algorithms, and proves what they promise over every input, every run and every
interleaving:

- **Versioned documents.** The AI gateway, AI authoring and analytics keep one document each behind
  a compare-and-swap repository and retry at most five times. `VersionedStore` proves once, for any
  number of clients in any interleaving, that the log of commits is linear; the three services reuse
  it. `DocumentService` runs the same loops as methods, with the other clients interfering at every
  await.
- **AI gateway.** Admission, reservation, settlement and failure of requests (`AiGateway`), when each
  change is admitted and what it brings about, with the kill switch over whole logs (`AiPolicy`), daily
  usage against an unbounded ledger of every reservation ever made (`AiLedger`), `execute` as a
  program among policy edits, prompt changes and the kill switch (`AiExecution`, `AiExecutionLaws`),
  when the schema check lets a settlement through (`AiSettlement`), and days whose record is dropped
  and started afresh (`AiRecreation`).
- **AI authoring.** Proposals generated, evaluated and reviewed by different clients (`AiAuthoring`),
  and which evaluation, decision and text is stored for them (`AiAuthoringLaws`).
- **Analytics.** Evidence folded into bounded tables (`BoundedTables`, `Analytics`), what the tables
  mean apart from the order of events (`AnalyticsTally`), what they retain (`AnalyticsRetention`),
  concurrent processing (`AnalyticsStore`), and the document as it is changed in place
  (`AnalyticsDocument`).
- **Studio session.** The authority lease as values (`StudioLease`), what each event does to it
  (`StudioLeaseLaws`), and the refs that are assigned between awaits (`StudioSession`).
- **Studio addresses.** The history adapter over a browser's stack (`StudioNavigation`,
  `StudioNavigationLaws`, `StudioHistory`), and the address codec down to percent escapes, UTF-8 and UTF-16 (`Unicode`,
  `FormEncoding`, `StudioLocation`, `StrictAddress`, `StudioAddressLaws`).
- **Composition editor.** Recursive edits of a forest with named slots (`Composition`,
  `CompositionLaws`, `CompositionRules`, `CompositionEdits`, `CompositionMoves`), which edits are
  accepted and where a moved node lands (`CompositionAcceptance`), the two traversals
  with mutable state (`CompositionLayers`), cloning (`CompositionClone`), undo (`CompositionHistory`).
- **Audit.** Hash chain verification (`Audit`).
- **Assets.** Multipart uploads (`AssetUploads`), storage (`AssetStorage`), records (`AssetRecords`) and
  the service (`AssetService`).

Times are integers; random identifiers, clocks, provider answers, network answers and the results of
inspecting or redacting a text are inputs. Limits are arbitrary numbers. Values that the source
computes are functions; code that the source runs step by step is a class or a method, and its
contract equates the new state with those functions. What a step promises is stated apart from the
function that computes it: the modules whose names end in `Laws`, and `AiPolicy`,
`CompositionAcceptance` and `AnalyticsRetention`, say of whole events and runs what they bring about.

`dafny verify dfyconfig.toml` checks the whole project.

## Where the code keeps less than it seems to

For each of these there is a concrete run in which the promise fails, and the exact condition under
which it holds.

- *The address settles on the accepted one.* `navigate` refuses to start while a compensating
  traversal is outstanding; `push` does not. A push that leaves the entry behind that the traversal
  leads back to lets the user jump there: nothing is pending, and the address is not the accepted
  one (`StudioNavigation.UnguardedRun`). `StudioNavigation.PushIsSafeExactly` shows that no other
  push does.
- *Index differences are stack distances.* Calling `replace` only when settled does not suffice: an
  entry that a recorded hash hides can get a second entry's index
  (`StudioNavigation.SettledReplaceBreaksDistances`). At a marked entry they survive a replacement
  exactly when the marker is the accepted index or no other entry is marked
  (`StudioNavigation.ReplaceAlignsExactly`), at an unmarked one exactly when no entry is marked or the
  accepted index belongs there (`StudioNavigation.UnmarkedReplaceAlignsExactly`). Runs that replace
  only at the accepted index, or before anything was written, keep them
  (`StudioNavigation.DistancesHold`).
- *A compensating traversal lands on the accepted entry.* A link followed in between may have dropped
  that entry (`StudioNavigation.CompensationMisses`); the traversal lands exactly when the entry still
  is in the stack (`StudioNavigation.CompensationLands`, from a new tab `StudioNavigation.EveryRunLands`).
- *Daily usage counts every reservation.* A day whose record was evicted and then used again starts
  from nothing, whatever the number of daily records (`AiRecreation.EveryLimitForgets`); since every
  reservation is for one request, a record equals the sum over all its reservations exactly when its
  day was never started afresh (`AiRecreation.RecordIsTotalExactly`).
- *A generated answer is returned.* Settling a reservation of a dropped record subtracts from the fresh
  one. A counter would fall below zero exactly when the settlement gives back more than the day has on
  record (`AiSettlement.SettlementCountableExactly`); exactly then the schema check on save refuses the
  undisturbed settlement, after every run, and only for a day that was started afresh
  (`AiSettlement.SettlementRefusedExactly`, with the run of `AiRecreation.SettlementFallsBelowZero`).
  The answer is then thrown away and the request reported as failed
  (`AiSettlement.AnsweredReturnsExactly`, `AiSettlement.RefusedNeverReturns`).
- *The undo history is bounded.* A limit of zero keeps everything, because `slice(-0)` does
  (`CompositionHistory.ZeroKeepsAll`), and under a negative one nothing can be undone
  (`CompositionHistory.NegativeKeepsNothing`). Every run stays within the limit exactly when it is at
  least one (`CompositionHistory.BoundedExactly`).

## Model

| member | source | states |
|---|---|---|
| VersionedStore.StepEffect | packages/core/src/ai-gateway-service.ts:204-244 | one step of one of any number of clients either commits that client's change on top of the latest document, raising the version by one, or leaves document and log alone; other clients keep their place |
| VersionedStore.RunsLinearize | packages/core/src/ai-gateway-repository.ts:59-67 | over every interleaving each commit applied its change to what its immediate predecessor left, and the log only grows |
| VersionedStore.EveryRunReplays | packages/core/src/ai-gateway-service.ts:204-244 | the stored document is the fold of all committed changes, and its version their number: no update is lost and a failed change writes nothing |
| VersionedStore.EqualVersionsAgree | packages/core/src/ai-authoring-repository.ts:50-58 | reads at any two moments of a run that show one version show one document |
| VersionedStore.AloneCommits | packages/core/src/ai-gateway-service.ts:204-244 | a replacement of the current version, or a mutation, that nobody interrupts commits at once, unless the schema check refuses it |
| DocumentService.InMemoryRepository.Save | packages/core/src/analytics-repository.ts:63-71 | writes exactly when the stored version is the expected one, and touches no other scope |
| DocumentService.DocumentService.Replace | packages/core/src/ai-authoring-service.ts:170-193 | at most one commit of its own, made on the expected version; none when it fails or the version was passed before |
| DocumentService.DocumentService.Mutate | packages/core/src/ai-gateway-service.ts:225-244 | at most five attempts; exactly one own commit when it reports success, none otherwise, whatever other clients commit meanwhile; it gives up only after five attempts, each of which lost to another client's commit |
| DocumentService.DocumentService.Record | packages/core/src/analytics-service.ts:394-429 | the single-read retry loop, with the same bound: one own commit or none; reports a duplicate only for a document that held the receipt |
| AiGateway.CeilingCostIsLeast | packages/core/src/ai-gateway-service.ts:139-150 | the ceiling division is the least whole amount covering the price |
| AiGateway.EstimateCoversPrice | packages/core/src/ai-gateway-service.ts:139-150 | below saturation the estimate covers both prices and is the least such amount; fewer tokens never cost more |
| AiGateway.AdmissionPermits | packages/core/src/ai-gateway-service.ts:355-384 | an admitted request has the gateway enabled, its prompt version active and registered, its model enabled and allowed |
| AiPolicy.AdmissionExactly | packages/core/src/ai-gateway-service.ts:355-384 | with distinct registries a request is admitted if and only if the gateway is on and an active, registered prompt version and an enabled model allow it, under just these; a denial names the first condition that fails |
| AiPolicy.LogDistinct | packages/core/src/ai-gateway-service.ts:246-327 | over every log of changes each prompt version, active prompt and model stands in its registry once |
| AiPolicy.SetStateLaw | packages/core/src/ai-gateway-service.ts:329-353 | the switch takes the state asked for, unless it is to go on without an active prompt, and records who asked and why |
| AiPolicy.ActivateLaw | packages/core/src/ai-gateway-service.ts:295-327 | after an activation its prompt runs that version and every other prompt the version it ran before; it is admitted exactly for a registered version with room for it |
| AiPolicy.CreateLaw | packages/core/src/ai-gateway-service.ts:255-293 | a prompt version is registered exactly when it is new, there is room, and every model it allows is known and no output limit is exceeded; each refusal names its reason |
| AiPolicy.UpdateLaw | packages/core/src/ai-gateway-service.ts:246-253 | models and budgets are replaced together unless a model is named twice |
| AiPolicy.SwitchIsLastState | packages/core/src/ai-gateway-service.ts:329-353 | over every log the gateway is on if and only if the last state asked for was on |
| AiPolicy.ActiveIsLastActivated | packages/core/src/ai-gateway-service.ts:295-327 | over every log the active version of a prompt is the one last activated for it |
| AiPolicy.KillSwitchHolds | packages/core/src/ai-gateway-service.ts:355-384 | over every log no reservation or settlement is committed while the gateway is off, or under a version other than the one last activated |
| AiPolicy.ReserveExactly | packages/core/src/ai-gateway-service.ts:446-466 | a reservation is written if and only if the request is allowed, its id is new and the day's usage with it is within the budgets; each refusal names the first reason |
| AiPolicy.ReserveLaw | packages/core/src/ai-gateway-service.ts:467-495 | it adds one reserved receipt and its usage to its day's, drops only what there is no room for, and changes nothing else |
| AiPolicy.SucceedExactly | packages/core/src/ai-gateway-service.ts:508-535 | a settlement is written if and only if the request is still allowed, reserved, not exceeded and its day on record; each refusal names the first reason |
| AiPolicy.SucceedLaw | packages/core/src/ai-gateway-service.ts:536-558 | it marks the receipt succeeded at the actual usage, takes the difference off its day, and changes nothing else |
| AiLedger.LedgerConservation | packages/core/src/ai-gateway-service.ts:446-558 | in every run each recorded day that was never recreated equals the sum over all its reservations ever committed, actual usage if succeeded and reserved usage otherwise; counters are never negative, request ids distinct |
| AiLedger.LogSound | packages/core/src/ai-gateway-service.ts:446-558 | over every linear log: retained receipts mirror the newest reservations, none costs more than it reserved, days stand once |
| AiLedger.LastReservationFits | packages/core/src/ai-gateway-service.ts:159-172 | over every linear log each recorded usage is within the budgets that the last reservation for its day was admitted under |
| AiLedger.BudgetSafety | packages/core/src/ai-gateway-service.ts:446-558 | in every run, while the reservations for a day are admitted under the same budgets, neither its recorded usage nor, unless it was started afresh, its true total exceeds any component |
| AiRecreation.RecordIsTotalExactly | packages/core/src/ai-gateway-service.ts:446-558 | in every run a recorded day's usage is the sum over all its reservations if and only if its record was never dropped and started afresh |
| AiRecreation.EveryLimitForgets | packages/core/src/ai-gateway-service.ts:459-477 | for every number of daily records there is a run in which a day that was dropped and reserved for again records one of its two reservations |
| AiRecreation.SettlementFallsBelowZero | packages/core/src/ai-gateway-service.ts:532-545 | for every number of daily records and enough receipts there is a run in which settling a reservation of the dropped record takes a counter of the fresh one below zero or is refused for that |
| AiSettlement.SettlementCountableExactly | packages/core/src/ai-gateway-service.ts:521-545 | in every document a settlement keeps all counters at zero or above if and only if what it gives back is no more than its day has on record |
| AiSettlement.SettlementStaysCountable | packages/core/src/ai-gateway-service.ts:532-545 | a settlement for a day that was never started afresh takes no counter below zero |
| AiSettlement.SettlementRefusedExactly | packages/core/src/ai-gateway-repository.ts:59-67 | after every run an undisturbed settlement is refused by the check of counters if and only if its day does not cover it, which can only be a day started afresh; else it is committed |
| AiSettlement.AnsweredReturnsExactly | packages/core/src/ai-gateway-service.ts:640-699 | after every history an answer settled without disturbance is returned if and only if its day covers the settlement; otherwise the request is reported as failed, its receipt marked so and its reservation kept in full |
| AiSettlement.RefusedNeverReturns | packages/core/src/ai-gateway-service.ts:672-699 | under any interference an execution whose settlement was refused never returns its output: it ends as failed, or with the conflict or refusal of failing its request |
| AiExecution.ReturnedWasAllowed | packages/core/src/ai-gateway-service.ts:560-702 | every execution that returns output reserved and later settled with commits of its own, each at a version that permitted its prompt and model, within budgets, input limit and cost limit |
| AiExecution.LiveKeeps | packages/core/src/ai-gateway-service.ts:560-702 | over every history each execution past its reservation holds one it committed itself; it settles after it, and a request it says was marked failed was so by a later commit of its own |
| AiExecutionLaws.StartsExactly | packages/core/src/ai-gateway-service.ts:560-574 | after every history a request goes on to be estimated if and only if its id is new, the gateway allows it and its provider is known; else it is thrown with the first reason and nothing is stored |
| AiExecutionLaws.EstimatesExactly | packages/core/src/ai-gateway-service.ts:576-632 | a request is reserved if and only if its sources were read and its estimate is within the input and cost limits, for the estimated input, the whole output limit and the larger cost |
| AiExecutionLaws.ReservesOrThrows | packages/core/src/ai-gateway-service.ts:632-632 | an undisturbed reservation is committed and the provider asked, or its refusal is thrown and nothing stored |
| AiExecutionLaws.UnansweredFails | packages/core/src/ai-gateway-service.ts:636-699 | after every history a provider that times out or breaks ends the execution with that error and marks its retained, reserved receipt failed at that time; all other receipts and every day stay |
| AiExecutionLaws.DeniedIsReported | packages/core/src/ai-gateway-service.ts:515-535 | after every history an answer that may not be settled is thrown as disabled meanwhile, beyond its reservation, or without one, and its receipt marked failed |
| AiExecutionLaws.ReservedIsAccounted | packages/core/src/ai-gateway-service.ts:640-699 | through every history an execution that reserved still runs, or returned with a later settlement of its own, or threw with a later own commit that failed its request, or threw a conflict; a refusal of that commit needs a stricter check on save |
| AiAuthoring.EvaluatedOk | packages/core/src/ai-authoring-service.ts:350-442 | a proposal is for the entry, revision, action and prompt it was asked for; it is pending review only if the candidate passes every rule; its changes are in the action's fields and limit; a failed one keeps no changes |
| AiAuthoring.LiveKeeps | packages/core/src/ai-authoring-service.ts:480-555 | over every history each review that is sent or committed was of a proposal pending in the very document it overwrites |
| AiAuthoring.LeavesReviewOnce | packages/core/src/ai-authoring-service.ts:480-555 | between any two versions a proposal is unchanged or went from pending review to exactly one of approved, rejected and stale |
| AiAuthoring.ApprovedReadItsTarget | packages/core/src/ai-authoring-service.ts:514-533 | every approved proposal was approved by a commit that had read the entry, type and revision it targets |
| AiAuthoring.EveryApprovalIsEarned | packages/core/src/ai-authoring-service.ts:286-555 | under any interleaving of proposals, reviews and policy edits every approval passed evaluation, stayed in its contract and matched its target, under an action that the policy it was committed to enabled as it stands, and no proposal leaves review twice |
| AiAuthoringLaws.DecisionIsRecorded | packages/core/src/ai-authoring-service.ts:524-555 | over every log a committed review finds its proposal pending, gives it the status of the decision with one review of that decision, actor and time, or marks it stale with its reviews as they were, and leaves all others alone |
| AiAuthoringLaws.StatusIsDecision | packages/core/src/ai-authoring-service.ts:480-555 | under any interleaving a retained proposal is approved, rejected or stale if and only if an earlier commit approved it, rejected it or marked it |
| AiAuthoringLaws.ReviewTakesEffect | packages/core/src/ai-authoring-service.ts:480-555 | after every history an undisturbed review by a human of a pending proposal saves it rejected, approved, or stale where the entry has changed, and nothing else |
| AiAuthoringLaws.ReviewRefused | packages/core/src/ai-authoring-service.ts:480-513 | a review by anyone but a human, of another version, or of a proposal not pending does nothing at all |
| AiAuthoringLaws.EvaluatedExactly | packages/core/src/ai-authoring-service.ts:362-442 | a proposal awaits review, with all suggestions, if and only if the candidate passed the schema and every rule; each outcome is on record in order |
| AiAuthoringLaws.HoldsExactly | packages/core/src/ai-authoring-service.ts:389-415 | what each rule asks of its field's text: bounds on its length, and a term that occurs or does not after normalization |
| AiAuthoringLaws.CandidateLaw | packages/core/src/ai-authoring-service.ts:362-365 | a field of the candidate has the value suggested for it last, or else the draft's |
| AiAuthoringLaws.ProposeExactly | packages/core/src/ai-authoring-service.ts:444-478 | a proposal is stored behind the others if and only if authoring is on, its action is the enabled one in force and its request is new |
| AiAuthoringLaws.WayIsGone | packages/core/src/ai-authoring-service.ts:286-442 | an answered attempt within the contract sends its evaluated proposal to the store |
| AiAuthoring.SemanticDocument | packages/core/src/ai-authoring-service.ts:570-601 | the loop with its running character count computes the indexed fields |
| AiAuthoring.SemanticBudget | packages/core/src/ai-authoring-service.ts:570-601 | the indexed text never exceeds the character budget |
| AiAuthoring.OnlyLastIsCut | packages/core/src/ai-authoring-service.ts:570-601 | every indexed field is the rule's, with its whole redacted text except that the last may be cut |
| AiAuthoringLaws.IndexedInOrder | packages/core/src/ai-authoring-service.ts:570-601 | every path of the rule with text is indexed, in order, until the characters are used up |
| BoundedTables.SortIsNewestFirst | packages/core/src/analytics-service.ts:54-66 | the sort orders by descending time |
| BoundedTables.SortIsStable | packages/core/src/analytics-service.ts:54-66 | values of one time keep their order, which with the order by time fixes the result |
| BoundedTables.NewestAreKept | packages/core/src/analytics-service.ts:54-66 | nothing dropped is newer than anything kept, nothing is lost or added, and the flag tells exactly whether anything was dropped |
| Analytics.RecordConserves | packages/core/src/analytics-service.ts:68-145 | any evidence keeps keys unique and summed counters within the event counts, equal to them while the table is untruncated; named interactions within the interactions, equal while the name table is below its cap |
| Analytics.FoldConserves | packages/core/src/analytics-service.ts:68-145 | so does any sequence of evidence, duplicates and evictions included |
| AnalyticsRetention.NewestRetained | packages/core/src/analytics-service.ts:134-145 | over any evidence the annotations retained, and the receipts, are as many as there is room for, none earlier than one dropped, and all of them in order exactly while nothing was |
| AnalyticsRetention.ContentStep | packages/core/src/analytics-service.ts:68-98 | a content event counts once in the metric of its content and revision, and only a metric that occurred no later than the others is dropped |
| AnalyticsRetention.ComponentStep | packages/core/src/analytics-service.ts:99-131 | so does a component event, and an interaction in the count of its name while there is room |
| AnalyticsTally.FoldIsExact | packages/core/src/analytics-service.ts:68-132 | every event count, and every counter and latest time of an untruncated table, is the number and the maximum over the events themselves; a table is truncated exactly when it met more keys than it holds |
| AnalyticsTally.OrderDoesNotMatter | packages/core/src/analytics-service.ts:68-132 | any permutation of the events gives the same counts, the same truncation, the same per-key totals and latest times, and the same count for each listed name |
| AnalyticsStore.EveryRunCountsOnce | packages/core/src/analytics-service.ts:394-429 | in every run of concurrent and repeated processing the stored aggregate is the fold of the committed evidence; whoever finished finds its evidence there, and while receipts are untruncated exactly once |
| AnalyticsStore.RunsAgree | packages/core/src/analytics-service.ts:394-429 | two runs that counted the same evidence agree on every total |
| AnalyticsDocument.AggregateDocument.CountContent | packages/core/src/analytics-service.ts:70-98 | bumping or pushing a content metric in place and cutting the table gives the table of the fold |
| AnalyticsDocument.AggregateDocument.CountComponent | packages/core/src/analytics-service.ts:99-131 | the same for a component metric and its interaction names |
| AnalyticsDocument.AggregateDocument.ApplyEvent | packages/core/src/analytics-service.ts:68-132 | an event changes the document in place as the fold says |
| AnalyticsDocument.AggregateDocument.ApplyAnnotation | packages/core/src/analytics-service.ts:134-145 | so does an annotation |
| AnalyticsDocument.AggregateDocument.Record | packages/core/src/analytics-service.ts:401-413 | changes nothing for evidence with a receipt, and otherwise makes the whole recorded change; the document stays the fold of what it counted, with every counter conserved |
| StudioLease.NoStaleResult | apps/studio/src/studio-capabilities.ts:188-225 | in every run a delivered guarded result means one verified identity, permitting the operation, was in force at every step from call to delivery; generations are never reused; a completed scope switch kept its principal and chose an offered scope under an unbroken lease |
| StudioLease.LeftAuthorityNeverReturns | apps/studio/src/studio-session.tsx:54-237 | an authority that was left never returns under its old generation |
| StudioLease.StaleAnswerIsHarmless | apps/studio/src/studio-capabilities.ts:197-225 | in every run, once a call's lease is gone its answer, whenever it comes and even if it is a denial, changes nothing in the session and is never delivered |
| StudioLeaseLaws.DenialEndsTheLease | apps/studio/src/studio-session.tsx:124-136 | in every run a denial in force ends the authority, advances generation and lifetime, loses every call in flight, and no client born before ever has a lease again |
| StudioLeaseLaws.DeniedIdentityIsRefused | apps/studio/src/studio-session.tsx:73-79 | in every run the check that a 403 starts refuses the denied identity if that is what it finds |
| StudioLeaseLaws.CallGoesOut | apps/studio/src/studio-capabilities.ts:188-196 | a call goes out exactly when its client has a lease that permits each of its operations |
| StudioLeaseLaws.AnswerInForce | apps/studio/src/studio-capabilities.ts:197-225 | under the lease in force a result is delivered, and an error that is no denial raised |
| StudioLeaseLaws.VerifiedAnswer | apps/studio/src/studio-session.tsx:71-96 | the newest check's answer is the authority afterwards; an unchanged identity keeps its lifetime, and its generation on focus |
| StudioLeaseLaws.FailedAnswer | apps/studio/src/studio-session.tsx:97-109 | a failed check ends the authority; only a refusal of access forgets whose it was |
| StudioLeaseLaws.SupersededCheckIsIgnored | apps/studio/src/studio-session.tsx:74-74 | an answer that is not the newest check's, or comes after unmounting, changes nothing |
| StudioLeaseLaws.FocusRecheckKeepsCalls | apps/studio/src/studio-session.tsx:59-96 | in every run a focus recheck that finds the same identity keeps every call in flight in force |
| StudioLeaseLaws.SwitchesRecorded | apps/studio/src/studio-session.tsx:205-234 | exactly the switches cleaned up after and not superseded are on record, each from its beginning to its end |
| StudioLeaseLaws.SwitchHandsOver | apps/studio/src/studio-session.tsx:151-237 | in every run an undisturbed switch to an offered scope hands the session to the candidate under a new generation and lifetime, and ends every call |
| StudioLeaseLaws.SupersededSwitchEnds | apps/studio/src/studio-session.tsx:185-212 | a superseded switch ends without a trace, at either of its awaits |
| StudioLeaseLaws.OtherwiseNone | apps/studio/src/studio-session.tsx:156-173 | no switch begins beside another, without the client's verified lease, to a scope that is not offered or is the current one |
| StudioLeaseLaws.UnmountEnds | apps/studio/src/studio-session.tsx:239-248 | an unmounted session has no authority, no check that counts and an aborted switch |
| StudioSession.StudioSession.BeginRefresh | apps/studio/src/studio-session.tsx:54-72 | the refs after starting a refresh, keeping the old lease only for a focus recheck of the verified client |
| StudioSession.StudioSession.FinishRefresh | apps/studio/src/studio-session.tsx:73-109 | the refs after its answer: ignored when superseded, refused for the denied identity, the old generation kept for an unchanged identity |
| StudioSession.StudioSession.CurrentLease | apps/studio/src/studio-session.tsx:118-123 | the lease a guarded client sees: only its own client's, in its own lifetime |
| StudioSession.StudioSession.OnDenied | apps/studio/src/studio-session.tsx:124-136 | a denial drops the authority, advances generation and lifetime, and rechecks after a 403 |
| StudioSession.StudioSession.BeginCall | apps/studio/src/studio-capabilities.ts:188-196 | a guarded call holds the lease in force, if that permits its operations, and is refused otherwise |
| StudioSession.StudioSession.SettleCall | apps/studio/src/studio-capabilities.ts:197-225 | what becomes of a guarded call's answer: delivered, stale, denied or failed |
| StudioSession.StudioSession.FindAllowed | apps/studio/src/studio-session.tsx:161-167 | the loop finds the first offered scope of a selection |
| StudioSession.StudioSession.BeginTransition | apps/studio/src/studio-session.tsx:151-180 | a scope switch starts only alone, under a verified lease, to another offered scope |
| StudioSession.StudioSession.VerifyTransition | apps/studio/src/studio-session.tsx:181-203 | the scope switch after its candidate context arrived |
| StudioSession.StudioSession.CommitTransition | apps/studio/src/studio-session.tsx:205-234 | the scope switch after cleanup: superseded, or committed with a new generation |
| StudioSession.StudioSession.Unmount | apps/studio/src/studio-session.tsx:239-248 | unmounting drops the authority and advances the generation |
| StudioSession.StudioSession.OnClientChange | apps/studio/src/studio-session.tsx:250-256 | a new client is rechecked unless a switch has verified it |
| StudioSession.StudioSession.OnFocus | apps/studio/src/studio-session.tsx:257-260 | focus rechecks routinely, except during a switch |
| StudioSession.StudioRun.Happen | apps/studio/src/studio-session.tsx:54-260 | whatever happens to a session keeps the whole-run invariant, so every guarded result delivered had one permitting identity in force from its call to its delivery |
| StudioNavigation.CreatedSettles | apps/studio/src/studio-history.ts:24-110 | in every guarded run of a new adapter, whenever nothing is pending or outstanding the address is the last accepted one |
| StudioNavigation.PushIsSafeExactly | apps/studio/src/studio-history.ts:62-66 | a push can strand the address in some later run if and only if it leaves an answering entry of the outstanding compensation behind |
| StudioNavigation.UnguardedRun | apps/studio/src/studio-history.ts:114-120 | a concrete run that settles on another address than the accepted one |
| StudioNavigation.SupersededNeverTakesEffect | apps/studio/src/studio-history.ts:67-94 | once another navigation replaced it, a request's answer changes nothing, whenever it comes |
| StudioNavigationLaws.GrantedNavigation | apps/studio/src/studio-history.ts:84-93 | a granted navigation to another address is pushed behind the current entry, one index further or in a new epoch, and nothing follows it |
| StudioNavigationLaws.GrantedChange | apps/studio/src/studio-history.ts:88-91 | a granted browser change rewrites the entry the browser is at, with its index or in a new epoch |
| StudioNavigationLaws.RefusedLeadsBack | apps/studio/src/studio-history.ts:84-87 | a refused request leaves the accepted address and leads back to it, by a traversal where the distance is known, else by rewriting the entry |
| StudioNavigationLaws.AnswerDecides | apps/studio/src/studio-history.ts:81-94 | after its answer a request is gone and the accepted address is the granted one, or as it was |
| StudioNavigationLaws.NavigationTakesEffect | apps/studio/src/studio-history.ts:67-94 | an undisturbed, granted navigation takes effect |
| StudioNavigationLaws.PushAppends | apps/studio/src/studio-history.ts:117-120 | a push appends one entry behind the current one, unless it is for the accepted address |
| StudioNavigationLaws.ReplaceRewrites | apps/studio/src/studio-history.ts:114-116 | a replacement rewrites the current entry under the accepted index |
| StudioNavigationLaws.ResetStartsOver | apps/studio/src/studio-history.ts:121-126 | a reset rewrites the current entry under index zero of a new owner and drops request and compensation |
| StudioNavigationLaws.TraverseNoticed | apps/studio/src/studio-history.ts:95-110 | a traversal within the stack is ignored where observed before, ends the compensation it answers, or starts a request of its own |
| StudioNavigationLaws.VisitNoticed | apps/studio/src/studio-history.ts:95-110 | so is an entry the user makes, which carries no index |
| StudioNavigation.DistancesHold | apps/studio/src/studio-history.ts:39-66 | in every run that replaces only the accepted entry, index differences among this epoch's entries are stack distances |
| StudioNavigation.ReplaceAlignsExactly | apps/studio/src/studio-history.ts:114-116 | at a marked entry a replacement keeps indices aligned if and only if the marker is the accepted index or no other entry is marked |
| StudioNavigation.UnmarkedReplaceAlignsExactly | apps/studio/src/studio-history.ts:114-116 | at an unmarked entry, always if no entry is marked, else if and only if the accepted index belongs at that position |
| StudioNavigation.SettledReplaceBreaksDistances | apps/studio/src/studio-history.ts:114-116 | a concrete run in which a replacement made when settled breaks the distances |
| StudioNavigation.CompensationLands | apps/studio/src/studio-history.ts:51-61 | absent further navigation a compensating traversal settles on the accepted entry if and only if that entry is still in the stack |
| StudioNavigation.EveryRunLands | apps/studio/src/studio-history.ts:24-110 | from a new tab, in every run with guarded pushes and replacements in place, index differences are stack distances and a compensating traversal lands on the accepted entry exactly when that is still in the stack |
| StudioNavigation.CompensationMisses | apps/studio/src/studio-history.ts:51-61 | a concrete run in which the accepted entry was dropped and the traversal lands on an unmarked one, unsettled |
| StudioHistory.StudioHistory.Happen | apps/studio/src/studio-history.ts:24-132 | every call and browser change does to adapter and browser what the step function says, and all but an unguarded push keep the invariant that a settled adapter shows the address it accepted last |
| StudioHistory.StudioHistory.Write | apps/studio/src/studio-history.ts:39-50 | one entry pushed or replaced, recorded, accepted and observed, as the step function says |
| StudioHistory.StudioHistory.Restore | apps/studio/src/studio-history.ts:51-61 | compensates by a traversal, or rewrites the entry in a new epoch |
| StudioHistory.StudioHistory.ReadMarker | apps/studio/src/studio-history.ts:24-32 | an entry's index counts only for this owner and its recorded hash |
| StudioHistory.StudioHistory.PushSlot | apps/studio/src/studio-history.ts:62-66 | pushes behind the current entry, in a new epoch if it is unknown |
| StudioHistory.StudioHistory.BeginTransition | apps/studio/src/studio-history.ts:67-73 | a new request replaces the pending one |
| StudioHistory.StudioHistory.FinishTransition | apps/studio/src/studio-history.ts:81-94 | the answered navigation: superseded, refused, granted, external or not |
| StudioHistory.StudioHistory.OnChange | apps/studio/src/studio-history.ts:95-110 | a browser change: already observed, an answered compensation, or a new external request |
| StudioHistory.StudioHistory.Reset | apps/studio/src/studio-history.ts:121-126 | drops request and compensation and starts an epoch at index zero |
| StudioHistory.StudioHistory.Navigate | apps/studio/src/studio-history.ts:127-130 | requests a navigation unless a compensation is outstanding |
| Unicode.Utf16RoundTrip | apps/studio/src/studio-location.ts:51-58 | the conversion to scalar values and back gives a text again exactly when its surrogates are paired |
| Unicode.Utf8RoundTrip | apps/studio/src/studio-location.ts:19-20 | decoding encoded scalar values gives them again |
| Unicode.DecodesExactly | apps/studio/src/studio-location.ts:20-20 | bytes decode first to the scalar value whose encoding they start with, else to one replacement for their longest part that starts an encoding |
| FormEncoding.FormReturns | apps/studio/src/studio-location.ts:51-58 | serializing a form value and decoding it gives the value, lone surrogates replaced |
| FormEncoding.FormDecodable | apps/studio/src/studio-location.ts:18-19 | a serialized value passes the strict escape check |
| StudioLocation.ParseIsCanonical | apps/studio/src/studio-location.ts:12-49 | every address at all parses to a location with a known destination, a legal type, and an entry that is legal, well-formed and typed; a refused one to the fallback |
| StudioLocation.RoundTrip | apps/studio/src/studio-location.ts:12-58 | parsing a formatted location returns it as valid if and only if it is canonical |
| StudioLocation.FormatFits | apps/studio/src/studio-location.ts:14-14 | every formatted canonical location is within the length limit |
| StudioLocation.ReformatIsStable | apps/studio/src/studio-location.ts:12-58 | reformatting any parsed address is stable |
| StrictAddress.AcceptedIsExact | apps/studio/src/studio-location.ts:18-20 | in every accepted address each percent sign starts an escape and each name and value decodes without loss |
| StudioAddressLaws.AcceptedExactly | apps/studio/src/studio-location.ts:12-49 | an address is accepted, and as just this location, if and only if it is empty, or within the length limit a known destination with whole escapes whose parameters are none, a legal type, or a legal entry and type in either order; every other is refused to the home page |
| StudioAddressLaws.AnySpellingParses | apps/studio/src/studio-location.ts:12-49 | every spelling of a location parses to it: parameters in either order, each character raw, escaped in either case, or a plus sign for a space |
| CompositionLaws.FindCounts | apps/studio/src/composition-editor.ts:59-68 | the search finds a node exactly when the id occurs, and the node has it |
| CompositionMoves.LocatedWhereItIs | apps/studio/src/composition-editor.ts:70-90 | on unique ids a child at an index of a collection is located there, and found |
| CompositionEdits.Removal | apps/studio/src/composition-editor.ts:226-239 | the collection a node is located in is found again, holds it at that index, and removing it there removes its subtree and nothing else |
| CompositionRules.PruneKeepsTree | apps/studio/src/composition-editor.ts:185-205 | taking a subtree out breaks no rule except, at most, the minimum of the collection it was in |
| CompositionRules.InsertKeepsTree | apps/studio/src/composition-editor.ts:152-183 | an accepted subtree in a slot with room breaks no rule |
| CompositionEdits.Insertion | apps/studio/src/composition-editor.ts:99-128 | an insertion adds exactly the subtree's ids, and its run of nodes, at one place in the order of all nodes |
| CompositionMoves.AddLaw | apps/studio/src/composition-editor.ts:207-224 | a successful addition keeps the composition well-formed, puts the subtree at the clamped index and leaves every other node in place and order; it never loses its target |
| CompositionMoves.RemoveLaw | apps/studio/src/composition-editor.ts:226-239 | a successful removal keeps the composition well-formed and takes out exactly the subtree |
| CompositionMoves.MoveLaw | apps/studio/src/composition-editor.ts:241-278 | a move never loses its source or target; a successful one keeps the composition well-formed, the whole subtree and the place and order of all others, and the node is located at the adjusted index of the target |
| CompositionMoves.MoveWithinLaw | apps/studio/src/composition-editor.ts:241-278 | a move within one collection leaves the whole composition as it is exactly for the listed requested indices; for any other the node stands just before the child that was there, first or last, and its siblings keep their order |
| CompositionAcceptance.MoveAcrossLaw | apps/studio/src/composition-editor.ts:265-278 | a moved node, with its subtree, stands in another collection just before the child that was at the requested index, last beyond them or without one, first if that is not positive; the others keep their order |
| CompositionAcceptance.AddedExactly | apps/studio/src/composition-editor.ts:152-224 | an addition is accepted if and only if the collection is there and the composition with the node in it keeps every rule |
| CompositionAcceptance.TakenExactly | apps/studio/src/composition-editor.ts:136-183 | an addition is accepted if and only if the root, or the first declaration of the slot in the first manifest of the parent, admits the component and has room for one more |
| CompositionAcceptance.RemovedExactly | apps/studio/src/composition-editor.ts:185-239 | a removal is accepted if and only if the node is there and the composition without it keeps every rule |
| CompositionAcceptance.MovedWithin | apps/studio/src/composition-editor.ts:241-278 | a move within one collection is always accepted |
| CompositionAcceptance.MoveIsRemovalThenAddition | apps/studio/src/composition-editor.ts:241-278 | a move into another collection is the removal followed by the addition: accepted if and only if both are, with the same result |
| CompositionMoves.EveryRunKeeps | apps/studio/src/composition-editor.ts:152-278 | any run of additions, removals and moves keeps unique ids, declared slots, accepted children and all bounds |
| CompositionLayers.UpdateChildren | apps/studio/src/composition-editor.ts:99-128 | the traversal with its shared flag gives the updated forest, or nothing when the target is not there |
| CompositionLayers.FlattenLayers | apps/studio/src/composition-editor.ts:383-400 | the loops that push and relocate give the list of layers |
| CompositionLayers.LayersListAll | apps/studio/src/composition-editor.ts:383-400 | the layers list every node once, in pre-order, with its collection |
| CompositionLayers.TrueDepth | apps/studio/src/composition-editor.ts:383-400 | every layer is a root at its index or a child, at its slot and index, of an earlier layer one level up |
| CompositionLayers.LayersAreLocated | apps/studio/src/composition-editor.ts:70-90 | on unique ids each layer's location is what the search by id returns |
| CompositionLayers.LocatedIsLayer | apps/studio/src/composition-editor.ts:70-90 | every node the search finds is a layer at the location the search returns |
| CompositionClone.CloneFits | apps/studio/src/composition-editor.ts:322-358 | a clone of a well-formed subtree with fresh ids is one that every addition may take |
| CompositionClone.CloneDiffersInIdsOnly | apps/studio/src/composition-editor.ts:322-358 | a clone is its original in every component, payload, slot and order; its ids are drawn one by one in pre-order |
| CompositionHistory.WalkMovesCursor | apps/studio/src/composition-editor.ts:424-448 | undo and redo move a cursor over a fixed timeline and stop at its ends |
| CompositionHistory.UndosThenRedos | apps/studio/src/composition-editor.ts:424-448 | n undos and n redos restore past, present and future if and only if there were n snapshots to undo, or none to redo |
| CompositionHistory.CommitThenUndo | apps/studio/src/composition-editor.ts:409-435 | a commit followed by undo restores the prior present exactly when the limit leaves it in the past |
| CompositionHistory.CommitLaw | apps/studio/src/composition-editor.ts:409-422 | a commit of another snapshot shows it, drops what was undone, keeps the latest snapshots a positive limit allows and selects what was asked for or selected if it is found; one of the present changes nothing |
| CompositionHistory.WalkLaw | apps/studio/src/composition-editor.ts:424-448 | undo shows the snapshot before and keeps what it leaves, redo shows that again; both keep the selection exactly when it is found, and do nothing at an end |
| CompositionHistory.RunStaysWithin | apps/studio/src/composition-editor.ts:409-448 | for a limit of one or more, past and future together never exceed it |
| CompositionHistory.BoundedExactly | apps/studio/src/composition-editor.ts:402-448 | a new history stays within its limit in every run if and only if the limit is at least one |
| CompositionHistory.NegativeKeepsNothing | apps/studio/src/composition-editor.ts:417-417 | under a negative limit a new history never has anything to undo or redo |
| CompositionHistory.ZeroKeepsAll | apps/studio/src/composition-editor.ts:417-417 | with a limit of zero nothing is dropped |
| CompositionHistory.SelectionStands | apps/studio/src/composition-editor.ts:402-448 | a selection in the present snapshot stays one in every run |
| Audit.VerifyAuditEvents | packages/core/src/audit-service.ts:55-100 | the grouping map, the sort and the carried hash compute the specified verdict and failures |
| Audit.VerdictMeaning | packages/core/src/audit-service.ts:55-100 | the verdict is valid exactly when, for every entry, the events in sequence are numbered 1..n, each names its predecessor's hash and carries its own |
| Audit.FailuresReported | packages/core/src/audit-service.ts:67-99 | the failures listed are exactly those of each entry's events in sequence: a wrong number, a wrong previous hash, or a hash other than that of its fields and its predecessor |
| Audit.OrderDoesNotMatter | packages/core/src/audit-service.ts:55-66 | the verdict is independent of input order and of interleaving across entries |
| Audit.LastHashBinds | packages/core/src/audit-service.ts:34-53 | under an injective hash the last hash of a valid chain determines its length and every hashed field |
| Audit.OnlyPrefixesAreValid | packages/core/src/audit-service.ts:55-100 | some events of a valid chain, in any order, are valid if and only if they are its first ones |
| AssetUploads.Reassembly | packages/core/src/asset-service.ts:378-469 | after any uploads and replacements the recorded parts join, by number, to the last bytes sent, and their sizes sum to its size |
| AssetUploads.ChunksRejoin | packages/core/src/asset-service.ts:518-534 | chunks of any positive size join to the body they were cut from |
| AssetStorage.InMemoryAssetStorage.UploadPart | packages/core/src/asset-service.ts:129-152 | stores a part exactly for a known upload of the scope, a positive number and a non-empty body |
| AssetStorage.InMemoryAssetStorage.CompleteMultipart | packages/core/src/asset-service.ts:154-197 | joins the listed parts by number if every etag matches what is stored, and otherwise changes nothing |
| AssetService.UploadChunks | packages/core/src/asset-service.ts:518-534 | the loop over the sanitized body ends and stores every chunk under its number |
| AssetService.StoreSanitized | packages/core/src/asset-service.ts:508-543 | stores exactly the sanitized body as one object and leaves no upload behind |
| AssetService.AssetService.UploadPart | packages/core/src/asset-service.ts:378-414 | records the part in place of an earlier one of its number, exactly for a live upload within all limits, and changes nothing else of any upload |
| AssetService.AssetService.StartUpload | packages/core/src/asset-service.ts:339-369 | a new upload has no parts and expires after a day |
| AssetService.AssetService.AbortUpload | packages/core/src/asset-service.ts:606-613 | forgets one upload and the parts the storage holds for it, and no other |
| AssetService.AssetService.CompleteUpload | packages/core/src/asset-service.ts:416-604 | succeeds exactly for a known upload of the scope whose submitted parts are the recorded ones, of the declared size, and pass inspection; the stored object is the concatenation of the last bytes sent for each part, of the declared size, or exactly the sanitized body; what a scanner does not call clean is quarantined and kept as sent; a failure changes nothing |
| AssetService.AssetService.Update | packages/core/src/asset-service.ts:615-644 | adds one revision to the record and touches no other asset |
| AssetService.AssetService.CreateRendition | packages/core/src/asset-service.ts:646-697 | only a verified image gains a rendition, and one preset only one |
| AssetService.AssetService.ReadPrivateObject | packages/core/src/asset-service.ts:322-337 | a read succeeds exactly for a revision of a verified asset whose object is stored, and gives the first revision's object |
| AssetService.AssetService.Erase | packages/core/src/asset-service.ts:742-769 | removes every object the asset refers to and no other asset's object |
| AssetRecords.RunKeeps | packages/core/src/asset-service.ts:615-697 | over any run of updates and renditions versions are 1..n, the current revision is the last, and all share revision one's object and verdict |
| AssetRecords.UpdateLaw | packages/core/src/asset-service.ts:615-644 | the new revision carries the metadata and focal point asked for, else those before, under its own id, actor and time, with the object and verdict it follows |
| AssetRecords.RenderLaw | packages/core/src/asset-service.ts:646-697 | a rendition is made exactly for a verified image, once for each preset |
| AssetRecords.DeliverableExactly | packages/core/src/asset-service.ts:303-320 | a revision is delivered if and only if the asset has it and was verified; without an id the current one |
| AssetRecords.VerdictIsForever | packages/core/src/asset-service.ts:303-320 | an asset completed as quarantined is never deliverable, a verified one always is, with its first object |

## Left out

- AiExecution.ReturnedWasAllowed: does not model the schema check of the result after settlement; if that fails the execution throws although its usage is settled.
- AiLedger.LedgerConservation: leaves out days whose record was evicted and used again, for which the code does not keep it.
- AiGateway.AdmissionPermits: model uniqueness of a policy update is checked inside the change, not before the version check, so only the order of two errors differs.
- AiAuthoring.EveryApprovalIsEarned: assumes that proposal ids, drawn at random, are not drawn twice, and that the content service answers a read by id with that entry.
- AiSettlement.SettlementRefusedExactly: the schema check is taken to refuse a document for its usage counters alone.
- AnalyticsTally.OrderDoesNotMatter: leaves the content type of a metric out; it is that of the first event of its key.
- AnalyticsStore.EveryRunCountsOnce: after a receipt was evicted the same evidence may be counted again.
- StudioNavigation.CreatedSettles: assumes pushes that meet the guard; each browser change is one step, so `popstate` and `hashchange` of one change are one call.
- CompositionMoves.MoveLaw: a target without a parent names no slot; ids and slot names are not empty; a missing record of slots is an empty one.
- CompositionMoves.EveryRunKeeps: assumes that added subtrees are well-formed and bring ids not in use.
- Audit.LastHashBinds: SHA-256 over canonical JSON is an arbitrary injective function.
- AssetService.AssetService.UploadPart: calls run one at a time; two uploads of one part number in flight at once are not modelled.
- AssetService.AssetService.CreateRendition: the adapter's object has a key no other asset refers to.
- Retrieval sources, redaction, provider timers and abort signals of `execute`: arbitrary outcomes.
- Schema validation on save is an arbitrary test of the document.
- The table from client methods to operations, and the cleanup of a preview session whose grant arrives too late.
- Previews, presence, catalogs, forms, React rendering and effects other than the session's own refs.
- Other keys of `history.state`, the safe-integer test of a marker's index, and the browser's own normalisation of addresses.
- Numeric-looking slot names, which JavaScript enumerates first, and the editing of props and presentations.
- Semantic search adapters, their jobs and the authorization of hits.
- SQLite and PostgreSQL repositories, HTTP and GraphQL routes, workers, telemetry and malware scanners.
- Asset usage reports, upload filenames and media types, and garbage of parts whose completion throws in the middle.
