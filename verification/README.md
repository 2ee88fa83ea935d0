# runops-gateway: a verified model

Dafny 4.11 models of the parts of runops-gateway whose correctness is hardest to see by reading
them, with proofs that hold for every input, every run and every interleaving:

- **D-Mail documents** (`DMail`, `DMailRoundTrip`, `DMailReading`): the hand-written printer and parser.
  Parsing undoes printing exactly on the clean messages, and nowhere else; the printed form is
  canonical; and what the parser makes of any other document.
- **Canary rollouts** (`Canary`, `Traffic`, `TrafficTrips`, `Rollout`, `RolloutCalls`): the step ladder, the
  traffic allocation rule, and the forward loop with its compensation over a map of Cloud Run
  resources. Which calls fail is an arbitrary function of the call's number.
- **Admin approvals** (`Approval`, `ApprovalSafety`, `ApprovalResults`, `ApprovalRequests`,
  `ApprovalLimits`, `ApprovalService`, `Idempotency`): acknowledge, deny, timeout and create requests
  as threads whose fetch, apply, status change, insert and post are separate atomic steps, each
  allowed to fail before or after taking effect. The in-place code of the store, the registry, the
  orchestrator and `createPending` is proved to do what its steps do in any state of that system.
- **The archive emitter** (`Emitter`): concurrent `PublishFile` calls over one set of seen paths.
- **The one-time token store** (`Consumed`): lazy collection that never shows in the answers.
- **The installation token cache** (`TokenCache`): gate, cache, singleflight and upstream mint as
  steps of concurrent requests.
- **Archive routing** (`Routing`): the `id:path` list, and a router that map order cannot affect.

`Text`, `Sorting`, `Projects` and `Wrappers` hold what several of these share: byte-wise string
operations with UTF-8 white space, `sort.Strings`, the project table, and result types.

`dafny verify dfyconfig.toml` checks everything. Loops and in-place updates of the Go code are
methods and classes; their `ensures` equate what they do with specification functions. The lemmas
speak about those functions, for each at least one in the caller's terms, with the expected result
written out. A `ghost s: State` parameter is the state of a transition system in which the method
runs as one thread.

## What does not hold

Some properties one would expect of the code are false. The code is modelled as it is; each entry
names the input that breaks the property and the theorem that says exactly when it holds.

- The D-Mail round trip loses a body that starts with `---`, because several prefixes are stripped
  in a row. Input: `DMailRoundTrip.DashesAreLost`. Exactly when: `DMailRoundTrip.RoundTripExactly`.
- Compensation shifts to 0 %, not to the earlier percent, so it does not always restore the weights.
  Inputs: a forward shift to 100 % onto the latest revision (`Traffic.FullShiftStrands`), and one
  resource named twice with two targets, either of which alone could be undone
  (`Rollout.TwoTargetsLost`). For split traffic summing to 100, and whatever names and targets are
  listed, a failed rollout whose compensations succeed restores everything exactly when every resource
  already shifted comes back (`Rollout.AllOrNothing`), and one does exactly in these cases
  (`TrafficTrips.RoundTripExactly`):
  - the percent is 0 and the first entry of each of its targets, if there is one, shows 0 already;
  - the percent is above 0 and one named revision outside its targets had all the traffic, which is
    the latest revision, or the percent is below 50, or it is below 100 and there is only one target;
  - the percent is above 0 and the revision that had all the traffic is the latest one and itself a
    target, and when compensation starts a target first mentioned after its last mention still has
    traffic (and a name, or all of the traffic).
- A shift does not always keep the sum at 100: it fails exactly when the target is to get less than
  everything, does not show that percent already, and no other revision is found by name to take the
  rest (`Traffic.SumConserved`). With every entry named that is lowering a revision that has all
  traffic without another latest one (`Traffic.SumConservedNamed`); an unnamed entry is a second way
  (`Traffic.UnnamedLosesTheRest`).
- A denied or timed-out record can have reached the registry: when the denial lands between an
  acknowledge's fetch and its apply (`ApprovalLimits.DeniedYetApplied`); and, even with handlers run
  in one piece, after an acknowledge whose status change was lost (`ApprovalLimits.LostThenDenied`) or
  whose registry call went through and was reported as failed (`ApprovalLimits.UnseenThenDenied`). In
  every run it has exactly when some acknowledge applied the record and has not closed it yet or
  failed to, or a registry call for it was reported as failed although it went through; an operator
  can see both, the second as an acknowledge that was told the registry is unavailable
  (`ApprovalLimits.ClosedYetAppliedExactly`). With handlers run in one piece and no fault it never has
  (`ApprovalResults.DeniedMeansNotApplied`). It can be applied after being closed exactly when an
  acknowledge with an operation that can still succeed stands between its fetch and its apply
  (`ApprovalLimits.FinalExactly`).
- The comment at internal/usecase/admin_approval/orchestrator.go:84-87 says that after a failed status
  change the next acknowledge sees `ErrAlreadyTerminal`, because the registry already has the project.
  It does exactly when the record is terminal by then; otherwise an entitled retry of an addition gets
  the registry's already-exists refusal, and one of an archive succeeds
  (`ApprovalLimits.RetryExactly`). Input: `ApprovalLimits.LostTransitStrands`. A failed change leaves
  a terminal record exactly when it was one or the change was made after all
  (`ApprovalLimits.FailedChange`), and an addition left pending is never approved
  (`ApprovalLimits.FailedAddStrands`, `ApprovalLimits.StrandedForever`).
- The one-time token store accepts an unexpired token a second time when its clock runs backwards past
  a collection. Input: `Consumed.BackwardClockForgets`. Exactly when, for any readings:
  `Consumed.AgreesExactly`.
- A router directory `/` covers only itself, because a slash is appended to it before the prefix
  test; `Routing.CoversIsContainment` says exactly what any directory covers.

## Model

| member | source | states |
|---|---|---|
| DMail.RenderMarkdown | internal/core/domain/dmail.go:187-220 | the builder loop writes the fixed header, the metadata under its sorted keys, a blank line and the newline-terminated body |
| DMail.ParseDMail | internal/core/domain/dmail.go:108-181 | the three closing-delimiter searches and the line loop compute `Parse`, every slice in range on every input |
| DMailRoundTrip.RoundTripExactly | internal/core/domain/dmail.go:108-220 | parsing a printed message gives it back, with a final newline, if and only if its kind is known, its values single-line, trimmed and unquoted, its keys colon-free and not canonical, and its body does not start with `---` |
| DMailRoundTrip.ClosingFound | internal/core/domain/dmail.go:117-125 | in a printed document the first `\n---\n` is the closing delimiter |
| DMailRoundTrip.AcceptedExactly | internal/core/domain/dmail.go:108-181 | which byte strings are accepted: delimiters present, a kind given, and every kind line known and every version line 1 |
| DMailRoundTrip.ParsedShape | internal/core/domain/dmail.go:136-176 | whatever was accepted has one of the six kinds, single-line values and no canonical key in its metadata |
| DMailRoundTrip.DashesAreLost | internal/core/domain/dmail.go:131-134 | a message clean but for a body starting with `---` comes back without that line |
| DMailRoundTrip.RenderIgnoresOrder | internal/core/domain/dmail.go:204-213 | the document is the same for every order in which the metadata map yields its keys |
| DMailRoundTrip.PrintParsePrint | internal/core/domain/dmail.go:183-220 | printing the parse of a print gives the same bytes |
| DMailRoundTrip.RenderInjective | internal/core/domain/dmail.go:183-220 | two clean messages print alike if and only if they differ at most in the final newline |
| DMailReading.PrintedText | internal/core/domain/dmail.go:183-220 | the printed text line by line: the version, the given fields in their fixed order, the metadata once each by ascending key, a blank line, and the body with a newline added exactly if it ends in none |
| Sorting.LessEqMeans | internal/core/domain/dmail.go:204-213 | ascending means: a prefix first, otherwise by the first byte that differs |
| DMailReading.ClosedByNewline | internal/core/domain/dmail.go:113-134 | for any document whose closing line ends in a newline, the first such line counts and the body is the text after it less one leading newline, unless that text starts with a newline and dashes, which go too |
| DMailReading.ClosedByCarriageReturn | internal/core/domain/dmail.go:117-134 | the same for a closing line ended by carriage return and newline, which counts only if no plain one is there |
| DMailReading.ClosedByEnd | internal/core/domain/dmail.go:120-134 | dashes at the end of a document with neither close it, and the body is empty |
| DMailReading.EveryDocumentCloses | internal/core/domain/dmail.go:108-134 | every accepted document is of one of these three forms |
| DMailReading.LineReads | internal/core/domain/dmail.go:137-149 | blanks at a line's ends and around its colon do not matter, the first colon counts, and quotes around the value go |
| DMailReading.ParsedFields | internal/core/domain/dmail.go:136-180 | of several lines for one key the last counts, for the five fields and for the metadata, which holds the other keys given and no more |
| DMailReading.ShortDocuments | internal/core/domain/dmail.go:108-181 | a frontmatter with only a kind, directly followed by any text or by nothing, gives a mail with that kind and body and nothing else |
| DMailReading.RefusedBecause | internal/core/domain/dmail.go:108-178 | which of the five errors is returned: no opening, no closing, the first line with an unknown kind or version, or no kind; an accepted document has one of the six kinds |
| Canary.ParseActionOfPrint | internal/core/domain/domain.go:48-67 | an action name printed with a percent from 0 to 100 parses back to both |
| Canary.ActionReads | internal/core/domain/domain.go:48-67 | an action is cut at its first underscore if a signed decimal of 32 bits follows, which must be from 0 to 100; a rollback applies 0 percent, and no percent or 0 means 10 |
| Canary.NameKept | internal/core/domain/domain.go:58-62 | anything else after the first underscore leaves the action its whole name |
| Canary.NextIsLeastAbove | internal/core/domain/domain.go:32-43 | the next percent is the least step above the current one; none is offered at the top or off the ladder |
| Canary.LadderClimbs | internal/usecase/runops.go:132-162 | along any run of advance and retry clicks the percents never fall and rise strictly past every success |
| Canary.RolloutEnds | internal/usecase/runops.go:132-162 | however failures and retries are interleaved, at most five clicks of a run succeed |
| Canary.TopOfLadder | internal/usecase/runops.go:154-162 | an advance button is offered if and only if the action is not a rollback and its percent is a step below 100, and it reads `canary_` and the next step |
| Traffic.SelectActiveRevision | internal/adapter/output/gcp/traffic.go:16-29 | the scan computes `Busiest` |
| Traffic.BusiestIsArgmax | internal/adapter/output/gcp/traffic.go:11-29 | the selected revision is the first one with the largest positive share among those other than the target |
| Traffic.IsTrafficAlreadyMatching | internal/adapter/output/gcp/traffic.go:34-42 | the first entry of the target decides; an absent target matches 0 only |
| Traffic.ShiftEntries | internal/adapter/output/gcp/controller.go:69-99 | the rule between reading and writing computes `Allocate` |
| Traffic.ShiftGives | internal/adapter/output/gcp/controller.go:74-99 | what a shift writes: nothing if the target's first entry shows the percent; otherwise the percent for the target and the missing share for the first revision with the largest positive share among the others, or for the latest one if that has no name or there is none |
| Traffic.SumConserved | internal/adapter/output/gcp/controller.go:69-99 | for any split that sums to 100, a shift keeps the sum if and only if it is not one that gives the target less than everything, changes something, and finds no other revision by name |
| Traffic.SumConservedNamed | internal/adapter/output/gcp/controller.go:69-99 | when every entry is named, that exception is lowering a revision with all the traffic while no other latest revision exists |
| Traffic.UnnamedLosesTheRest | internal/adapter/output/gcp/controller.go:69-99 | an unnamed entry makes a shift of a revision without traffic lose the rest |
| Traffic.AllocateIdempotent | internal/adapter/output/gcp/controller.go:74-78 | the same shift twice is the shift once, and the target then shows the percent |
| Traffic.ReverseExactly | internal/adapter/output/gcp/controller.go:69-99 | shifting forward and back to 0 restores every revision's weight if and only if one other named revision had it all and kept a share or is the latest, or nothing moved |
| Traffic.FullShiftStrands | internal/adapter/output/gcp/controller.go:80-99 | from 100 percent onto the latest revision, going back to 0 leaves no revision with traffic |
| TrafficTrips.RoundTripExactly | internal/adapter/output/gcp/controller.go:69-99 | for any balanced split and any list of targets, shifting forward over the list and then each target back to 0 restores every weight if and only if nothing moved or the one named revision that held everything regains it, by the three cases above |
| TrafficTrips.StableComesBack | internal/adapter/output/gcp/controller.go:69-99 | a revision outside the list that held everything comes back if and only if it is the latest, or the percent is below 50, or it is below 100 and there is one target |
| TrafficTrips.InsideComesBack | internal/adapter/output/gcp/controller.go:69-99 | one inside the list does if and only if it is the latest and a target mentioned only after it still carries traffic when compensation starts |
| Rollout.SplitCSV | internal/usecase/runops.go:231-240 | the loop keeps the trimmed, non-blank parts in order |
| Rollout.CsvRoundTrip | internal/usecase/runops.go:231-240 | trimmed, non-blank, comma-free names survive being joined and split |
| RolloutCalls.CsvReads | internal/usecase/runops.go:231-240 | a list typed with any blanks and empty items is read as its names, in order |
| RolloutCalls.CallsPairUp | internal/usecase/runops.go:127-163 | every call of a rollout, for lists so typed: the i-th name is shifted to the i-th target or to none, at the action's percent, one successful call per name or up to the first failure; then the same pairs at 0 for those before it |
| RolloutCalls.ReportMeans | internal/usecase/runops.go:251-266 | nothing to roll back if and only if the first call failed; rolled back if no compensation failed; otherwise the names of exactly those that failed, in the order of the calls |
| Rollout.CloudRun.Shift | internal/adapter/output/gcp/controller.go:56-112 | one call changes one resource by the allocation rule, or fails and changes nothing |
| Rollout.RunOpsService.CompensateRollback | internal/usecase/runops.go:251-266 | one 0 percent call per done resource in order, whatever they return; the report names the failed ones |
| Rollout.RunOpsService.ApproveShift | internal/usecase/runops.go:122-166 | the exact calls, resource states and buttons of every outcome: all forward calls, or those up to the first failure and then one 0 percent call for each before it |
| Rollout.ButtonsFollowLadder | internal/usecase/runops.go:146-163 | a completed rollout offers the next step, a failed one the same action again |
| Rollout.CompletedRollout | internal/usecase/runops.go:139-152 | a completed rollout leaves every named resource at the percent for the target listed last for it, and every other one as it was |
| Rollout.FailedRollout | internal/usecase/runops.go:139-153 | a failed rollout leaves each resource as the forward shifts before the failing one and then their compensations make it, however often it is named and whichever compensations fail |
| Rollout.FailedNamesAre | internal/usecase/runops.go:255-264 | the reported names are those of the compensations that failed, and none are reported if and only if none failed |
| Rollout.AllOrNothing | internal/usecase/runops.go:139-153 | after a failure whose compensations all succeed, with balanced traffic and any names and targets, every weight everywhere is as it was if and only if each resource already shifted comes back from its list of targets |
| Rollout.TwoTargetsLost | internal/usecase/runops.go:139-153 | one resource named with two targets, each reversible alone, does not come back although every compensation succeeds |
| Rollout.StableStartRestores | internal/usecase/runops.go:139-153 | started with each resource fully on a revision that is not one of its targets, a failed rollout above 0 percent restores everything if and only if each such revision is the latest, or the percent is below 50, or it is below 100 and the resource has one target |
| Rollout.PartialCompensation | internal/usecase/runops.go:251-266 | a reported resource named once is left at the percent, one not reported has made the whole round trip, from the failing one on nothing was touched, and only names already shifted are reported |
| ApprovalSafety.RunInv | internal/usecase/admin_approval/orchestrator.go:14-145 | the invariant behind the results below holds after every interleaving, whatever fails |
| ApprovalResults.EveryChangeAuthorised | internal/usecase/admin_approval/orchestrator.go:61-96 | the registry changes only by the command line or by an acknowledge carrying out the stored operation and body for a human approver other than the record's known requester |
| ApprovalRequests.StoredAsRequested | internal/usecase/rpc/methods/project_add.go:136-145 | in every run a record that was not there at start-up was asked for by a create request of the run, and holds that request's operation, body, requester, requester type and creation time |
| ApprovalRequests.ChangeCarriesOutRequest | internal/usecase/admin_approval/orchestrator.go:61-96 | every registry change by an acknowledge of such a record carries out, column by column, what its create request asked for, for a human approver other than that request's known requester |
| ApprovalRequests.StatusChangeMeans | internal/usecase/admin_approval/orchestrator.go:61-145 | in every run a stored record changes only from pending and only in its status: to approved at that time by an acknowledge, to denied by a human's denial, to timed out by a timeout |
| ApprovalRequests.ChangeRefused | internal/adapter/output/state/sqlite_pending_store.go:94-147 | when the store refuses a status change and with which error; otherwise no other record and no other column changes |
| ApprovalRequests.AckDoes | internal/usecase/admin_approval/orchestrator.go:61-96 | one undisturbed acknowledge: the first refusal that applies, of the request or of the operation, and then nothing changes; or the operation carried out and the record approved |
| ApprovalRequests.CloseDoes | internal/usecase/admin_approval/orchestrator.go:105-145 | one undisturbed denial or timeout: the first refusal that applies, or the record closed; no project changes |
| ApprovalResults.RecordsSettle | internal/adapter/output/state/sqlite_pending_store.go:94-147 | what a record asks for never changes, and a terminal record not at all |
| ApprovalResults.ApprovedForGood | internal/usecase/admin_approval/orchestrator.go:74-96 | the application time is set if and only if the record is approved, and then its effect is in the registry after every continuation |
| ApprovalResults.OneWinnerPerKey | internal/usecase/admin_approval/orchestrator.go:61-145 | of all concurrent acks, denies and timeouts of a key at most one reports success |
| ApprovalResults.AddTakesEffectOnce | internal/usecase/admin_approval/orchestrator.go:184-221 | an addition takes effect at most once per key, however often it is acknowledged |
| ApprovalResults.OnePostPerKey | internal/usecase/rpc/methods/project_add.go:129-167 | creating a key any number of times posts it for approval at most once |
| ApprovalResults.CreatedIsPosted | internal/usecase/rpc/methods/project_add.go:143-166 | every key created in a run is posted, or about to be, or its insert was reported as failed |
| ApprovalResults.DeniedMeansNotApplied | internal/usecase/admin_approval/orchestrator.go:105-145 | with handlers run in one piece and no backend failing, a denied or timed-out record never reached the registry |
| ApprovalLimits.DeniedYetApplied | internal/usecase/admin_approval/orchestrator.go:61-126 | a run in which a denial between fetch and apply wins and the project is added |
| ApprovalLimits.LostThenDenied | internal/usecase/admin_approval/orchestrator.go:80-126 | handlers in one piece and one lost status change: the record is denied, its project was added, and nothing is in progress |
| ApprovalLimits.UnseenThenDenied | internal/usecase/admin_approval/orchestrator.go:75-126 | handlers in one piece and one registry call reported as failed although it went through: the record is denied, its project was added, and no acknowledge is past its registry call |
| ApprovalLimits.AppliedExactly | internal/usecase/admin_approval/orchestrator.go:61-145 | in every run, whatever fails, a record's operation went through if and only if some acknowledge of it is past its registry call or a call was reported as failed although it went through |
| ApprovalLimits.ClosedYetAppliedExactly | internal/usecase/admin_approval/orchestrator.go:61-145 | in every run a denied or timed-out record has reached the registry if and only if some acknowledge applied it and has not closed it yet or failed to, or such an unseen call was made; either shows in a thread's outcome |
| ApprovalLimits.FinalExactly | internal/usecase/admin_approval/orchestrator.go:61-145 | no continuation applies a terminal record again if and only if no acknowledge with an operation that can still succeed stands between its fetch and its apply |
| ApprovalLimits.FailedChange | internal/usecase/admin_approval/orchestrator.go:80-88 | a failed status change leaves a terminal record if and only if it was terminal or the change was made after all |
| ApprovalLimits.LostTransitStrands | internal/usecase/admin_approval/orchestrator.go:80-88 | a run that leaves a record pending with its project added |
| ApprovalLimits.FailedAddStrands | internal/usecase/admin_approval/orchestrator.go:80-88 | whenever an acknowledge of an addition failed to close it and it is not approved, no thread is left that could approve it |
| ApprovalLimits.StrandedForever | internal/usecase/admin_approval/orchestrator.go:80-88 | such an addition never becomes approved |
| ApprovalLimits.RetryExactly | internal/usecase/admin_approval/orchestrator.go:80-88 | the outcome of any retry after a failed status change: already-terminal if and only if the record is terminal, success if and only if it is a pending archive and the approver entitled, already-exists if and only if it is a pending addition and the approver entitled |
| ApprovalService.PendingStore.CreateIfNotExists | internal/adapter/output/state/sqlite_pending_store.go:34-68 | inserts the record as given under a new key, and hands back the stored one under a taken key |
| ApprovalService.PendingStore.Transition | internal/adapter/output/state/sqlite_pending_store.go:94-147 | checks and updates in one step; a terminal record is refused |
| ApprovalService.ProjectRegistry.Add | internal/adapter/output/state/sqlite_project_registry.go:31-49 | adds an active project under a valid, unused id |
| ApprovalService.ProjectRegistry.Archive | internal/adapter/output/state/sqlite_project_registry.go:106-123 | archives a known project, keeping its first archive time |
| ApprovalService.Orchestrator.FetchActive | internal/usecase/admin_approval/orchestrator.go:150-162 | the record, or which of the three refusals applies |
| ApprovalService.Orchestrator.Apply | internal/usecase/admin_approval/orchestrator.go:184-235 | decodes by operation and calls the registry, with every error case |
| ApprovalService.Orchestrator.OnApprovalAck | internal/usecase/admin_approval/orchestrator.go:61-96 | leaves rows, projects and error as its fetch, apply and status-change steps do in any state |
| ApprovalService.Orchestrator.OnApprovalDeny | internal/usecase/admin_approval/orchestrator.go:105-126 | the same for a denial, which touches no project |
| ApprovalService.Orchestrator.OnApprovalTimeout | internal/usecase/admin_approval/orchestrator.go:132-145 | the same for a timeout |
| ApprovalService.PendingCreator.CreatePending | internal/usecase/rpc/methods/project_add.go:120-173 | stores a new record and posts it; a repeated request changes and posts nothing and still succeeds |
| Idempotency.CanonExactly | internal/usecase/rpc/methods/idempotency.go:51-60 | two documents have one canonical text if and only if they differ only in field order and overridden fields, at any depth |
| Idempotency.CanonText | internal/usecase/rpc/methods/idempotency.go:51-60 | how scalars and small arrays and objects are written: ascending names, and of two fields with one name the later one |
| Idempotency.KeyHashes | internal/usecase/rpc/methods/idempotency.go:31-60 | what is hashed: the requester, the method and the canonical parameters behind NULs, with null for absent ones; there is no key if and only if they are no JSON |
| Idempotency.KeyIgnoresFieldOrder | internal/usecase/rpc/methods/idempotency.go:22-24 | reordering the fields of any object leaves the key unchanged |
| Idempotency.PreHashExactly | internal/usecase/rpc/methods/idempotency.go:31-44 | for NUL-free requesters and methods the hashed bytes are equal if and only if requester, method and the meaning of the parameters are |
| Idempotency.KeysApart | internal/usecase/rpc/methods/idempotency.go:18-20 | under a collision-free digest two operators or methods never share a key |
| Emitter.SeenIsInFlightOrPublished | internal/adapter/input/phonewave/emitter.go:87-171 | in every interleaving the seen paths are exactly those in flight and those published, never both, each published at most once; and every message has each field, the body and the metadata as parsed from the file, but for the routed project id, which always wins |
| Emitter.RetryExactly | internal/adapter/input/phonewave/emitter.go:91-107 | a call gets past the claim if and only if its path is neither published nor in flight |
| Emitter.RetryPublishes | internal/adapter/input/phonewave/emitter.go:97-171 | after any failed attempts a good file is published, once, as parsed and with the routed project winning |
| Emitter.FileEmitter.PublishFile | internal/adapter/input/phonewave/emitter.go:61-177 | ignores unwatched files, directories and paths seen, and otherwise does what its steps do; what it publishes is the file as parsed, the routed project winning |
| Emitter.WatchedExactly | internal/adapter/input/phonewave/emitter.go:61-68 | a file is looked at if and only if its path's last name is a visible stem and `.md` in any case |
| Consumed.MemoryConsumedStore.MarkConsumed | internal/adapter/output/state/consumed.go:43-58 | for any reading, the answer and the map are those of the calls so far, with a collection every 64th call |
| Consumed.MemoryConsumedStore.CollectGarbage | internal/adapter/output/state/consumed.go:61-67 | deletes exactly the expired entries |
| Consumed.CollectsExactly | internal/adapter/output/state/consumed.go:43-50 | a call collects if and only if it is a 64th one |
| Consumed.AgreesExactly | internal/adapter/output/state/consumed.go:43-67 | for any readings, all answers are those of a store that deletes nothing if and only if no call reads a time before the expiry of an entry of its token that was already collected |
| Consumed.ForwardForgetsNothing | internal/adapter/output/state/consumed.go:13-18 | with non-decreasing readings they always are |
| Consumed.AnsweredByHistory | internal/adapter/output/state/consumed.go:40-58 | over any run of the store with non-decreasing readings, a mark is accepted if and only if no mark of its token was accepted less than the ttl before |
| Consumed.AcceptedApart | internal/adapter/output/state/consumed.go:40-58 | in such a run two accepted marks of one token are at least the ttl apart, one half of AnsweredByHistory |
| Consumed.RefusedIsReplay | internal/adapter/output/state/consumed.go:40-58 | in such a run a refusal follows an acceptance of the same token less than the ttl ago, the other half |
| Consumed.BackwardClockForgets | internal/adapter/output/state/consumed.go:44-56 | a run of 65 calls whose last reading is behind the collection before it: a token marked for ten units is accepted again at five |
| TokenCache.CacheKeyInjective | internal/composition/broker_dependencies.go:163-165 | two requests share a key if and only if project, tool, caller type and email are equal, the email being free to contain bars |
| TokenCache.KeyNeedsCleanIds | internal/composition/broker_dependencies.go:163-165 | why that needs bar-free parts: two requests with a bar would share a key; the gate lets neither through |
| TokenCache.InstallationTokenCache.Lookup | internal/adapter/output/cache/installation_token_cache.go:79-91 | returns the stored token if and only if more than five minutes are left, and then keeps it; drops it otherwise |
| TokenCache.InstallationTokenCache.GetOrFetch | internal/adapter/output/cache/installation_token_cache.go:54-77 | the stored token if more than five minutes are left, and otherwise the fetched one, which is stored; errors are not |
| TokenCache.ServedEarlier | internal/adapter/output/cache/installation_token_cache.go:79-91 | a token served at one time is served and kept at every earlier one, and one dropped is at every later one |
| TokenCache.LookDoes | internal/adapter/output/cache/installation_token_cache.go:54-57 | among any other requests, the first lookup of an admitted one hits if and only if more than five minutes are left |
| TokenCache.MintsOnlyWhenStale | internal/adapter/output/cache/installation_token_cache.go:59-66 | a mint is started only by a second lookup that found no such token |
| TokenCache.WaitersShare | internal/adapter/output/cache/installation_token_cache.go:59-76 | a leader's result goes to exactly the requests waiting for its key, and the key is free again |
| TokenCache.Undisturbed | internal/usecase/broker_token.go:68-83 | one undisturbed request in any state: the gate's refusal, the cached token, or the minted one with the caller, project, tool and its permissions, which is stored, or the mint's failure, which is not |
| TokenCache.PermissionsAre | internal/core/domain/broker_grant.go:89-104 | which tools are served, and which may read or write what |
| TokenCache.GateAdmits | internal/usecase/broker_token.go:68-82 | admitted if and only if the tool is served and the project active with an installation; which refusal applies |
| TokenCache.CacheAgreesWithBroker | internal/usecase/broker_token.go:68-83 | over any run a returned token is the direct broker's up to value, expiry and session; its value and expiry are the answer to one mint of the run by a request with the same key; the gate saw an active and installed project; and a cached token had more than five minutes left when it was looked up |
| TokenCache.DirectMatches | internal/adapter/output/github/installation_token_broker.go:60-87 | a direct mint succeeds if and only if the tool is served, the project known and GitHub answers, and then carries the answer, the caller, project, tool and exactly the tool's permissions |
| TokenCache.GateReadRegistry | internal/usecase/broker_token.go:72-81 | the row a request was admitted on was in the registry at some point of the run |
| TokenCache.OneMintPerKey | internal/adapter/output/cache/installation_token_cache.go:59-72 | at any time at most one request per key is minting |
| Routing.ParseDirsByProject | internal/adapter/output/phonewave/writer.go:123-152 | the loop builds the map or stops at the first error |
| Routing.EntryReads | internal/adapter/output/phonewave/writer.go:128-144 | blanks around an entry, its id and its path do not matter; the id must be valid and the path absolute |
| Routing.NoEntry | internal/adapter/output/phonewave/writer.go:129-136 | a blank part is refused as empty, and one without an id, a colon or a path as no entry |
| Routing.CollectExactly | internal/adapter/output/phonewave/writer.go:123-152 | the map holds each entry's directory and no more; otherwise the error is that of the first part which is no entry or names a project again, and nothing else is refused |
| Routing.BlankListIsEmpty | internal/adapter/output/phonewave/writer.go:123-127 | a blank list is the empty map |
| Projects.IdExactly | internal/core/domain/project.go:35-53 | a project id is 1 to 64 ASCII letters, digits, underscores and hyphens |
| Routing.AcceptedDirs | internal/adapter/output/phonewave/writer.go:113-152 | an accepted list has one map entry per part, with valid ids and absolute, trimmed paths only |
| Routing.DirsRoundTripExactly | internal/adapter/output/phonewave/writer.go:123-152 | printing a map in any order and parsing it gives it back if and only if its ids are valid and its paths absolute, trimmed and comma-free |
| Routing.NewMultiArchiveRouter | internal/adapter/input/phonewave/router.go:67-89 | succeeds if and only if no cleaned directory is or contains another, and otherwise names two that overlap |
| Routing.ResolveProjectID | internal/adapter/input/phonewave/router.go:93-105 | a project whose directory covers the path, or none if none does |
| Routing.SoleCover | internal/adapter/input/phonewave/router.go:48-51 | at most one project covers a path |
| Routing.OrderNeverShows | internal/adapter/input/phonewave/router.go:48-51 | routers built in any two orders give every path the same answer |
| Routing.CoversIsContainment | internal/adapter/input/phonewave/router.go:97-102 | between cleaned absolute paths covering is containment in the tree, except that the root covers only itself |

## Left out

- Rollout.RunOpsService.ApproveShift: does not model the notifier calls and message texts; the buttons are values in its result.
- Rollout.CloudRun.Shift: a failed call is assumed to have no effect; long-running operations and partial updates of Cloud Run are not modelled. Services and worker pools share the one allocation rule they both spell out, with the latest ready and the latest created revision as `latest`.
- Rollout.AllOrNothing: the traffic of the resources already shifted is taken to be balanced, that is without negative shares and summing to 100, as Cloud Run requires of every split.
- Rollout.PartialCompensation: says nothing of a resource that is named several times and reported, since one of its compensations can fail and another succeed; `FailedRollout` gives its exact state.
- ApprovalService.PendingCreator.CreatePending: the key is a parameter, taken to be non-empty because it is a hex digest; how it comes about is in `Idempotency`.
- ApprovalService.Orchestrator.OnApprovalAck: one reading of the clock stands for the several made; the checks that need only the fetched record are one step with the fetch.
- Idempotency.PreHashExactly: string quoting is a parameter known only to start with a quote and to show where it ends, as `Idempotency.QuotingExists` shows some quoting does, and a number is the text its value is printed as, so rounding through float64 and the decoding of raw bytes are not modelled; equal keys are not claimed to mean equal bodies.
- Idempotency.KeysApart: SHA-256 and its truncation are a parameter, collision-free by assumption in this lemma only.
- Emitter.FileEmitter.PublishFile: what the file system and the publisher answer are parameters; tracing and logging are left out.
- Consumed.MemoryConsumedStore.MarkConsumed: readings come in the order of the lock and may be any; the source reads its clock before taking the lock, which is one way for them to run backwards.
- TokenCache.CacheAgreesWithBroker: caller types are the four known ones, as the verifiers produce; the upstream mint is an arbitrary answer, and its repository restriction, its installation and the audit fingerprint are not modelled.
- Routing.NewMultiArchiveRouter: `filepath.Clean` is a parameter; `CoversIsContainment` speaks of its results on absolute paths.
- DMail.RenderMarkdown: `sort.Strings` is modelled as a sorting function; any algorithm gives the same result, because the order is total.
- `json.Unmarshal` of approval bodies is an arbitrary partial function from bodies to fields.
- Job execution, the lock store around ApproveAction, authorisation, actor validators, Slack handlers and messages, HTTP, OpenTelemetry and configuration: user interface and plumbing.
- JWT and JWKS verification, the GitHub, Firestore, Pub/Sub and SQL clients: foreign calls.
- `WriteFile` and its file system race, file watching, the registry's list filter, the operator and severity tables.
- OperationKey, OutboxRouter and the single-mode router: each is settled by reading one branch.
