# Simple Calls: a verified model

Simple Calls is a visual editor for telephone systems. A user draws a *topology*: extensions, menus
(IVRs), ring groups, queues, schedules and mailboxes, joined by edges that carry a condition. The
backend stores topologies as revisions, keeps SIP passwords encrypted beside them, compiles the current
revision to an Asterisk dialplan and deploys it. This project models the parts of the program where
mistakes would be hardest to see and proves what they promise.

## How the model is laid out

* **Topology and validation.** `Topology`, `Issues`, `Schedule` hold the entities and opening hours.
  `NodeRules`, `ScheduleRules`, `EdgeRules` are the rule loops of the validator; each method reports an
  error if and only if a declarative predicate fails, and `Validator` combines them (`Accepted`).
  `CycleCheck` is the depth-first search for cycles without an exit, as a class with the search's own
  mutable state; `Graph` and `CycleTheorems` prove what it finds. `Oversights` holds the topologies that
  the validator misjudges.
* **The compiler.** `Generator` is the dialplan a topology compiles to, `Emitter` the loops that push its
  lines, `Dialplan` a small-step machine that runs dialplans. Names stay strings, so every jump of the
  machine looks its target up by sanitized name. `Callflow` is the independent meaning of a topology:
  where a call is in the graph and what happens next. `Linking`, `Simulation` and `CallTheorems` prove
  that the two agree on every run, `OpeningHours` when those runs keep the documented hours;
  `FileTheorems` shows that the file has no double definition and no dangling jump; `CallBounds` bounds
  what a run does over and over, `Progress` how long it runs between two events; `ScheduleTranslation`
  compares opening hours; `RingGroups` tells from the memberships whom a group rings, `Mailboxes` where
  messages are recorded; `Dialling` covers numbers, entry points and ring order, `CompiledEdges` which
  edges show in the dialplan.
* **The store.** `StoreSpec` says what each transaction does to the tables, `Database` is the class that
  does it with loops and roll-back, `StoreTheorems` proves what every run of operations keeps. `Deploy`
  and `DeployTheorems` do the same for the deployment protocol, with a fault possible at every step and
  other clients writing at every await; `RollbackTheorems` says when a failed one is rolled back.
  `LoginLimiter` is the failed-login counter.
* **Protocol and media.** `Ami`, `AmiFraming` and `AmiDemux` are the manager-interface client; `History`
  is the editor's undo; `Wav` and `WavTheorems` are the recorder's encoder and the upload check.

A method proved equal to a function (`EncodeWav` to `WavFile`, `SaveTopology` to `Save`, and so on) takes
its meaning from the lemmas about that function.

## Where the program does not do what one would expect

* Two different cycles whose sorted edge ids join to the same text count as one, so an unsafe cycle can
  hide behind a safe one when edge ids contain commas: `CommaHidesUnsafeLoop` is a topology that passes
  every rule although a caller may never leave it. `ReportIsRightExactlyWhen` says for which topologies
  the check is right, `UnsafeLoopReported` that it is for edge ids without commas.
* Memberships are compared by group and member id joined with a backslash and a zero, so two different
  pairs can count as repeated: `DistinctMembershipsRefused` is a topology that obeys every rule and is
  refused. `MembershipCheckIsRightExactlyWhen` gives the condition, `MembershipCheckIsRight` holds for
  group ids without that text.
* An overnight window that ends at `00:00` is compiled to a clause that holds for the whole following
  day, while the evaluator treats the tail as empty. `TranslationDiffersExactly` gives the moments,
  `AgreesExactlyWhen` the schedules that have none on a calendar, and `DocumentedHoursOnCalendar` the
  topologies whose compiled call flow keeps the documented hours in every run.
  `docs/domain-model.md:85-86` and `shared/src/schedule.ts:41` call the evaluator a mirror of the
  dialplan; the model follows the code of both.
* An unconditional edge out of a menu passes validation and is never compiled
  (`MenuDefaultsAreNotCompiled`); `CompiledIff` says that no other accepted edge is dropped.
* `invalidRetries` may be fractional; the bound is then the next whole number (`CompiledRetriesAreBounded`).
* Saving a topology without an extension deletes its secret, after which an older revision, even the
  last-good one, can no longer be materialized (`DroppingLosesSecret`, `LastGoodMayBeUnreadable`). A
  deployment that is switched to and fails is then not rolled back: `RolledBackIff` says exactly when a
  rollback is reported, `FailedDeploymentStays` is a run from a new installation where it is not.
* `docs/asterisk-mapping.md:93` calls the update of the last-good link and pointer atomic. The program
  sets the link first, so a pointer update that fails, be it because the disk is full, leaves the link on
  the new deployment and the pointer on the old revision: `FailedCommitBreaksLastGood` is such a run,
  `LastGoodAgreementSurvivesIff` says exactly when the two still agree.
* A fault after the pointer update rolls the link back but not the pointer. `AgreementSurvivesIff` says
  for which faults link and pointer still agree, `LateFaultBreaksAgreement` is a run in which they do not.

## Model

| member | source | states |
|---|---|---|
| CycleCheck.CycleWalk.CloseCycle | shared/src/validator.ts:926-957 | closing a cycle counts it, records its key once, reports it if it has no exit, and stops after 5000 |
| CycleCheck.CycleWalk.Follow | shared/src/validator.ts:922-963 | one edge of the walk: its effect on counters, reported keys and issues is that of the cycles through it, and the path is restored |
| CycleCheck.CycleWalk.Walk | shared/src/validator.ts:919-964 | the recursive walk leaves the tally of all cycles below the current path, in order |
| CycleCheck.CycleWalk.WalkAll | shared/src/validator.ts:916-968 | the loop over the start nodes leaves the tally of all cycles, ending early once the search is cut short |
| CycleCheck.EnumerateCycles | shared/src/validator.ts:911-977 | the whole search, including the early exit and the truncation warning |
| CycleCheck.FindUnsafeCycles | shared/src/validator.ts:902-980 | the issues reported for a topology |
| CycleTheorems.ExploreExact | shared/src/validator.ts:919-964 | the walk visits exactly the trails that complete the current path to a simple cycle above the start index |
| CycleTheorems.EnumeratesCanonicalCycles | shared/src/validator.ts:894-901 | the enumeration holds exactly the simple cycles that start at their lowest node, each once |
| CycleTheorems.EnumeratesEachCycleOnce | shared/src/validator.ts:894-901 | every simple cycle of the graph appears in exactly one rotation at exactly one place |
| CycleTheorems.TruncatedIffTooManyCycles | shared/src/validator.ts:927-931 | the search is cut off if and only if the graph has more than 5000 simple cycles |
| CycleTheorems.RecordedIssues | shared/src/validator.ts:932-953 | an issue is recorded for a cycle if and only if it is the first with its key and has no exit |
| CycleTheorems.ReportedCyclesAreReal | shared/src/validator.ts:941-952 | every reported infinite cycle, the search cut short or not, is an error that names, by its edge ids in order, a simple cycle of the graph, written from its lowest node, none of whose edges is a timeout or invalid edge |
| CycleTheorems.ReportedIffUnmasked | shared/src/validator.ts:932-953 | something is reported if and only if some exit-free cycle within the cap does not share its key with an earlier cycle that has an exit |
| CycleTheorems.ReportIsRightExactlyWhen | shared/src/validator.ts:902-980 | for unique ids, commas and cap included: the check reports an infinite cycle exactly when there is an exit-free closed walk, if and only if not all exit-free cycles within the cap are masked where there is such a walk |
| CycleTheorems.UnreportedIsOverlooked | shared/src/validator.ts:902-980 | where nothing is reported, an exit-free closed walk exists if and only if a cycle is masked or lies beyond the cap |
| CycleTheorems.CommaFreeOverlooksNothing | shared/src/validator.ts:933-937 | edge ids without commas mask nothing, so an uncut search overlooks nothing |
| CycleTheorems.KeysDiffer | shared/src/validator.ts:933-937 | without commas in edge ids, different cycles have different keys |
| CycleTheorems.KeyIgnoresOrder | shared/src/validator.ts:933-936 | cycles of equally named edges have the same key, wherever they start |
| CycleTheorems.UnsafeLoopReported | shared/src/validator.ts:902-980 | consequence for edge ids without commas and an uncut search: an infinite cycle is reported if and only if some closed walk has no edge with a timeout or invalid condition, both written out |
| Oversights.CommaHidesUnsafeLoop | shared/src/validator.ts:934-941 | two menus and two phones: accepted in every respect, the search not cut short, and yet with an unsafe loop |
| Graphs.ClosedHasSimple | shared/src/validator.ts:894-901 | every closed walk contains a simple cycle made of its edges |
| Graphs.LongTrailCloses | shared/src/validator.ts:894-901 | a walk with as many edges as there are nodes contains a closed walk |
| Graphs.SameEdgesSameCycle | shared/src/validator.ts:932-937 | two simple cycles with the same edges are rotations of each other |
| Schedules.ReadersAgree | shared/src/validator.ts:456-463 | the validator's and the evaluator's reading of a valid time are the same minute |
| Schedules.PrintedEndReadsBack | backend/src/asterisk/configGenerator.ts:314-318 | the HH:MM printed as a clause's end reads back as the minute before the window's end; 00:00 prints 23:59 |
| Schedules.SegmentsMatchEvaluator | shared/src/validator.ts:465-483 | a moment lies in a window's segments if and only if the evaluator holds the window open |
| Schedules.FindOverlap | shared/src/validator.ts:536-554 | the pairwise loop finds an overlap if and only if two segments of different windows intersect |
| Schedules.OverlapIsExact | shared/src/validator.ts:536-554 | such a pair exists if and only if some weekday and minute lies in segments of two windows |
| Schedules.OverlapMeansBothOpen | shared/src/validator.ts:536-554 | that is, if and only if two windows are open at the same moment, midnight and week wrap included |
| ScheduleRules.CheckWindows | shared/src/validator.ts:504-534 | window errors are reported if and only if ids, times or weekdays are wrong; the segments of all usable windows are collected |
| ScheduleRules.CheckHolidays | shared/src/validator.ts:556-574 | holiday errors are reported if and only if a date is not ten characters of digits and hyphens that name a day, or is repeated |
| ScheduleRules.ValidateScheduleNode | shared/src/validator.ts:485-576 | errors if and only if the schedule is not well-formed; an overlap is reported exactly when two windows share a minute |
| NodeRules.ValidateNodes | shared/src/validator.ts:237-445 | errors if and only if some node is wrong in itself or two nodes clash in id, generated name, number, SIP name or mailbox; for accepted nodes the entry-point warning exactly for extension numbers 600 to 600+n-1; the password warning exactly where an extension neither brings nor has a password |
| NodeRules.TextsByCode | shared/src/validator.ts:237-345 | which numbers, SIP names and greetings the patterns allow, by character code |
| NodeRules.SanitizedByCode | backend/src/asterisk/configGenerator.ts:40-42 | generated names keep ASCII letters, digits and underscores and have underscores for the rest |
| EdgeRules.ValidateEdges | shared/src/validator.ts:611-817 | errors if and only if some edge, pair of edges or node's set of outputs breaks a rule; where none does, the menu warning exactly where a menu has no edge for a key |
| EdgeRules.RulesInOtherWords | shared/src/validator.ts:31-52 | the transition table told by what it forbids, and the keys by character code |
| EdgeRules.ValidateMemberships | shared/src/validator.ts:819-868 | errors if and only if a membership joins the wrong kinds of node, an id or a pair of group and member is repeated, or two different pairs have the same joined key |
| EdgeRules.MembershipCheckIsRightExactlyWhen | shared/src/validator.ts:834-843 | the loop accepts exactly the memberships that obey the rules if and only if no keys clash where they do |
| EdgeRules.PairKeyInjective | shared/src/validator.ts:834-834 | for group ids without a backslash followed by a zero the key gives back the pair |
| EdgeRules.MembershipCheckIsRight | shared/src/validator.ts:834-843 | for such group ids the loop is right |
| Oversights.DistinctMembershipsRefused | shared/src/validator.ts:834-843 | a topology that obeys every rule, without a repeated pair, that is refused |
| EdgeRules.ValidateGroupsHaveMembers | shared/src/validator.ts:870-892 | errors if and only if a ring group or queue has no member |
| Validator.ValidateTopology | shared/src/validator.ts:222-235 | the topology is rejected if and only if it is not `Accepted` |
| Validator.LongWalkTakesExit | shared/src/validator.ts:943-951 | in an accepted topology without overlooked cycles every walk of as many edges as nodes takes a timeout or invalid edge |
| Validator.AcceptedWalksExit | shared/src/validator.ts:943-951 | of every accepted topology: all such walks take one if and only if no cycle is masked or beyond the cap |
| Emitter.GenerateIvrContext | backend/src/asterisk/configGenerator.ts:197-239 | the pushed lines are the context `IvrEntries` describes |
| Emitter.ScheduleDialplan | backend/src/asterisk/configGenerator.ts:320-363 | the pushed lines are the schedule's clauses in order |
| Emitter.PushWindows | backend/src/asterisk/configGenerator.ts:340-360 | one clause for a window within a day, two for one across midnight, appended in order |
| Emitter.GenerateCallflowEntry | backend/src/asterisk/configGenerator.ts:241-302 | the pushed lines are the callflow entry of the node |
| Emitter.GenerateExtensionsConf | backend/src/asterisk/configGenerator.ts:389-429 | the emitted file is the dialplan that the theorems below run |
| Dialling.MembersInOrder | backend/src/asterisk/configGenerator.ts:81-87 | members are rung in ascending position, equal positions in stored order |
| Dialling.DiallingIsEntering | backend/src/asterisk/configGenerator.ts:397-407 | dialling an extension's number runs exactly like entering its callflow node |
| Dialling.EntryPointLeadsToNode | backend/src/asterisk/configGenerator.ts:412-416 | dialling 600+i enters node i unless an extension has that number |
| Dialling.ShadowedEntryPoint | shared/src/validator.ts:305-322 | an extension with that number wins, and validation has warned |
| Dialling.WarnedOfEntryPoints | shared/src/validator.ts:305-322 | the warned numbers are, zeros in front aside, exactly those printed for 600 to 600+n-1 |
| RingGroups.GroupRingsItsMembers | backend/src/asterisk/configGenerator.ts:81-87 | told from the memberships: entering a group of an accepted topology rings exactly the phones that have a membership in it, each once, by ascending position (0 without one) and then as stored, together or in turn, and then leaves along the edge or hangs up |
| RingGroups.PhoneRingsItself | backend/src/asterisk/configGenerator.ts:397-407 | an extension's entry and its number ring its own endpoint for 20 seconds and then leave along the edge, to its mailbox or not at all |
| RingGroups.QueueHoldsTheCaller | backend/src/asterisk/configGenerator.ts:241-302 | a queue's entry puts the caller into its own queue for its maximal wait and then leaves |
| RingGroups.MailboxRecords | backend/src/asterisk/configGenerator.ts:241-302 | a voicemail node's entry records one message in its mailbox and hangs up |
| Mailboxes.MessagesReachTheirMailbox | backend/src/asterisk/configGenerator.ts:389-429 | every message is recorded in a mailbox of the node whose entry it is in; mailboxes are numbers and no two nodes share one |
| CompiledEdges.MenuDefaultsAreNotCompiled | backend/src/asterisk/configGenerator.ts:199-202 | removing unconditional edges out of menus does not change the dialplan |
| CompiledEdges.CompiledIff | backend/src/asterisk/configGenerator.ts:197-302 | of an accepted topology's edges, leaving one out keeps the dialplan the same if and only if it is an unconditional edge out of a menu |
| Linking.NodeNamesDiffer | backend/src/asterisk/configGenerator.ts:40-46 | different sanitized ids give different generated names |
| Linking.AcceptedCompiles | shared/src/validator.ts:515-527 | every accepted topology can be compiled |
| Linking.LinkedNode | backend/src/asterisk/configGenerator.ts:389-429 | looking up an accepted node's generated names yields that node's own steps and nothing else |
| Linking.LinkedIvr | backend/src/asterisk/configGenerator.ts:197-239 | in a menu's context every offered key, `t`, `i`, `s` and `giveup` resolve to that menu's own steps, and no other key resolves |
| Linking.SoundNode | shared/src/validator.ts:632-814 | what acceptance guarantees the compiler about one node: known targets, one fallback, one edge per key, both schedule outputs |
| FileTheorems.EverythingDefinedOnce | backend/src/asterisk/configGenerator.ts:389-429 | in the file of an accepted topology no extension of any context is defined twice |
| FileTheorems.EveryJumpLands | backend/src/asterisk/configGenerator.ts:197-363 | every jump of every step, taken or not, lands on an existing step |
| FileTheorems.MenuOnce | backend/src/asterisk/configGenerator.ts:218-236 | a menu's keys differ from each other and from its fixed extensions |
| ScheduleTranslation.DecideSchedule | backend/src/asterisk/configGenerator.ts:335-361 | first-match evaluation of the generated clauses reaches the open target exactly when `CompiledOpen` holds |
| ScheduleTranslation.TranslationDiffersExactly | backend/src/asterisk/configGenerator.ts:354-357 | clauses and evaluator differ at exactly the moments of a spilled midnight tail that nothing else decides |
| ScheduleTranslation.TranslationPreservesMeaning | shared/src/schedule.ts:41-58 | without a window across midnight that ends at 00:00 they agree at every moment |
| ScheduleTranslation.AgreesExactlyWhen | backend/src/asterisk/configGenerator.ts:340-360 | on any calendar, each date with its own weekday, they agree at every minute if and only if windows cover all of each date that is no holiday and follows an overnight window with its end at midnight |
| ScheduleTranslation.MidnightEndStaysOpen | backend/src/asterisk/configGenerator.ts:314-318 | a schedule and a moment at which they differ |
| CallTheorems.FollowStep | backend/src/asterisk/configGenerator.ts:197-302 | one step of a call is followed by one or more steps of the machine with the same actions, no more than the longest schedule needs |
| CallTheorems.MachineFollowsCall | backend/src/asterisk/configGenerator.ts:197-302 | every run of the call is a run of the machine, which needs at most a fixed number of steps for each of the call's |
| CallTheorems.CallFollowsMachine | backend/src/asterisk/configGenerator.ts:197-302 | every run of the machine is, up to unfinished steps, a run of the call |
| CallTheorems.CompiledCallflowIsFaithful | backend/src/asterisk/configGenerator.ts:389-429 | for every accepted topology, node, time and sequence of events, the dialplan performs exactly the actions and moves the topology means, with the opening hours its clauses encode (and the documented ones if no overnight window ends at midnight) |
| OpeningHours.DocumentedHoursIff | shared/src/schedule.ts:41-58 | for every accepted topology and any set of moments that can occur: every run at such moments has the documented meaning if and only if every schedule has the same target for both outputs or agrees with the evaluator at all of them |
| OpeningHours.DocumentedHoursAnytime | shared/src/schedule.ts:41-58 | the same without restriction of the moments |
| OpeningHours.DocumentedHoursOnCalendar | shared/src/schedule.ts:41-58 | the same on a calendar, told from the windows of the schedules |
| CallBounds.CompiledCallsKeepTakingExits | shared/src/validator.ts:943-951 | for accepted topologies without overlooked cycles: every run of the dialplan enters the nodes of the walk of edges its call takes, and of any as many consecutive edges of that walk as there are nodes one is a timeout or invalid edge |
| CallBounds.CommaFreeCallsKeepTakingExits | shared/src/validator.ts:943-951 | so it is for every accepted topology without commas in edge ids whose search was not cut short |
| CallBounds.CompiledRetriesAreBounded | backend/src/asterisk/configGenerator.ts:203-235 | within one visit a menu plays "invalid" fewer than invalidRetries + 1 times |
| CallBounds.RetryVariableCounts | backend/src/asterisk/configGenerator.ts:203-228 | whatever the variables held before, a menu's counter equals the wrong keys since it was entered |
| Progress.Settles | shared/src/validator.ts:894-901 | from any place of a call, under either reading of opening hours: unless schedules alone send it around, it ends or waits in vain within a number of steps bounded by the nodes and the events |
| Progress.CallsSettleIff | backend/src/asterisk/configGenerator.ts:320-363 | every compiled call of a well-formed topology comes to its end or to a wait, whatever happens to it, if and only if there is no time at which schedules alone send a caller around |
| Progress.CompiledCallsSettle | shared/src/validator.ts:943-951 | for accepted topologies without overlooked cycles no call loops silently: within a bound in the topology and the number of events the dialplan has ended or waits with nothing left to happen |
| Progress.CommaFreeCallsSettle | shared/src/validator.ts:943-951 | so it is for every accepted topology without commas in edge ids whose search was not cut short |
| Database.PbxDatabase.PrepareSecrets | backend/src/model/database.ts:381-406 | passwords are stored, stripped and marked; rows of vanished extensions go; plaintext is refused exactly when present and not allowed |
| Database.PbxDatabase.PruneRevisions | backend/src/model/database.ts:578-590 | rows with `limit` newer ones and no pointer are deleted with their deployments, and nothing else |
| Database.PbxDatabase.SaveTopology | backend/src/model/database.ts:450-489 | the whole transaction, all or nothing |
| Database.PbxDatabase.UpdateSipSecret | backend/src/model/database.ts:491-512 | the secret and the marked topology are saved together or not at all |
| Database.PbxDatabase.RollbackTopology | backend/src/model/database.ts:538-549 | an old revision is saved again under the caller's expected revision |
| Database.PbxDatabase.MaterializedTopology | backend/src/model/database.ts:434-448 | the stored revision with its passwords, or an error if one is missing or cannot be opened |
| Database.PbxDatabase.RotateSecrets | backend/src/model/database.ts:778-797 | every row re-encrypted and the cipher replaced, or everything as before |
| Database.NewerThanRow | backend/src/model/database.ts:581-584 | in the descending listing, the rows before a revision are exactly its newer ones |
| StoreTheorems.StepKeeps | backend/src/model/database.ts:450-605 | every operation, successful or not, keeps pointers resolving, recent revisions retained, revisions redacted and rows matching |
| StoreTheorems.RunKeepsInvariant | backend/src/model/database.ts:330-605 | so does every run from the initial topology |
| StoreTheorems.PreparedMatches | backend/src/model/database.ts:381-406 | after preparing, rows belong to the topology's extensions, open, and exist exactly where `configured` is set (ids being unique) |
| StoreTheorems.WriteRetainsExactly | backend/src/model/database.ts:578-590 | after each write the retained revisions are exactly the newest `limit` numbers and the pointers |
| StoreTheorems.RetainedBounded | backend/src/model/database.ts:578-590 | never more than limit + 1 revisions, in any reachable store |
| StoreTheorems.RevisionsAreImmutable | backend/src/model/database.ts:239-248 | a deleted number never comes back and a retained revision never changes |
| StoreTheorems.NoLostUpdates | backend/src/model/database.ts:458-462 | in every interleaving at most one writer holding a revision succeeds |
| StoreTheorems.SecretChangeSucceedsIff | backend/src/model/database.ts:491-510 | a secret change succeeds if and only if the secret has 12 to 256 printing characters other than semicolons and brackets, the extension exists and the caller holds the current revision; else nothing changes and the error says which |
| StoreTheorems.SaveSucceedsIff | backend/src/model/database.ts:450-463 | a save succeeds if and only if the caller holds the current revision and no extension brings a password, or that is allowed; else nothing changes and the error says which |
| StoreTheorems.SaveStoresAll | backend/src/model/database.ts:381-406 | a save stores every edge, membership and field of every node, apart from passwords and marks |
| StoreTheorems.SecretChangeStoresAll | backend/src/model/database.ts:491-512 | a secret change stores the current topology again, apart from passwords and marks, and marks the extension |
| StoreTheorems.RollbackRestores | backend/src/model/database.ts:538-549 | the new revision has every edge, membership and field of every node of the old one, apart from passwords and marks |
| StoreTheorems.RollbackSucceedsIff | backend/src/model/database.ts:538-549 | it succeeds if and only if the target exists and the caller holds the current revision; else nothing changes and the error says which |
| StoreTheorems.LastStoredIsPlain | backend/src/model/database.ts:368-379 | what a reader decrypts is the last plaintext stored since the extension was last absent, across rotations |
| StoreTheorems.CurrentMaterializes | backend/src/model/database.ts:434-448 | the current revision always materializes, with its edges and memberships and exactly those passwords |
| StoreTheorems.MaterializesIff | backend/src/model/database.ts:434-448 | any retained revision materializes if and only if no configured extension of it has lost its row |
| StoreTheorems.DroppingLosesSecret | backend/src/model/database.ts:400-404 | a write without an extension makes retained revisions that rely on its secret unreadable |
| StoreTheorems.LastGoodMayBeUnreadable | backend/src/model/database.ts:400-404 | two operations after which the last-good revision cannot be materialized |
| StoreTheorems.RotationKeepsPlain | backend/src/model/database.ts:778-797 | rotation, committed or aborted, keeps every plaintext |
| StoreTheorems.RotationOutcome | backend/src/model/database.ts:778-797 | a commit leaves all rows and the cipher on the new key; a failed audit insert leaves both as before |
| StoreTheorems.OpensOnlyAsSealed | backend/src/model/database.ts:355-373 | a sealed password opens only with its cipher and for its extension |
| StoreTheorems.WrongKeyAborts | backend/src/security/crypto.ts:52-67 | rotating with a wrong old key aborts whenever there is a row |
| LoginLimiter.LoginAttempts.LoginRate | backend/src/model/database.ts:719-725 | blocked exactly until the stored time; the wait is the least sufficient number of whole seconds |
| LoginLimiter.LoginAttempts.RecordLoginFailure | backend/src/model/database.ts:727-743 | the new row, and no other row changes |
| LoginLimiter.LoginAttempts.Attempt | backend/src/security/auth.ts:132-152 | one login request: refused, failed and counted, or accepted and cleared |
| LoginLimiter.RunTracks | backend/src/model/database.ts:727-743 | the row describes the failures recorded so far, for every key and every interleaving |
| LoginLimiter.AtMostEightFailures | backend/src/model/database.ts:719-743 | no half-open fifteen minutes hold more than eight recorded failures of a key without a success between |
| LoginLimiter.EightIsReached | backend/src/model/database.ts:727-743 | a run with eight |
| LoginLimiter.LockHolds | backend/src/security/auth.ts:132-152 | while a key has five counted failures, the last less than fifteen minutes ago, every login of it is refused, right or wrong, and changes nothing; any other is accepted if and only if it is valid |
| Deploy.Deployer.StageAndActivate | backend/src/asterisk/deploy.ts:283-289 | staging, preflight and the link switch, with a fault at any of them |
| Deploy.Deployer.VerifyAndCommit | backend/src/asterisk/deploy.ts:308-330 | reload, health, last-good link, pointer update and the record of success, with a fault at any of them |
| Deploy.Deployer.RollBack | backend/src/asterisk/deploy.ts:331-349 | the attempt to restore the old link and check it against the last-good revision |
| Deploy.Deployer.DeployTopology | backend/src/asterisk/deploy.ts:268-371 | the whole protocol with a fault possible at each step, including the cases that throw to the caller |
| DeployTheorems.DeployedIff | backend/src/asterisk/deploy.ts:283-330 | a deployment succeeds if and only if no step fails, the pointer update included, Asterisk runs it and is healthy, and the revision still exists at the commit |
| DeployTheorems.ReportTells | backend/src/asterisk/deploy.ts:314-362 | what the report says of written files, reload, health and rollback is so |
| DeployTheorems.TooFewEndpoints | backend/src/asterisk/deploy.ts:249-253 | with fewer endpoints than extension nodes nothing is reported deployed |
| DeployTheorems.NotActivatedMeansUntouched | backend/src/asterisk/deploy.ts:283-289 | a failure before the switch leaves links, running configuration and pointers as they were |
| DeployTheorems.RolledBackMeansRestored | backend/src/asterisk/deploy.ts:333-346 | a reported rollback has restored the link, Asterisk runs the old deployment and was checked against the last-good revision |
| DeployTheorems.PointersAfter | backend/src/model/database.ts:592-596 | the pointers moved exactly if the commit was reached |
| DeployTheorems.AgreementSurvivesIff | backend/src/asterisk/deploy.ts:283-346 | told from the faults alone, one at the pointer update included: after a deployment the link names the active revision if and only if the revision was active already, or the switch was not reached, or the commit was reached and either recorded or not undone, or it was not reached and the switch was undone |
| DeployTheorems.RunKeepsAgreement | backend/src/asterisk/deploy.ts:268-371 | over every run of deployments and edits without a late fault or a failed rollback, the link names the active revision |
| DeployTheorems.InstallationKeepsAgreement | backend/src/asterisk/deploy.ts:268-371 | so it does after every such run from a new installation |
| RollbackTheorems.LateFaultBreaksAgreement | backend/src/asterisk/deploy.ts:325-346 | a reported rollback after which link and pointer disagree |
| RollbackTheorems.UnreadableBaselineBlocksRollback | backend/src/asterisk/deploy.ts:338-345 | no rollback is reported while the last-good revision cannot be materialized |
| RollbackTheorems.RolledBackIff | backend/src/asterisk/deploy.ts:331-349 | a rollback is reported if and only if the link was switched without success, the way back meets no fault, and, unless nothing was linked, the baseline can be materialized and Asterisk runs the old deployment in good health |
| RollbackTheorems.FailedDeploymentStays | backend/src/asterisk/deploy.ts:338-346 | from a new installation: a deployment, an edit that leaves out the phone, and a deployment that is switched to, fails and is not rolled back |
| RollbackTheorems.LastGoodAgreementSurvivesIff | backend/src/asterisk/deploy.ts:310-314 | the last-good link still names the last-good revision if and only if the revision was last good already, the step of the link was not reached, or the pointers were moved too: no fault at their update, and the revision still exists |
| RollbackTheorems.FailedCommitBreaksLastGood | backend/src/asterisk/deploy.ts:310-313 | a fault at the pointer update leaves link and pointer of any retained revision that is not last good in disagreement, also after a reported rollback |
| RollbackTheorems.DeployedMeansAgreement | backend/src/asterisk/deploy.ts:308-330 | after a reported deployment both links name the revision of their pointer, whatever they named before |
| Ami.AmiClient.Receive | backend/src/asterisk/amiClient.ts:110-126 | one chunk: the banner is skipped, every complete block handled, the rest kept |
| Ami.AmiClient.ReadBlock | backend/src/asterisk/amiClient.ts:128-136 | the fields of a block |
| Ami.AmiClient.HandleBlock | backend/src/asterisk/amiClient.ts:128-154 | the message is emitted and given to the pending action that asked, which is settled when complete |
| Ami.AmiClient.SendAction | backend/src/asterisk/amiClient.ts:156-182 | a new id is pending and the payload with that ActionID is written, or nothing happens without a socket |
| Ami.AmiClient.FailAllPending | backend/src/asterisk/amiClient.ts:94-100 | every pending action is rejected and none is left |
| AmiFraming.OneChunkOrTwo | backend/src/asterisk/amiClient.ts:110-126 | cutting a chunk anywhere, inside the banner or a delimiter too, changes nothing |
| AmiFraming.ChunkingIsIrrelevant | backend/src/asterisk/amiClient.ts:110-126 | any split of a stream leaves the client as the whole stream at once would |
| AmiFraming.StreamIsSplit | backend/src/asterisk/amiClient.ts:110-126 | the blocks handled are those of the stream split at blank lines; the rest holds no complete block |
| AmiFraming.PayloadReadsBack | backend/src/asterisk/amiClient.ts:163-166 | a payload is one block and parses to its own fields |
| AmiFraming.SentReadsBack | backend/src/asterisk/amiClient.ts:162-166 | what sendAction writes reads back as its fields under the new ActionID |
| AmiFraming.WrittenIsRead | backend/src/asterisk/amiClient.ts:110-166 | messages written one after another behind a banner arrive one by one in order, in any chunks |
| AmiDemux.ActionIdsDiffer | backend/src/asterisk/amiClient.ts:162-162 | action ids are never reused |
| AmiDemux.RunConsistent | backend/src/asterisk/amiClient.ts:94-182 | the bookkeeping invariant over every interleaving of sends, chunks, timeouts, write errors and disconnects |
| AmiDemux.PendingXorSettled | backend/src/asterisk/amiClient.ts:94-182 | every issued action is pending or settled, never both or neither |
| AmiDemux.ResolvedExactly | backend/src/asterisk/amiClient.ts:143-154 | a resolved action returned exactly its messages since it was issued, up to the first completing one |
| AmiDemux.PendingNotCompleted | backend/src/asterisk/amiClient.ts:143-154 | a pending action holds all its messages and none completes it |
| AmiDemux.RejectedExactly | backend/src/asterisk/amiClient.ts:94-181 | a pending action is rejected by its timer, its write, the connection or the disconnect, each with its own reason, and by nothing else |
| AmiDemux.ListActionResolves | backend/src/asterisk/amiClient.ts:146-153 | an action with a completion event that is not rejected resolves if and only if that event arrives for it, with its messages up to the first such and no earlier response |
| AmiDemux.PlainActionResolves | backend/src/asterisk/amiClient.ts:146-153 | any other resolves if and only if a response arrives for it, with its messages up to the first |
| AmiDemux.IssuedAsSent | backend/src/asterisk/amiClient.ts:156-174 | what an action asked for, and since when it collects, stays as sent in every later state |
| AmiDemux.FirstSettlementIsFinal | backend/src/asterisk/amiClient.ts:168-181 | nothing later changes how an action was settled |
| History.RunIsBounded | frontend/src/historyState.ts:12-14 | past and future together never exceed max(1, limit) |
| History.UndoRedoInverse | frontend/src/historyState.ts:40-58 | undo and redo are exact inverses in every reachable state |
| History.HistoryRefinesTimeline | frontend/src/historyState.ts:12-66 | every run is a view of a timeline with a cursor that forgets nothing |
| History.DirtyIff | frontend/src/historyState.ts:68-70 | in every run the editor is dirty exactly when the value shown differs from the one saved last |
| History.UndosReadTimeline | frontend/src/historyState.ts:40-48 | k undos show the value the timeline holds k places back |
| History.RedosUndoUndos | frontend/src/historyState.ts:40-58 | k redos take k undos back exactly |
| History.EditsCanBeUndone | frontend/src/historyState.ts:24-48 | up to max(1, limit) edits can all be undone |
| History.SavingKeepsHistory | frontend/src/historyState.ts:60-66 | saving keeps undo and leaves the editor clean |
| Wav.EncodeHeader | frontend/src/audio.ts:64-76 | the header bytes, written in place |
| Wav.EncodeWav | frontend/src/audio.ts:55-87 | the file bytes |
| Wav.ScanChunks | backend/src/asterisk/sounds.ts:90-111 | the walk finds the last format and the last data size of the chunk decomposition, or a truncated chunk |
| Wav.ParseWav | backend/src/asterisk/sounds.ts:84-124 | the verdict, with every rejection in its order |
| WavTheorems.RecordingAcceptedIff | backend/src/asterisk/sounds.ts:84-124 | a recording is accepted if and only if its rate is 8 or 16 kHz and it has a sample, and is then described as it is |
| WavTheorems.HeaderSizes | frontend/src/audio.ts:64-76 | the size fields are the bytes behind them, the bytes a second and the bytes a sample |
| WavTheorems.SamplesReadBack | frontend/src/audio.ts:78-84 | every stored sample reads back as the truncated scaled value: none wraps |
| WavTheorems.SampleFits | frontend/src/audio.ts:80-82 | full scale or more is stored as 32767 or -32768, anything else within one step of its exact value, toward zero |
| WavTheorems.SamplesKeepOrder | frontend/src/audio.ts:79-82 | a louder sample is never stored as a quieter one |
| WavTheorems.WalkIsDecomposition | backend/src/asterisk/sounds.ts:94-111 | for any bytes, the walk returns a list of chunks if and only if they tile the file |
| WavTheorems.AcceptedIff | backend/src/asterisk/sounds.ts:84-124 | any upload is accepted with a header if and only if it is a WAV file whose last format and last data chunk are so |
| WavTheorems.RejectedFor | backend/src/asterisk/sounds.ts:84-124 | any other upload is rejected for the first fault of its size, tags, chunks, last format and data |

## Left out

- Validator.ValidateTopology: starts from a typed topology; the shape checks on untyped JSON before it, labels and message texts are not modelled.
- NodeRules.ValidateNodes: whether a greeting file exists and whether a date or time zone is accepted by the runtime are parameters (`Environment`).
- CycleTheorems.UnsafeLoopReported: the special case without commas and truncation; the general statement is ReportIsRightExactlyWhen.
- ScheduleTranslation.TranslationPreservesMeaning: starts from local date, weekday and minute; time zones and `Intl` are not modelled, and GotoIfTime ranges are whole minutes, both ends included.
- CallTheorems.CompiledCallflowIsFaithful: relies on the machine of `Dialplan` for what Asterisk does: an answered Dial or Queue and a recorded message end the call, menus read one key, time passes only while a step waits.
- Progress.CompiledCallsSettle: how long a wait lasts is left open; that it runs out is one of the events.
- Emitter.GenerateExtensionsConf: text details (comments, escaping of labels, the header) and the values `configValue` rejects are not modelled; neither are the PJSIP, queue and voicemail files.
- Database.PbxDatabase.SaveTopology: actors, comments, summaries, timestamps and audit rows are left out of the tables; the audit insert can fail only in key rotation.
- Database.PbxDatabase.RollbackTopology: the audit row written after its transaction is left out, so is a fault there.
- StoreTheorems.RotationKeepsPlain: encryption is symbolic: a sealed value opens only with its key, key id and context.
- LoginLimiter.AtMostEightFailures: checking and recording are one step; password verification between them is asynchronous in the program.
- Deploy.Deployer.DeployTopology: one deployment at a time; files are names, a switch is one step, the canary answers exactly when Asterisk has read the linked files, and the corruption hooks for test environments are not modelled.
- DeployTheorems.RunKeepsAgreement: deployments do not overlap, since the program has no lock against it.
- Ami.AmiClient.ReadBlock: field names that JavaScript objects treat specially, such as `__proto__`, are ordinary names here.
- AmiDemux.RunConsistent: listeners of emitted messages, and the reconnect and login logic around the socket, are not modelled.
- History.HistoryRefinesTimeline: values are compared by equality instead of by their JSON text, and the limit is a whole number that stays fixed over a run.
- Wav.EncodeWav: samples are real numbers; NaN, infinities and the rounding of 32-bit floats are not modelled.
- HTTP routes, sessions, user accounts, the user interface, status polling, backups and the file handling around sounds: plumbing around the parts above.
