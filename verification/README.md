# Owned runtime, direct link, HTTP catalogue and disc identity: a verified model

This project models the parts of PS2 Servers whose safety claims span several
functions, and proves those claims for all inputs and all runs.

* **Owned RetroAchievements runtime** (`launcher/ra_*.py`). Snapshot datagrams are
  parsed (`SnapshotParsing`, `SnapshotDatagrams`) and assembled (`SnapshotAssembly`,
  `AssemblyRuns`); a one-console receiver leases, identifies and transfers (`WatchLists`,
  `WatchFiles`, `WatchSessions`, `Receivers`, `ReceiverRuns`, `ReceiverAnswers`); an
  evaluator keeps temporal history (`Evaluators`, `EvaluatorRuns`, `MemoryReads`); both
  are kept in step (`EvaluatedReceivers`, `AttributionRuns`, `SetPublications`); account
  sessions commit results (`AccountSessions`, `AccountRuns`, `AccountCommits`,
  `AccountWorkers`); and the owned service runs all of it under one lock (`OwnedServices`,
  `OwnedProfiles`, `ServiceRuns`, `ServiceGuarantees`, `ServiceDelivery`,
  `ServiceAttribution`, `ServiceCallbacks`, `ServiceFrames`).
* **Direct link** (`launcher/directlink.py`): `Subnets`, `Rehoming`,
  `DhcpPackets`, `Responders`, `ResponderAnswers`.
* **Path-aware HTTP catalogue** (`http_server/http_server.py`): `Utf8Text`, `HttpPaths`,
  `HttpCatalogues`, `HttpListings`, `HttpLookups`.
* **Bounded ISO9660 inspection** (`launcher/disc_identity.py`): `DiscVolumes`,
  `BootSettings`, `DiscIdentities`, `DiscReaders`.

Objects that the source updates in place are classes. Each of their methods is
proved equal to one step of a specification on values (`Model() == Step(old(Model()))`);
invariants and run theorems are then proved of that specification by induction
over runs. Of each operation it is proved both what it may do and what it must: when exactly it
answers, accepts, publishes or hands out, in terms of what was sent, recorded or called. Clock readings, received packets, answers of child processes and of the
native achievement runtime are parameters, so a theorem over runs holds for all
of them. The owned service is a sequence of atomic steps taken at the source's
lock boundaries; callers may step at any time, the owner thread in its own order.

Addresses are 32-bit values; `a >> k` and masking are quotient and remainder by
powers of two. `str.lower` is a parameter of the catalogue; the base-path results
ask of it only that it neither makes nor removes slashes.

## Findings

The code was followed where it and its documentation disagree. Each of these is
a theorem that gives the exact condition; most come with a run or an input that reaches it.

* `EvaluatedReceiver.take_jobs` reconciles before the inner receiver reads the clock
  again. When the lease runs out between the two readings, the list is gone and its
  evaluator still open until the next call (`PollMayLag`, `InStepUnlessLapsed`, `PollLags`).
* `Evaluator.evaluate` records the sequence before it rebuilds after missing memory. If
  that rebuild fails and the caller goes on, the incomplete snapshot stays in the
  native history (`TemporalIsolation`, `FailedRecoveryLeaks`, `OneByteListLeaks`). The owned
  service does not go on, so it never shows there (`NativeHistoryIsComplete`).
* `AccountWorker` sets the time of the next attempt only after the resolver has returned. An
  exception out of the resolver leaves the next attempt unspaced
  (`AttemptsAreSpacedUnlessBroken`, `BrokenAttemptIsNotSpaced`).
* The launcher gives its service an account profile and binds the receiver directly. From then on
  the receiver follows the session only after the session's next sign-in or logout
  (`ReceiverFollowsUnlessDiverted`, `DirectBindingDiverts`).
* A callback on the account session can let a caller take evaluations of an account that no caller
  asked for last. It does so for some continuation if and only if it leaves the receiver bound to
  such an account, or the service showing one (`HarmlessExactly`): by signing somebody in, or, where
  the receiver was bound directly while the session is signed in as somebody else, by doing nothing
  at all (`CallbacksBreakAttribution`). The launcher's own callback logs out, which is always
  harmless (`LogoutIsHarmless`).
* `plan_rehome` does not settle with neighbours in more than one /24: there is always a next
  plan (`TwoSubnetsNeverSettle`; `PlanningEndsUnlessTorn` and `MoveIsFinal` say when it does settle).
* The single-MAC tripwire of `DhcpResponder` is not sticky; the guarantee that one
  client is served rests on the loop ending at the first refusal
  (`RefusalIsNotRemembered`, `OneClientIsAnswered`).
* Below a configured base path, a listed folder of the same name hides the games
  outside it (`BasePathResolvesUnlessShadowed`, `FolderNamedLikeTheBaseHides`).

## Model

Main results come first, then the methods and invariants they rest on.

| member | source | states |
|---|---|---|
| `ServiceGuarantees.TakenSinceEveryRevocation` | launcher/ra_owned_service.py:131-214 | reset visibility: in every interleaving, what a caller takes was received after every reset, account clearing and change of account that returned before |
| `ServiceAttribution.TakenNamesTheCallersAccount` | launcher/ra_owned_service.py:139-214 | in every interleaving whose callbacks were harmless, with or without an account profile: a context on anything taken names the account the callers bound last, although binding is only queued for the owner thread |
| `ServiceCallbacks.HarmlessExactly` | launcher/ra_owned_service.py:319-333 | the condition, exactly: after harmless callbacks, one more turn with a callback keeps that promise for every continuation without further callbacks if and only if it leaves the receiver bound, and the service showing, nobody or the callers' last account |
| `ServiceAttribution.LogoutIsHarmless` | launcher/achievements.py:246-256 | a callback that ends by logging out, as the launcher's own does, is harmless whatever went before |
| `ServiceAttribution.LookingIsHarmlessExactly` | launcher/ra_owned_service.py:319-333 | a callback that does nothing is harmless exactly when the session is signed in as the callers' last account or nobody |
| `ServiceCallbacks.CallbacksBreakAttribution` | launcher/ra_owned_service.py:172-187 | two runs that reach a harmful callback and go on to break the promise: one callback signs somebody in, the other does nothing while the receiver is bound directly to one account and the session signed in as another |
| `ServiceAttribution.TakenNamesTheAccountOnArrival` | launcher/ra_owned_service.py:375-420 | callbacks or not, a context on anything taken names the account the receiver was bound to when its datagram came in |
| `ServiceAttribution.CallbackLeavesOldEvaluations` | launcher/ra_owned_service.py:319-333 | where the receiver is bound to one account and the session of the profile signed in as another: after a callback that does nothing, binding the session's account resets nothing, and the evaluation taken next names the other account |
| `ServiceFrames.TakenFrameIsJoined` | launcher/ra_owned_service.py:373-420 | end to end: the frame of anything taken was completed by the datagram it arrived with, after every chunk of the list had been sent, and is the in-order join of parts of its own number, one for each slot, admitted while that same list was installed |
| `ServiceFrames.TakenListWasSent` | launcher/ra_owned_service.py:373-420 | the telemetry gate for a whole service: anything taken arrived after every chunk of its list was sent, in the same run, to the lease its frame came from and since that list was installed |
| `ServiceFrames.NativeHistoryIsComplete` | launcher/ra_owned_service.py:375-385 | in every interleaving the native runtime of a service has been fed complete snapshots with successive numbers and nothing else: where isolation could break, the owner thread ends |
| `ServiceDelivery.HandedOutExactly` | launcher/ra_owned_service.py:189-214 | delivery, exactly: a frame handed out is the oldest put since the queues were last emptied and not taken yet, an evaluation the oldest such unlock or else the newest routine one, and nothing is handed out while a revocation is unanswered |
| `ServiceDelivery.ReceivedIsPut` | launcher/ra_owned_service.py:373-420 | nothing is lost on the way: what the owner received and did not fail on is put when the owner comes to it, whatever callers do meanwhile, if and only if no revocation pends |
| `ServiceDelivery.FramesInOrder` | launcher/ra_owned_service.py:189-202 | frames come out in strictly increasing arrival order |
| `ServiceGuarantees.EvaluationsInOrder` | launcher/ra_owned_service.py:204-214 | evaluations come out in strictly increasing arrival order although unlocks wait in a queue and routine results in one cell |
| `ServiceGuarantees.FramesAreAccountedFor` | launcher/ra_owned_service.py:399-420 | at every moment of every run: frames put = taken + counted as dropped + discarded by a named step + still queued |
| `ServiceGuarantees.UnlocksAreAccountedFor` | launcher/ra_owned_service.py:410-419 | the same balance for unlock evaluations; routine telemetry never displaces one |
| `ServiceRuns.AlwaysOrdered` | launcher/ra_owned_service.py:335-438 | invariant of every interleaving, restarts and abrupt ends included: a pending reset means empty queues; queues are in arrival order, of one generation, within capacity, and newer than the last revocation |
| `AttributionRuns.EvaluationsAreAttributed` | launcher/ra_evaluated_receiver.py:152-172 | every frame that comes out was evaluated by the evaluator of the installed list; a context on it names the bound account and the identified image |
| `AttributionRuns.InStepUnlessLapsed` | launcher/ra_evaluated_receiver.py:87-150 | at every moment of every run a list is installed exactly when a live evaluator of its generation exists, if and only if the last poll did not outlive the lease between its two clock readings |
| `AttributionRuns.PollMayLag` | launcher/ra_evaluated_receiver.py:106-109 | taking jobs is in step afterwards exactly when the lease did not run out between the two readings of the clock |
| `AttributionRuns.PollLags` | launcher/ra_evaluated_receiver.py:106-109 | for every list, a history of three calls, with one achievement, in which that happens |
| `AttributionRuns.AlwaysAccounted` | launcher/ra_evaluated_receiver.py:41-182 | in every run at most one native runtime is live, a context implies its evaluator, and the account is the one bound last |
| `AttributionRuns.NativeStateIsReleased` | launcher/ra_evaluated_receiver.py:174-186 | native runtimes never accumulate and a reset leaves none |
| `SetPublications.SetIsPublished` | launcher/ra_evaluated_receiver.py:56-85 | a qualified set is published, exactly: for the bound account, the pending job and its image, when lease and job last through all three clock readings and the set is sound; then its own evaluator, list, title and context are in effect; while nothing runs out, an awaited set that is not sound raises and leaves nothing, and any other is ignored and gives up the job it came for |
| `SetPublications.ResultIsPublished` | launcher/ra_evaluated_receiver.py:111-150 | any other result, exactly: for the pending job while lease and job last, when it can be used; then a list with its evaluator, a lack of support, or nothing is in effect |
| `SetPublications.PollHandsOut` | launcher/ra_evaluated_receiver.py:106-109 | a poll hands out the queued job exactly when lease and job last through both clock readings |
| `SetPublications.FrameIsEvaluated` | launcher/ra_evaluated_receiver.py:152-172 | a frame is evaluated by the evaluator at hand, on its own values, generation and number, and given the context at hand |
| `EvaluatorRuns.TemporalIsolation` | launcher/ra_evaluator.py:114-198 | the native history is one run of consecutive complete snapshots ending at the tracked frame, if and only if no rebuild failed after a snapshot with missing memory |
| `EvaluatorRuns.FailedRecoveryLeaks` | launcher/ra_evaluator.py:114-119 | for every list and every read of one, two or four bytes that a snapshot does not serve: a life in which that rebuild fails and the incomplete snapshot stays in the history of an accepted frame |
| `EvaluatorRuns.OneByteListLeaks` | launcher/ra_evaluator.py:114-119 | such a life for a concrete list, which validates, and a read the native library makes |
| `EvaluatorRuns.AcceptedFrameEndsHistory` | launcher/ra_evaluator.py:160-198 | an accepted frame is the last of the history and extends or restarts it; a replayed, backward or foreign frame changes nothing at all |
| `EvaluatorRuns.ReportedByOneCall` | launcher/ra_evaluator.py:195-198 | no achievement is reported by two calls, across gaps, rebuilt runtimes and failures |
| `EvaluatorRuns.ReportedOnceInCall` | launcher/ra_evaluator.py:195-198 | nor twice in one call, given a native runtime that raises an ID at most once a frame |
| `EvaluatorRuns.EventsArePassedOn` | launcher/ra_evaluator.py:187-198 | what an accepted call passes on: the raised events at strictly increasing positions, leaving out exactly the triggers of achievements that an earlier call reported |
| `EvaluatorRuns.ResultIsDecided` | launcher/ra_evaluator.py:160-198 | when a call is accepted, refused, starts over or raises, exactly, by generation, size, number, allocation and the entries that hold its reads; the missing reads are exactly those no entry holds |
| `EvaluatorRuns.RebuiltWatchesUnreported` | launcher/ra_evaluator.py:95-119 | a runtime built anew watches exactly the achievements that no call has reported |
| `MemoryReads.ReadsAreTrue` | launcher/ra_evaluator.py:135-158 | a read that a snapshot serves, direct or through a pointer, has the value of the memory the snapshot was taken from |
| `MemoryReads.WatchedIsServed` | launcher/ra_evaluator.py:135-158 | every watched entry is served whole, and every pointer that leads somewhere |
| `AccountRuns.AcceptedTaskIsTheLastBegun` | launcher/ra_account_worker.py:366-403 | commit safety: an accepted result belongs to the task begun last, in the current epoch, with nothing begun and nobody signed out since |
| `AccountRuns.AcceptedOnce` | launcher/ra_account_worker.py:366-403 | no task is accepted twice |
| `AccountRuns.SupersededTasksAreCancelled` | launcher/ra_account_worker.py:293-300 | every task ever issued that is not the pending one has its cancel event set |
| `AccountRuns.ContextsNameTheSignedInAccount` | launcher/ra_account_worker.py:271-292 | the session's stored context always names the current credentials in the current epoch |
| `AccountRuns.ReceiverFollowsUnlessDiverted` | launcher/ra_account_worker.py:366-416 | the receiver is bound to the signed-in account, and a context it holds names it, if and only if the receiver was not last bound or cleared directly, to another account, since the session signed in or out |
| `AccountRuns.DirectBindingDiverts` | launcher/achievements.py:222-232 | the launcher binds the receiver directly: there it holds a context of that account while the session is signed out |
| `AccountRuns.ForgottenStaysForgotten` | launcher/ra_account_worker.py:405-416 | after a logout that removed credentials, anything stored was saved by a sign-in begun after that logout |
| `AccountRuns.AlwaysAligned` | launcher/ra_account_worker.py:271-416 | the joint invariant of session, store and receiver over every life, whatever else is done with the receiver |
| `AccountCommits.AcceptedExactly` | launcher/ra_account_worker.py:366-403 | what is accepted, exactly: a sound, current result whose payload is what its task asked for; what it leaves behind in session, store and receiver, and that nothing else changes; a current result that is not accepted only uses up its task |
| `AccountCommits.AcceptedWasAskedFor` | launcher/ra_account_worker.py:316-403 | from request to commit: the operation an accepted result fulfils was asked for by an earlier call, in its own words, under the account of that moment |
| `AccountCommits.BegunExactly` | launcher/ra_account_worker.py:293-364 | a call begins a task exactly when it asks for an operation it may ask for and an identity is left, with the next serial, the epoch and the signed-in credentials |
| `AccountCommits.LogoutIsComplete` | launcher/ra_account_worker.py:405-416 | a logout leaves nothing of the account in session and receiver, and in the store only what is not to be or cannot be removed |
| `AccountWorkers.AttemptsAreSpaced` | launcher/ra_account_worker.py:244-268 | an attempt is at least the minimum interval after every earlier one that came back from the resolver, and never before the end of the wait that one's rate limit asked for |
| `AccountWorkers.AttemptsAreSpacedUnlessBroken` | launcher/ra_account_worker.py:244-268 | the minimum interval is kept after an attempt if and only if it, or an attempt since, came back from the resolver |
| `AccountWorkers.BrokenAttemptIsNotSpaced` | launcher/ra_account_worker.py:260-268 | two attempts at one moment, for any interval: an exception out of the resolver leaves no wait |
| `AccountWorkers.AnswerIsItsOwn` | launcher/ra_account_worker.py:244-268 | what a call returns, exactly: its child's result when it may run and the result names this task and epoch, the exception of its own child, and otherwise nothing |
| `AccountWorkers.AttemptedExactly` | launcher/ra_account_worker.py:244-258 | a call is attempted exactly when it is not cancelled and keeps clear of every earlier attempt that came back: none is turned away needlessly |
| `ReceiverRuns.TelemetryGate` | launcher/ra_receiver.py:143-158 | a frame comes out only after every chunk of the installed list was sent since its installation to the lease it belongs to |
| `ReceiverRuns.JobCompletesOnceUninterrupted` | launcher/ra_receiver.py:98-122 | a completed job was issued, was pending without interruption since, and completes never again |
| `ReceiverRuns.InterruptionsGrowToken` | launcher/ra_receiver.py:64-92 | clearing, expiry and a new identity strictly grow the token |
| `ReceiverRuns.AnswersAreVouchedFor` | launcher/ra_receiver.py:193-212 | OK is answered only with a list to describe and NO only for an identity whose last completion was explicitly unsupported |
| `ReceiverRuns.AlwaysConsistent` | launcher/ra_receiver.py:64-212 | the sent chunks are always indices of the installed list, a pending job carries the current token, an installed list has an identity |
| `ReceiverAnswers.AskedIsAnswered` | launcher/ra_receiver.py:193-212 | every identification request that is listened to is answered by the verdict that stands for its identity, OK with length, chunks, achievements and title or NO; and with WAIT exactly when none stands, and then a job for it is pending |
| `ReceiverAnswers.FetchIsServed` | launcher/ra_receiver.py:184-192 | every admitted chunk request is served with the bytes of the list that stands for its image; any other draws nothing |
| `ReceiverAnswers.FrameComesOut` | launcher/ra_receiver.py:143-158 | the gate, exactly: a part of the lease's telemetry gives a frame if and only if every chunk of the list was sent to this lease and the assembler completes its value with it |
| `ReceiverAnswers.TokenGrowsExactly` | launcher/ra_receiver.py:64-92 | the token grows on clearing, on either expiry and on a new identity, and never otherwise |
| `ReceiverAnswers.LeaseMoves` | launcher/ra_receiver.py:138-176 | who holds the lease after a call and since when it counts, exactly |
| `ReceiverAnswers.JobIsHandedOutOnce` | launcher/ra_receiver.py:88-92 | an uninterrupted job is handed out by the first poll and by no later one |
| `ReceiverAnswers.CompletionIsDecided` | launcher/ra_receiver.py:98-122 | a result is published exactly when its job is pending and has not run out and it can be used |
| `ReceiverAnswers.RequestsAreLimited` | launcher/ra_receiver.py:124-163 | whatever a console sends, at most twice the rate of its requests are listened to within one second |
| `AssemblyRuns.CutIsReassembled` | launcher/ra_protocol.py:220-268 | completeness: any order, duplicates and foreign, malformed or stale packets between, the pieces of a cut string give exactly that string on the packet that fills the last index, and nothing after |
| `AssemblyRuns.FramesAreSoundAndOrdered` | launcher/ra_protocol.py:220-268 | soundness: every value is the in-order join of parts of one number and count fed since one adoption, no part of that number fed since then says anything else, and positions on an unbounded counter strictly increase between resets |
| `AssemblyRuns.RetainedBytesBounded` | launcher/ra_protocol.py:250-253 | retained bytes never exceed the largest accepted size |
| `AssemblyRuns.ContradictionSilences` | launcher/ra_protocol.py:238-248 | once two parts of one number contradict each other, nothing comes out until a reset, the idle timeout or a newer number, whichever parts follow |
| `SnapshotParsing.RenderedIsParsed` | launcher/ra_protocol.py:154-188 | every datagram of the console layout parses to its part, fields in any order and extra fields allowed |
| `SnapshotParsing.ParsedWasRendered` | launcher/ra_protocol.py:154-188 | the converse: whatever is accepted has that layout, so the accepted language is exactly the layout |
| `SnapshotParsing.PayloadIsIsolated` | launcher/ra_protocol.py:154-188 | no payload, whatever header text it imitates, changes how the header is read |
| `SnapshotDatagrams.PrintedIsParsed` | launcher/ra_protocol.py:154-188 | what a console prints, digit by digit, parses to just that number, count, slot, part count, serial and payload |
| `WatchLists.ValidatedIsWellLaidOut` | launcher/ra_watchlist.py:30-57 | a validated file has reads of one, two or four bytes, no forward pointer, sizes that add up, and frames that fit the protocol |
| `WatchLists.DirectListValidates` | launcher/ra_watchlist.py:30-57 | what a generator of direct lists writes validates, entry by entry |
| `WatchFiles.WrittenListValidates` | launcher/ra_watchlist.py:30-57 | whatever a generator may write, entries and pointer nodes, validates with its own dimensions, addresses and sizes |
| `WatchFiles.ValidatedWasWritten` | launcher/ra_watchlist.py:30-57 | the converse: whatever validates was written so, word by word |
| `WatchLists.Validate` | launcher/ra_watchlist.py:30-57 | the validation loops compute the specified verdict |
| `Subnets.OverlapMeansSharedAddress` | launcher/directlink.py:223-228 | two prefixes overlap exactly when some 32-bit address lies in both, for all lengths 0 to 32 |
| `Subnets.ChooseSubnet` | launcher/directlink.py:714-726 | the first candidate that shares no address with any taken network, and none exactly when all collide |
| `Rehoming.PlanIsValid` | launcher/directlink.py:864-922 | every move is a valid topology, avoids all neighbours, reaches one of them and is a move |
| `Rehoming.PlanChoosesLowest` | launcher/directlink.py:864-922 | which move is planned, by lowest free hosts: next to the first outside neighbour, else within the contested subnet with the client left alone when it can be |
| `Rehoming.PlanExists` | launcher/directlink.py:864-922 | there is a plan exactly when the first neighbour outside has room in its /24, or when a neighbour shares our subnet, our address is lost or contested, and the subnet has room for another pair |
| `Rehoming.MoveIsFinal` | launcher/directlink.py:864-922 | one move is final exactly when the neighbours leave no second one: over the inputs, unless the first neighbour outside has room in its /24 and so has the first neighbour outside that |
| `Rehoming.PlanningEndsUnlessTorn` | launcher/directlink.py:864-922 | what repeated planning comes to, for any neighbours: it goes on for ever exactly when the first neighbour, and the first one in another /24, both leave room; otherwise at most one further move follows |
| `Rehoming.TwoSubnetsNeverSettle` | launcher/directlink.py:895-904 | with at most 252 neighbours and one outside our /24, planning ends after one move if all are in one /24, and otherwise goes on for ever |
| `Subnets.StaticClientSettings` | launcher/directlink.py:176-207 | settings exist exactly for prefixes up to 29: the first spare address after the lease, else the lowest, distinct from server and lease; the mask of the prefix; and the server as gateway |
| `DhcpPackets.WalkRecovers` | launcher/directlink.py:1108-1119 | the option walk recovers every well-formed option area with fillers, up to END and whatever follows |
| `DhcpPackets.DiscoverIsParsed` | launcher/directlink.py:1259-1269 | the probe is read back whole: transaction, MAC, flags and options |
| `DhcpPackets.OwnRepliesAreNoticed` | launcher/directlink.py:1272-1315 | every OFFER, ACK or NAK the responder can build names its server to a prober of the same transaction and to no other |
| `DhcpPackets.WellFormedReplyIsNoticed` | launcher/directlink.py:1272-1315 | any server's well-formed reply is noticed exactly by its own transaction and named by its server option |
| `DhcpPackets.ForeignServerExactly` | launcher/directlink.py:1272-1315 | who is noticed, exactly, over all well-formed messages, and by which of its two fields it is named |
| `DhcpPackets.RequestIsRead` | launcher/directlink.py:1100-1126 | every well-formed BOOTREQUEST is read back, its MAC at the announced length or six bytes; nothing else is a request |
| `Responders.AnswersAreLimited` | launcher/directlink.py:1549-1557 | the events of any stretch of a run draw at most 8 answers plus 4 for each second it spans |
| `Responders.OneClientIsAnswered` | launcher/directlink.py:1559-1638 | until the first refusal every answer goes to one MAC, which is not the probe's |
| `Responders.AnswersGrantTheLease` | launcher/directlink.py:1570-1651 | an answer is an OFFER or ACK of the one lease address to the asking hardware; a wildcard socket never answers with a limited broadcast |
| `Responders.RefusalIsNotRemembered` | launcher/directlink.py:1559-1568 | the tripwire fires exactly on a further unrecorded MAC, and the packet it refused is served when handed in again |
| `ResponderAnswers.AnsweredExactly` | launcher/directlink.py:1570-1638 | what is answered, exactly: a DISCOVER, or a REQUEST for the leased address that is not another server's, from the one client while there is a token; a request for any other address gets silence |
| `ResponderAnswers.AnswerIsBuilt` | launcher/directlink.py:1602-1651 | an OFFER answers a DISCOVER and an ACK a REQUEST; it goes to a renewing client's own address, else to the last address of our subnet on a wildcard socket, else to everyone |
| `ResponderAnswers.PatientClientIsServed` | launcher/directlink.py:1549-1557 | the rate limit turns nobody away who keeps it: fewer than eight packets before, or none in the last quarter of a second |
| `ResponderAnswers.TraceIsKept` | launcher/directlink.py:1559-1601 | what every packet leaves behind in MACs and lease |
| `HttpLookups.ListedGamesLaunchAsThemselves` | http_server/http_server.py:607-668 | requesting the percent-encoded path of any listed row leads through decoding, normalising and lookup to that row |
| `HttpLookups.ServedIsFaithful` | http_server/http_server.py:786-809 | for any request, a served row equals, up to case, a whole-segment suffix, and a match that is not exact is unique |
| `HttpLookups.LookupExactly` | http_server/http_server.py:786-809 | what is served, exactly: the longest whole-segment suffix that folds to a listed row decides, and leads to the row of exactly that path or to the only one that folds to it |
| `HttpLookups.OtherCaseIsServed` | http_server/http_server.py:786-809 | a request that differs from one listed path in case only is served that row |
| `HttpLookups.BasePathResolvesUnlessShadowed` | http_server/http_server.py:786-809 | below a base path a listed path leads to its row if and only if no longer suffix folds to a listed row |
| `HttpLookups.FolderNamedLikeTheBaseHides` | http_server/http_server.py:786-809 | a listed game below a folder named like the base always hides its namesake outside it |
| `HttpCatalogues.CatalogueRoundTrip` | http_server/http_server.py:170-176 | parsing the generated body after RFC 4180 gives exactly the retained rows in order, for any titles and paths |
| `HttpCatalogues.CatalogueWithinLimits` | http_server/http_server.py:672-705 | at most 2048 rows and 262144 bytes, distinct STARTUPs, and entries = retained + invalid + duplicate + dropped |
| `HttpCatalogues.NothingLeftOutNeedlessly` | http_server/http_server.py:672-705 | an acceptable row is left out only for an earlier retained row of its STARTUP, or because the finished list has 2048 rows or no room for its line |
| `HttpCatalogues.CountersAreExact` | http_server/http_server.py:672-705 | the invalid, duplicate and dropped counts mean what they say, row by row |
| `HttpCatalogues.GoodRowsAreClean` | http_server/http_server.py:189-226 | the ordered checks refuse exactly the rows that break one of the console's rules, stated without their order |
| `HttpListings.ChosenAreFirst` | http_server/http_server.py:624-632 | the candidates are exactly the files that are the first for their path |
| `HttpListings.ListedInOrder` | http_server/http_server.py:607-705 | the listed rows are files that were the first found for their path, in order of folded path and then path, each path once |
| `HttpListings.ListIgnoresScanOrder` | http_server/http_server.py:607-705 | two scans that find the same files in any order, no two for one path, give the same list to the byte |
| `HttpCatalogues.RetainedInOrder` | http_server/http_server.py:672-705 | the retained rows are those of the sorted order at increasing positions |
| `DiscVolumes.VerifiedMeansResolved` | launcher/disc_identity.py:153-183 | "verified" means the whole boot path resolved, each piece the only record of its name, to bytes that start with the ELF signature |
| `DiscIdentities.VerifiedExactly` | launcher/disc_identity.py:153-183 | verified with this serial and path, exactly: SYSTEM.CNF boots that path, which leads, each piece the sole record of its name, to a file that starts with the ELF signature, under a serial name |
| `DiscIdentities.DamagedExactly` | launcher/disc_identity.py:170-178 | damaged, exactly: the path it boots breaks off, or leads to a file without the signature |
| `DiscIdentities.UnknownExactly` | launcher/disc_identity.py:153-182 | unknown, exactly: an executable under another kind of name, no SYSTEM.CNF, or none with exactly one usable BOOT2 setting |
| `DiscIdentities.PrimaryExactly` | launcher/disc_identity.py:100-118 | the volume is that of the first primary descriptor in sectors 16 to 47 with only other descriptors before it |
| `DiscIdentities.DescriptorIsRead` | launcher/disc_identity.py:109-117 | a plain primary descriptor gives its volume and root when the image holds them, and is refused otherwise |
| `DiscIdentities.DirectoryIsRead` | launcher/disc_identity.py:120-150 | a directory packed sector by sector lists exactly its records, in order |
| `DiscIdentities.ExtentExactly` | launcher/disc_identity.py:86-98 | a record gives an extent exactly when it is ordinary and records place and size in both byte orders, inside the volume |
| `BootSettings.BootLineIsFound` | launcher/disc_identity.py:158-171 | the boot path is found wherever its line stands among lines that do not set BOOT2 |
| `BootSettings.TwoSettingsBootNothing` | launcher/disc_identity.py:158-160 | two BOOT2 settings are as good as none |
| `BootSettings.BootPiecesExactly` | launcher/disc_identity.py:159-171 | what is booted, exactly: by the only setting, in one of its spellings, one path of one to eight usable pieces |
| `BootSettings.BootPathExactly` | launcher/disc_identity.py:161-163 | a setting stands for a path exactly when it spells it: device in any case, any separators, perhaps ";1", and white space around |
| `BootSettings.SpacedSettingIsRead` | launcher/disc_identity.py:159-159 | a line sets BOOT2 in either case and with blanks wherever they may stand |
| `BootSettings.SlashesAreAlike` | launcher/disc_identity.py:164-164 | both slashes part the pieces of a path |
| `DiscReaders.IsoReader.Inspect` | launcher/disc_identity.py:153-183 | the bounded inspection answers if and only if the image has an identity and finding it costs at most 4 MiB of reads and 8192 records, and then it answers that identity; an image that only costs too much is unsupported, never invalid; it reads inside the volume of the moment only |
| `DiscVolumes.BootPathIsRead` | launcher/disc_identity.py:159-171 | a boot path written the usual way, whatever other settings follow, is the path that is inspected |
| `DiscVolumes.PlainRecordIsRead` | launcher/disc_identity.py:86-98 | a plain directory record gives its extent to a search for its kind and is refused to the other |
| `DiscVolumes.BothRecovers` | launcher/disc_identity.py:58-63 | a number recorded in both byte orders is read back |
| `DiscVolumes.BothRefuses` | launcher/disc_identity.py:58-63 | two different numbers in the two orders are refused |
| `SnapshotAssembly.SnapshotAssembler.Feed` | launcher/ra_protocol.py:220-268 | refines the fragment step, timeout and wrap-around included |
| `SnapshotAssembly.SnapshotAssembler.Take` | launcher/ra_protocol.py:238-268 | refines what one fragment does to the current frame |
| `SnapshotAssembly.SnapshotAssembler.Assemble` | launcher/ra_protocol.py:257-266 | the join of all fragments in index order |
| `SnapshotAssembly.SnapshotAssembler.Retained` | launcher/ra_protocol.py:250-250 | the bytes held over all slots |
| `SnapshotAssembly.SnapshotAssembler.Reset` | launcher/ra_protocol.py:211-218 | back to the empty assembly |
| `AssemblyRuns.ObserverInv` | launcher/ra_protocol.py:220-268 | every state of a run is sound: held parts were delivered since adoption and emitted frames lie behind |
| `AssemblyRuns.ObserverFollowsRun` | launcher/ra_protocol.py:220-268 | the bookkeeping of the soundness proof follows the real run and its outputs |
| `AssemblyRuns.RunAssembles` | launcher/ra_protocol.py:220-268 | after the adopting piece the state is determined by which pieces have arrived |
| `SnapshotParsing.ParseSnapshot` | launcher/ra_protocol.py:154-188 | the loops compute the specified parse |
| `SnapshotParsing.ReadFields` | launcher/ra_protocol.py:168-173 | fields in any order, none ill-formed, none repeated |
| `SnapshotParsing.NoMarkerInFields` | launcher/ra_protocol.py:160-162 | the serial marker cannot occur inside well-formed fields |
| `WatchLists.ChunksRestoreFile` | launcher/ra_protocol.py:129-139 | the chunks in index order are the whole file |
| `WatchSessions.WatchSession.Install` | launcher/ra_watchlist.py:103-106 | a validated list, a fresh assembler, and the next generation |
| `WatchSessions.WatchSession.InstallFile` | launcher/ra_watchlist.py:95-106 | installs exactly when hash, serial and file are valid, the hash in lower case, and otherwise leaves everything as it was |
| `WatchSessions.WatchSession.Clear` | launcher/ra_watchlist.py:89-93 | no list, and the next generation |
| `WatchSessions.WatchSession.Serve` | launcher/ra_watchlist.py:108-112 | a chunk only of the installed list and within range |
| `WatchSessions.WatchSession.Feed` | launcher/ra_watchlist.py:114-116 | only an installed list assembles |
| `Receivers.Receiver.Clear` | launcher/ra_receiver.py:64-79 | revokes lease, job, identity, list and transfer together, and grows the token |
| `Receivers.Receiver.Tick` | launcher/ra_receiver.py:81-96 | refines expiry of lease and job |
| `Receivers.Receiver.TakeJobs` | launcher/ra_receiver.py:88-92 | hands the queued job out once |
| `Receivers.Receiver.Complete` | launcher/ra_receiver.py:98-122 | refines completion; stale results change nothing |
| `Receivers.Receiver.Ask` | launcher/ra_receiver.py:203-211 | a new identity drops the list and queues one job with a new token |
| `Receivers.Receiver.Answer` | launcher/ra_receiver.py:171-212 | refines the reply to one request |
| `Receivers.Receiver.ReceiveTelemetry` | launcher/ra_receiver.py:143-158 | refines the gated telemetry path |
| `Receivers.Receiver.ReceiveControl` | launcher/ra_receiver.py:159-183 | refines rate limit, lease adoption and reply routing |
| `Receivers.Receiver.Receive` | launcher/ra_receiver.py:124-212 | refines one datagram |
| `ReceiverRuns.SentWasServed` | launcher/ra_receiver.py:184-192 | a recorded chunk was served to this lease since this list was installed |
| `ReceiverRuns.FrameNeedsFullTransfer` | launcher/ra_receiver.py:143-158 | a frame implies an installed list whose chunk indices are all recorded as sent |
| `ReceiverRuns.PendingWasIssued` | launcher/ra_receiver.py:203-211 | a pending job was issued and has been pending ever since |
| `ReceiverRuns.CompletesOnce` | launcher/ra_receiver.py:98-122 | a completed job does not complete again |
| `ReceiverAnswers.OnlyTheAdmittedAreAnswered` | launcher/ra_receiver.py:124-171 | a request that is not listened to draws nothing |
| `ReceiverAnswers.OthersAreAnswered` | launcher/ra_receiver.py:174-183 | probes, heartbeats and acknowledgements, each with its own reply |
| `ReceiverAnswers.SentExactly` | launcher/ra_receiver.py:184-192 | exactly the chunks sent to the lease since the list was installed count as sent |
| `ReceiverAnswers.IssuedStaysPending` | launcher/ra_receiver.py:193-212 | an issued job stays pending while nothing moves the token and nothing is published |
| `ReceiverRuns.ReceivedKeepsList` | launcher/ra_receiver.py:124-212 | receiving never changes an installed list except by revoking it |
| `Evaluators.BuildMemory` | launcher/ra_evaluator.py:142-158 | a read gives a value exactly when it fits inside one entry, and the value of the first such entry |
| `Evaluators.AddReads` | launcher/ra_evaluator.py:134-140 | adds exactly the reads one entry can satisfy, without replacing earlier ones |
| `Evaluators.DirectReadsFirst` | launcher/ra_evaluator.py:142-158 | direct entries take precedence over pointer targets |
| `Evaluators.ReadFitsOneEntry` | launcher/ra_evaluator.py:134-140 | no read is satisfied across entries |
| `Evaluators.Evaluator.Evaluate` | launcher/ra_evaluator.py:160-198 | refines one evaluation, its failures included |
| `Evaluators.Evaluator.Select` | launcher/ra_evaluator.py:195-196 | drops exactly the triggers already reported |
| `EvaluatorRuns.StepTriggers` | launcher/ra_evaluator.py:195-198 | the triggered set grows by exactly what an accepted call reports |
| `EvaluatedReceivers.EvaluatedReceiver.BindAccount` | launcher/ra_evaluated_receiver.py:41-49 | a different identity revokes everything, the same one nothing |
| `EvaluatedReceivers.EvaluatedReceiver.ClearAccount` | launcher/ra_evaluated_receiver.py:51-54 | revokes everything and the account |
| `EvaluatedReceivers.EvaluatedReceiver.CompleteSet` | launcher/ra_evaluated_receiver.py:56-85 | a set is activated only for the bound account and the pending image |
| `EvaluatedReceivers.EvaluatedReceiver.Reconcile` | launcher/ra_evaluated_receiver.py:87-94 | an evaluator without its list is closed with its context |
| `EvaluatedReceivers.EvaluatedReceiver.TakeJobs` | launcher/ra_evaluated_receiver.py:106-109 | refines polling with its two clock readings |
| `EvaluatedReceivers.EvaluatedReceiver.Complete` | launcher/ra_evaluated_receiver.py:111-150 | a list is published together with its evaluator or not at all |
| `EvaluatedReceivers.EvaluatedReceiver.Offer` | launcher/ra_evaluated_receiver.py:128-150 | every failure on the way closes the candidate |
| `EvaluatedReceivers.EvaluatedReceiver.Receive` | launcher/ra_evaluated_receiver.py:152-172 | refines one datagram and its evaluation |
| `EvaluatedReceivers.EvaluatedReceiver.Reset` | launcher/ra_evaluated_receiver.py:174-180 | revokes jobs, wire ownership and native history together |
| `AttributionRuns.HandledKeeps` | launcher/ra_evaluated_receiver.py:152-172 | a complete frame is always evaluated, by the evaluator of its own generation |
| `AttributionRuns.ConcludedSetKeeps` | launcher/ra_evaluated_receiver.py:56-85 | completing a set keeps list, evaluator, account and context in step |
| `AccountSessions.AccountSession.NewTask` | launcher/ra_account_worker.py:293-300 | cancels the previous task and issues the next serial, within 32-bit limits |
| `AccountSessions.AccountSession.BeginSignIn` | launcher/ra_account_worker.py:301-315 | signing in starts by signing out |
| `AccountSessions.AccountSession.BeginSet` | launcher/ra_account_worker.py:316-324 | a set is asked for only for the signed-in account |
| `AccountSessions.AccountSession.BeginRequest` | launcher/ra_account_worker.py:325-365 | a request is for a context of the signed-in account in its epoch, by default the stored one, and is refused for any other |
| `AccountSessions.AccountSession.Accept` | launcher/ra_account_worker.py:366-403 | refines acceptance and every reason for refusing |
| `AccountSessions.AccountSession.Apply` | launcher/ra_account_worker.py:366-403 | refines what an accepted result of each operation commits |
| `AccountSessions.AccountSession.Logout` | launcher/ra_account_worker.py:405-416 | cancels, ends the epoch, clears session and receiver, and removes the store only when asked |
| `AccountRuns.TakeAligned` | launcher/ra_account_worker.py:271-416 | every operation keeps the joint invariant |
| `AccountRuns.NothingBegunMeanwhile` | launcher/ra_account_worker.py:293-300 | between the begin and the acceptance of a task no other task was begun |
| `AccountRuns.StoreChangesBySaving` | launcher/ra_account_worker.py:366-403 | the store fills only by accepting a sign-in |
| `AccountWorkers.ValidAccountResult` | launcher/ra_account_worker.py:90-170 | accepts exactly: one sound payload of the kind its operation returns and no wait for a success, none for a failure, and a wait of 1 to 300 for a rate limit |
| `AccountWorkers.SetIsSound` | launcher/ra_account_worker.py:135-171 | the same rules over sets: no achievement twice by count, all of them selected and none unlocked before |
| `AccountWorkers.CheckSet` | launcher/ra_account_worker.py:129-170 | accepts exactly the bounded sets whose achievements are defined once, selected, and not unlocked before |
| `AccountWorkers.ScanDefinitions` | launcher/ra_account_worker.py:139-152 | one pass finds every ill-formed or repeated definition and adds up the lengths |
| `AccountWorkers.AccountWorker.Run` | launcher/ra_account_worker.py:244-268 | refines pacing and backoff, passes an exception on with the wait unset, and returns only the answer to this task and epoch |
| `OwnedServices.OwnedService.Reset` | launcher/ra_owned_service.py:131-137 | hides everything queued and leaves the revocation pending |
| `OwnedServices.OwnedService.BindAccount` | launcher/ra_owned_service.py:139-155 | refuses an impossible identity and changes nothing; otherwise hides everything exactly when the identity changes, and queues the command |
| `OwnedServices.OwnedService.ClearAccount` | launcher/ra_owned_service.py:157-170 | a service without a profile refuses to forget credentials; otherwise hides everything, advances the epoch and queues the command |
| `OwnedServices.OwnedService.TakeFrame` | launcher/ra_owned_service.py:189-202 | the oldest frame, or none while a reset is pending |
| `OwnedServices.OwnedService.TakeEvaluation` | launcher/ra_owned_service.py:204-214 | an unread unlock first, else the latest routine evaluation once |
| `OwnedServices.OwnedService.DiscardFrame` | launcher/ra_owned_service.py:121-129 | both queues, the cell and their generation are emptied |
| `OwnedServices.OwnedService.DrainCommands` | launcher/ra_owned_service.py:292-333 | a service without a profile obeys the queued account commands in order |
| `OwnedServices.OwnedService.Top` | launcher/ra_owned_service.py:338-347 | a pending reset is carried out before the commands |
| `OwnedServices.OwnedService.CheckGeneration` | launcher/ra_owned_service.py:363-385 | another generation discards what was queued |
| `OwnedServices.OwnedService.Receive` | launcher/ra_owned_service.py:375-385 | refines receiving; an evaluator that cannot be rebuilt ends the thread |
| `OwnedServices.OwnedService.Enqueue` | launcher/ra_owned_service.py:399-420 | queues frame and evaluation together, or nothing while a reset is pending |
| `OwnedServices.OwnedService.Shutdown` | launcher/ra_owned_service.py:421-438 | a service without a profile: commands obeyed, then everything released |
| `OwnedProfiles.ProfiledService.ClearAccount` | launcher/ra_owned_service.py:157-170 | with a profile: hides everything, advances the epoch, and queues the command with the choice to forget |
| `OwnedProfiles.ProfiledService.RunAccount` | launcher/ra_owned_service.py:172-181 | a callback is queued for the owner thread |
| `OwnedProfiles.ProfiledService.LogOut` | launcher/ra_owned_service.py:305-310 | a clearing logs the session out, forgetting the credentials when asked, and shows that nobody is signed in |
| `OwnedProfiles.ProfiledService.RunCalls` | launcher/ra_owned_service.py:319-323 | a callback is a sequence of calls on the session, each as specified |
| `OwnedProfiles.ProfiledService.CallBack` | launcher/ra_owned_service.py:319-333 | a callback runs on the session; then the session's account is shown, and another generation discards what was queued |
| `OwnedProfiles.ProfiledService.DrainCommands` | launcher/ra_owned_service.py:292-333 | with a profile: binding, logging out and callbacks are obeyed in order |
| `OwnedProfiles.ProfiledService.Top` | launcher/ra_owned_service.py:338-347 | with a profile: a pending reset is carried out before the commands |
| `OwnedProfiles.ProfiledService.Shutdown` | launcher/ra_owned_service.py:421-438 | with a profile: commands obeyed, the session signed out, then everything released |
| `OwnedProfiles.ProfiledService.Receive` | launcher/ra_owned_service.py:375-438 | refines receiving for a service with a profile; an evaluator that cannot be rebuilt ends the thread |
| `ServiceRuns.StepOrdered` | launcher/ra_owned_service.py:335-420 | every step keeps the queue invariant |
| `ServiceRuns.StepSound` | launcher/ra_owned_service.py:292-438 | every step, callbacks included, keeps the receiver accounted for and the session of a profile aligned with it |
| `ServiceRuns.CommandedQueues` | launcher/ra_owned_service.py:292-333 | obeying commands leaves queues and pending reset alone, or empties the queues when a callback changed the generation |
| `ServiceDelivery.ResetPendsExactly` | launcher/ra_owned_service.py:131-170 | a reset pends exactly when a caller revoked and the owner has not come round since |
| `ServiceDelivery.CallersOnlyAsk` | launcher/ra_owned_service.py:131-187 | a call leaves a command, the account on show and a revocation, and never touches receiver, session or loop |
| `ServiceDelivery.OwnerGoesRound` | launcher/ra_owned_service.py:335-438 | the owner's loop, step by step, and what each step leaves alone |
| `ServiceDelivery.TopObeysTheLast` | launcher/ra_owned_service.py:292-347 | when the owner comes round every command is obeyed and the last binding or clearing stands, in the receiver, on show and in the session |
| `ServiceDelivery.TopCarriesOutReset` | launcher/ra_owned_service.py:338-347 | a pending reset takes receiver, list, jobs and native state, and leaves the account |
| `ServiceDelivery.EndLeavesNothing` | launcher/ra_owned_service.py:421-438 | the end leaves only counters and store, and a new start begins with that store |
| `ServiceGuarantees.CarriedWasReceived` | launcher/ra_owned_service.py:373-385 | whatever is queued or in the owner's hands was received in this run at its arrival number |
| `ServiceGuarantees.StepKeepsOrEmpties` | launcher/ra_owned_service.py:121-129 | apart from taking and putting, a step keeps the queues or is one of the named steps that empty them |
| `ServiceFrames.ArrivingFrameIsJoined` | launcher/ra_owned_service.py:373-385 | a frame in the output of a datagram is complete, of the installed generation, and made of parts admitted for it |
| `ServiceFrames.AlwaysWellFed` | launcher/ra_owned_service.py:373-385 | the assembler of the installed list is always exactly what the parts admitted since its installation make of it |
| `ServiceFrames.StepMovesList` | launcher/ra_owned_service.py:335-438 | a step of the service feeds one admitted part, leaves list and fragments alone, or starts a new generation without fragments |
| `ServiceFrames.SentWasSent` | launcher/ra_owned_service.py:373-392 | a chunk that counts as sent was sent by a step of this run, for this list and this lease |
| `ServiceAttribution.AlwaysFaithful` | launcher/ra_owned_service.py:139-170 | while callbacks are harmless: the account shown is the callers' last or none, the queued commands lead the adapter to it or to none, and without a pending reset it is there or nothing has arrived |
| `ServiceCallbacks.HarmfulTurnBreaks` | launcher/ra_owned_service.py:131-214 | the continuation: from any settled state that is not harmless, a reset, one game, its list and one frame lead to an unlock that is taken under the wrong account |
| `ServiceCallbacks.OneByteListIsSmall` | launcher/ra_watchlist.py:30-57 | a validated list that such a continuation can use |
| `ServiceAttribution.AlwaysBound` | launcher/ra_owned_service.py:292-333 | with a profile, a session that is signed in has its receiver bound to somebody, at every moment |
| `Subnets.FindFreeHost` | launcher/directlink.py:854-861 | the lowest usable host not avoided, as specified |
| `Subnets.AnyOverlap` | launcher/directlink.py:714-726 | true exactly when some taken network shares an address |
| `Subnets.ChosenIsUntaken` | launcher/directlink.py:714-726 | no host of a chosen /24 lies in a taken network |
| `DhcpPackets.HeaderRoundTrip` | launcher/directlink.py:1100-1126 | every fixed field is read back as it was packed |
| `DhcpPackets.ReadOptions` | launcher/directlink.py:1108-1119 | the loop computes the last value of each tag of the walk, on every byte string |
| `DhcpPackets.DistinctOptionsKept` | launcher/directlink.py:1108-1119 | with distinct tags the table holds exactly the options written |
| `DhcpPackets.CutOptionIsRead` | launcher/directlink.py:1108-1119 | an option the data ends in the middle of is cut to what is there, and a lone tag is none |
| `DhcpPackets.Parse` | launcher/directlink.py:1100-1126 | the request as specified, or none |
| `DhcpPackets.ReplyIsRead` | launcher/directlink.py:1129-1150 | a console reads back every field: its own hardware address, transaction and relay, the leased address exactly in OFFER and ACK, this server, mask, router and lease time; a NAK grants nothing |
| `Subnets.MaskIsKept` | launcher/directlink.py:1129-1136 | the mask option is what the prefix keeps of the all-ones address |
| `Responders.DhcpResponder.TakeToken` | launcher/directlink.py:1549-1557 | refines the token bucket |
| `Responders.DhcpResponder.TrackMac` | launcher/directlink.py:1559-1568 | refines the tripwire |
| `Responders.DhcpResponder.HandlePacket` | launcher/directlink.py:1570-1638 | refines one packet |
| `Responders.BudgetKept` | launcher/directlink.py:1549-1557 | answers so far and tokens left never exceed what time has refilled |
| `Responders.OneMacWhileServing` | launcher/directlink.py:1559-1568 | at most one MAC is recorded while serving |
| `Utf8Text.TextRoundTrip` | http_server/http_server.py:183-186 | text without lone surrogates survives UTF-8 |
| `Utf8Text.DecodeExactly` | http_server/http_server.py:933-949 | the strict decoder accepts the UTF-8 forms of encodable texts and nothing else |
| `Utf8Text.PrefixIsLongest` | http_server/http_server.py:162-167 | a cut title is the longest prefix that fits |
| `HttpPaths.UnquoteRecovers` | http_server/http_server.py:183-186 | decoding a percent-encoded text gives the text |
| `HttpPaths.EncodedRequestIsPath` | http_server/http_server.py:933-949 | the encoded request of a path of proper segments is read as that path |
| `HttpPaths.ProperPathIsNormal` | http_server/http_server.py:795-795 | normalising such a path changes nothing |
| `HttpPaths.SpellingDoesNotMatter` | http_server/http_server.py:933-949 | a request whose components come to a path of proper segments asks for that path, however it is spelled |
| `HttpPaths.DotsAreResolved` | http_server/http_server.py:795-795 | empty and "." components vanish, and ".." takes a proper component before it away, or nothing at the root |
| `HttpPaths.QueryIsIgnored` | http_server/http_server.py:933-949 | a query and a fragment make no difference to what is asked for |
| `HttpPaths.EscapesAreLoose` | http_server/http_server.py:933-949 | escapes of either case are decoded, and any other percent sign stands for itself |
| `HttpPaths.ReduceComponents` | http_server/http_server.py:795-795 | the component loop of path normalisation computes the specified stack |
| `HttpPaths.Normalise` | http_server/http_server.py:795-795 | the normalised path as specified, leading slashes and the empty path included |
| `HttpPaths.SegmentsOfJoined` | http_server/http_server.py:795-795 | splitting undoes joining |
| `HttpCatalogues.GoodRowHasProperPath` | http_server/http_server.py:189-226 | a row that passes the console's rules has an encodable path of proper segments |
| `HttpListings.BuildCatalogue` | http_server/http_server.py:672-705 | entries in any order are sorted by folded path and path, and the loop computes body, dropped count and retained rows as specified |
| `HttpListings.ChooseCandidates` | http_server/http_server.py:624-632 | the loop keeps the first file found for each path |
| `HttpListings.SortedInOrder` | http_server/http_server.py:686-686 | sorting loses and adds no row and puts the rest in list order |
| `HttpCatalogues.FillCatalogue` | http_server/http_server.py:684-705 | the loop over the sorted rows computes body, dropped count and retained rows as specified |
| `HttpCatalogues.LineIsRead` | http_server/http_server.py:252-254 | one line parses to its four fields and leaves the rest |
| `HttpLookups.GameIndex.Rebuild` | http_server/http_server.py:607-668 | from the files in scan order: the tables index exactly the rows of the list that is sent |
| `HttpLookups.GameIndex.IndexRows` | http_server/http_server.py:644-660 | exact, folded and ambiguous tables hold what they should |
| `HttpLookups.GameIndex.LookupPath` | http_server/http_server.py:786-809 | the suffix loop computes the specified lookup |
| `HttpLookups.LookupIsFaithful` | http_server/http_server.py:796-808 | a hit is an exact or unambiguous suffix |
| `DiscVolumes.FoundIsSole` | launcher/disc_identity.py:120-151 | an entry is found only as the one matching record of its directory |
| `DiscVolumes.WalkIsPath` | launcher/disc_identity.py:170-174 | a followed path is a chain of such entries |
| `DiscIdentities.SearchIsDecided` | launcher/disc_identity.py:120-151 | a search ends at an extent exactly when one record has the name and describes it, and at nothing when none has it |
| `DiscIdentities.WalkIsDecided` | launcher/disc_identity.py:170-174 | a path is followed to an extent exactly when it leads there, and to nothing exactly when it breaks off |
| `DiscIdentities.InspectionTakes` | launcher/disc_identity.py:73-183 | what inspecting a bootable image costs, exactly: descriptors, root, SYSTEM.CNF, each directory of the path once and four bytes of the executable |
| `DiscReaders.IsoReader.Read` | launcher/disc_identity.py:73-84 | succeeds exactly when the bytes are inside the volume and the budget, returns them, and pays for them |
| `DiscReaders.IsoReader.Root` | launcher/disc_identity.py:100-118 | the root of the first primary descriptor, at the cost of the descriptors before it, and the volume narrows to it |
| `DiscReaders.IsoReader.Find` | launcher/disc_identity.py:120-151 | succeeds exactly when the directory is readable within the budget and names nothing twice: the extent of the one record of this name, or none |
| `DiscReaders.IsoReader.FindInSector` | launcher/disc_identity.py:126-150 | the same for the records of one sector, after those before it |
| `DiscReaders.IsoReader.Follow` | launcher/disc_identity.py:170-174 | refines following the boot path |
| `DiscReaders.IsoReader.InspectBoot` | launcher/disc_identity.py:170-183 | the boot path is followed and its executable inspected, exactly when the image allows it and its cost fits |

## Left out

- Sockets, thread objects, child processes, ctypes and credential encryption: steps and parameters stand for what they deliver.
- The native achievement library: a history of snapshots and a set of active IDs; which memory it reads, which events it raises and whether it can be rebuilt are inputs.
- The resolver thread, its job and result queues and the active job's cancel flag: the owner's work step may complete anything at any time, which includes every behaviour of that thread.
- `OwnedProfiles.ProfiledService`: removing stored credentials succeeds when it is a clearing that asks for it, and a callback is any sequence of calls on its session; a callback that drives the receiver itself is not modelled.
- `parse_request`, reply padding and the text of replies: requests arrive parsed, and a malformed one is `None`; address parsing and regular expressions of that parser are not modelled.
- Title cleaning, unlock notices, achievement metadata and profiles: formatting. The title of a completion is given as cleaned.
- `validate_orbit_watchlist`: the second list profile. A completion brings its list validated; `WatchLists.Validate` and `WatchSession.InstallFile` model the validation.
- Calls on a closed `EvaluatedReceiver`: closing is a reset here, and use after it is not modelled.
- `valid_account_result` inside `AccountSession.accept` is a flag there; `AccountWorkers.ValidAccountResult` models the check itself.
- Type checks of dynamically typed values: the model is typed. The runs of a service also bind identities that `bind_account` would refuse; the class refuses them.
- `_canonical_ipv4`, adapter enumeration and configuration, the active probe's sockets, `_parse_neighbors`, `serve_forever`'s timers: operating-system interfaces.
- The directory scan and the STARTUP guess: files arrive as rows, in the order the scan found them.
- The legacy flat catalogue, disk-resident lists, rescans and the body sender: weaker contracts or I/O.
- Cancellation of an inspection, container formats below the logical image, and filename serials: a cancelled read only ends the inspection early.
- DiscReaders.IsoReader.Inspect: for an image that has no identity, which of the source's two exceptions it raises is not stated.
- HttpCatalogues.CatalogueRoundTrip: rows end in a line feed, as the source writes them, where RFC 4180 writes a carriage return as well; the parser reads line feeds.
- Responders.AnswersAreLimited: a clock that goes back is excluded, as the source's monotonic clock is.
