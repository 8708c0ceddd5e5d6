# Browser-control, verified

This project models the parts of the browser-control daemon and extension whose correctness depends on
interleavings, on several operations together, or on two implementations of one protocol, and proves
what they promise.

* **The per-tab queue** (`TabQueues`, `TabQueueRuns`): a FIFO executor with slot hand-off, withdrawal of
  waiters and a cancellation generation. Every critical section is one step; the theorems hold for every
  interleaving of any number of callers, their cancellations and revocations.
* **The manager** (`ManagerState`, `ManagerRuns`, `LeaseRuns`, `LeaseExits`, `OperationRuns`, `OutcomeRuns`,
  `ContextRuns`, `ConfirmationRuns`, `ManagerMethods`, `LeaseLaws`, `ManagerLaws`, `ConfirmationLaws`):
  sessions, exclusive leases, idempotent operations and confirmations. The functions in `ManagerState` say
  what each critical section does; the class in `ManagerMethods` does it in place, with the loops over the
  maps running in an arbitrary order; the files named `Laws` say what one call, or one after another, means
  for the caller, in literal terms; the files named `Runs` reason over whole runs, with an arbitrary clock.
* **The event log** (`EventLogs`, `EventLaws`): the bounded buffer, paging by cursor and waiting for the next
  event.
* **Native messaging** (`Base64`, `Chunks`, `GoAssembler`, `NativeFraming`, `TsAssembler`, `TsStreams`,
  `CodecLaws`, `FormatLaws`, `DecoderLaws`): base64 (section 4 of RFC 4648), chunking, reassembly in Go and in TypeScript,
  and length-prefixed frames.
* **Redaction** (`DomRedaction`, `DomRedactionLaws`, `DomRedactionFacts`, `AccessibilityRedaction`,
  `AccessibilityWalk`, `AccessibilityFacts`): taint over the string table of a DOM snapshot and over the child
  graph of an accessibility tree. The files named `Facts` say in literal terms which text has to go.
* **Locators** (`Locators`, `LocatorLaws`): the query evaluator against a declarative semantics.
* **RPC correlation** (`RpcPeers`, `RpcPeerRuns`): matching responses to calls (section 5 of the JSON-RPC
  2.0 specification) under every interleaving with expiry and close.
* **Forwarding** (`Forwarding`, `ForwardingRuns`, `ForwardingLaws`, `ForwardingAnswers`): the call closure of
  `forward` on any number of tabs, the queue of every tab and the manager in one product: what is answered
  to a reply of the bridge, what an answer says about effects, and what becomes of calls whose lease leaves.

Each class method is proved equal to a function of the old state; the properties are then proved of those
functions. SHA-256, JSON validity and parsing, case mapping, `String()`, the clock and what a page shows
of an element are parameters, so the theorems hold for all of them. Fresh ids (`newID`) are ids not handed
out before. `Options`, `Numbers` and `Protocol` hold shared definitions.

Two properties one might expect turn out not to hold of the code; both are stated with the exact condition:

* An effective lease time may exceed the manager's own: `LeaseRuns.LifetimeIsCapped` says exactly when,
  `LeaseRuns.FloorExceedsTheCap` gives an instance.
* Results of a text locator may nest: `collectElements` does not enter the shadow root of its own
  argument. `LocatorLaws.NestingNeedsPiercing` gives the exact condition on the locator,
  `LocatorLaws.NestingIsThroughOwnShadow` says that this is the only way it happens, and
  `LocatorLaws.HostAndShadowBothReturned` gives an instance.

DOM redaction is idempotent where the parent graph is well formed (`DomRedactionLaws.SanitizeTwice`);
elsewhere a second pass may fail, `DomRedactionLaws.SecondPass` says exactly when, and
`DomRedactionLaws.CycleUnderAHiddenTag` gives an instance.

## Model

| member | source | states |
|---|---|---|
| `TabQueues.TabQueue.Join` | internal/core/tab_queue.go:31-41 | Takes the free slot at once or appends the caller with the current generation |
| `TabQueues.TabQueue.RemoveWaiter` | internal/core/tab_queue.go:113-122 | Removes the first occurrence of the target and keeps the order of the rest |
| `TabQueues.TabQueue.Leave` | internal/core/tab_queue.go:45-56 | A cancelled caller leaves the list unless the slot was granted to it meanwhile |
| `TabQueues.TabQueue.Begin` | internal/core/tab_queue.go:64-73 | The generation check just before fn, and the installation of its cancel function |
| `TabQueues.TabQueue.CancelEverything` | internal/core/tab_queue.go:81-93 | Advances the generation, cancels the active run and fails every waiter |
| `TabQueues.TabQueue.HandOver` | internal/core/tab_queue.go:95-111 | Grants the slot to the first waiter without an error, or frees it |
| `TabQueueRuns.MutualExclusion` | internal/core/tab_queue.go:30-111 | In every reachable state at most one caller owns the slot, `running` holds exactly when one does, and executions of fn never overlap |
| `TabQueueRuns.StartsFollowArrivals` | internal/core/tab_queue.go:30-79 | The callers that entered fn, in order, are a subsequence of those that arrived: no overtaking |
| `TabQueueRuns.ListedWaitersAreFresh` | internal/core/tab_queue.go:81-111 | No ready channel is closed twice; every listed waiter has the current generation and no error, so release never skips one |
| `TabQueueRuns.RevokeStopsEarlierCallers` | internal/core/tab_queue.go:64-93 | After cancelAll and any continuation, a caller that had arrived and not entered fn never enters it, and one inside keeps a cancelled context |
| `TabQueueRuns.RevokeSparesLaterCallers` | internal/core/tab_queue.go:64-93 | A caller that arrives after the last cancelAll holds no error, is not cancelled through the queue and passes its check |
| `TabQueueRuns.OwnerCanMove` | internal/core/tab_queue.go:43-122 | Waiters exist only behind an owner, and whenever the slot is taken some caller has an enabled step |
| `TabQueueRuns.QuietMeansIdle` | internal/core/tab_queue.go:43-122 | A state in which no caller can move is idle and empty, with every caller returned |
| `TabQueueRuns.StepWork` | internal/core/tab_queue.go:30-111 | Every move of a caller lowers the remaining work; only an arrival raises it |
| `TabQueueRuns.WaitersCanGiveUp` | internal/core/tab_queue.go:43-63 | A waiting caller can give up whenever it is cancelled: it leaves the list to the others, in their order, or hands on the slot that is its own already |
| `TabQueueRuns.OnlyCancelledGiveUp` | internal/core/tab_queue.go:43-56 | Over any run only a caller whose context was cancelled gives up |
| `TabQueueRuns.RunsAreShort` | internal/core/tab_queue.go:30-111 | n arrivals allow at most 5n moves, whatever is cancelled or revoked |
| `EventLogs.EmitRetains` | internal/core/manager.go:1272-1286 | The buffer stays exactly the last min(limit, n) of all events emitted, numbered consecutively |
| `EventLogs.PageIsExact` | internal/core/manager.go:1288-1313 | A page is the next stretch of the whole filtered log if and only if no wanted event was trimmed under the cursor |
| `EventLogs.RecentCursorMissesNothing` | internal/core/manager.go:1288-1313 | A cursor not older than the buffer misses nothing |
| `EventLogs.PagingIsComplete` | internal/core/manager.go:955-959 | Reading page by page while the log grows yields the filtered log with no gap and no repeat |
| `EventLogs.WaitersAreWoken` | internal/core/manager.go:961-977 | In every history a caller parked on the open signal has no matching retained event, and one with a match can look again |
| `EventLaws.PageIsWhatWasAsked` | internal/core/manager.go:1288-1313 | A page holds only retained events after the cursor, of the kinds, session and tab asked for, in order and within the page size; it leaves one out only if it is full of older ones |
| `EventLaws.EmittedEventIsRead` | internal/core/manager.go:1272-1313 | An emitted event keeps what it was given, gets the next number and, without one, the time; an up-to-date reader reads exactly it |
| `EventLogs.EventLog.constructor` | internal/core/manager.go:144-172 | The buffer starts empty with the default limit of 1024 for a non-positive one |
| `EventLogs.EventLog.Append` | internal/core/manager.go:1272-1286 | Stamps, appends and trims, keeping the buffer tied to the full history; closes the open signal and opens the next |
| `EventLogs.EventLog.Look` | internal/core/manager.go:963-970 | One locked pass of NextEvent: the first match, or the signal that is open now |
| `EventLogs.EventLog.MatchEvents` | internal/core/manager.go:1288-1313 | The scan that stops at the page size returns the first events that match |
| `LeaseRuns.StepEvolves` | internal/core/manager.go:481-658 | Every step keeps: stored leases are unrevoked, keyed by their tab, owned by open sessions and unique by id |
| `LeaseRuns.RunKeepsLeases` | internal/core/manager.go:481-658 | Over any run that invariant holds, closed sessions stay closed and a lease id that left never comes back |
| `LeaseRuns.RemovedLeaseStaysInvalid` | internal/core/manager.go:1213-1241 | A lease that left the table is refused for ever, whoever presents it |
| `LeaseRuns.RevokedBranchIsDead` | internal/core/manager.go:1234-1236 | Validation never answers LEASE_REVOKED |
| `LeaseRuns.LifetimeIsCapped` | internal/core/manager.go:1243-1254 | The effective time is positive, and within the manager's exactly when it is not a sub-second request on a sub-second manager |
| `LeaseRuns.FloorExceedsTheCap` | internal/core/manager.go:1243-1254 | An instance where the one-second floor exceeds the cap |
| `LeaseRuns.ClaimThenValidate` | internal/core/manager.go:555-606 | A claim succeeds if and only if the session is open and nobody else holds the tab or force is given; the lease then validates exactly until it expires, and no other id does |
| `LeaseLaws.ValidationIsExact` | internal/core/manager.go:1213-1241 | Validation accepts exactly the holder of a live lease, from an open session where one is needed; each refusal has its kind; only an expired lease is taken out |
| `LeaseLaws.StoredLeaseValidates` | internal/core/manager.go:1213-1241 | A stored lease of an open session validates exactly until it expires |
| `LeaseLaws.ClaimGivesALease` | internal/core/manager.go:555-606 | A granted claim lasts as long as asked for within one second and the manager's own time; it keeps id, browser and creation time when it renews and is new otherwise; no other tab is touched; a refusal says why |
| `LeaseLaws.RenewThenValidate` | internal/core/manager.go:608-619 | Renewing succeeds exactly when validation does; the lease keeps all but its times, lasts as long as it should from now and validates exactly until then |
| `LeaseLaws.BindThenBindOther` | internal/core/manager.go:621-636 | Binding succeeds exactly for a valid lease, a named browser and no other one bound; the lease stays valid and another browser is refused |
| `LeaseLaws.ReleaseThenClaim` | internal/core/manager.go:645-658 | Releasing needs the lease but no open session; afterwards nobody holds the tab and any open session may claim it |
| `LeaseLaws.RevokeTakesTheLease` | internal/core/manager.go:861-876 | Revoking takes the lease a tab has and returns it marked revoked |
| `ManagerLaws.CloseEndsTheSession` | internal/core/manager.go:481-511 | Closing an open session closes it and no other, takes its leases and no others and withdraws its pending confirmations and no others |
| `ManagerLaws.CloseStopsTheWork` | internal/core/manager.go:481-511 | ... and of the listed records stops exactly the session's |
| `ManagerLaws.CloseAgainIsNothing` | internal/core/manager.go:481-490 | A second close, or that of an unknown session, changes nothing |
| `ManagerLaws.StopEndsEverything` | internal/core/manager.go:513-547 | The emergency stop leaves no session open, no lease, no listed record unstopped and no confirmation pending |
| `ManagerLaws.RevokeEndsTheBrowser` | internal/core/manager.go:878-904 | Revoking a browser takes exactly the leases bound to it and withdraws exactly its pending confirmations |
| `ManagerLaws.CancelEndsTheOperation` | internal/core/manager.go:822-854 | Cancelling: a running operation has its context cancelled, a waiting one is cancelled and its confirmations are withdrawn, a finished one stays; another session is told there is none |
| `ManagerLaws.TickTakesWhatIsOver` | internal/core/manager.go:1328-1358 | A tick takes exactly the leases, and expires exactly the pending confirmations, whose time is over |
| `ManagerLaws.TickAndRecords` | internal/core/manager.go:1328-1358 | What a tick does to each listed record: stopped if it lost its lease, dropped an hour after it was finished, failed if its confirmation came too late |
| `LeaseExits.LeaseExitCancelsWork` | internal/core/manager.go:513-606 | Every way a lease leaves the table cancels, in the same step, the running operations of that session and tab, settles the awaiting ones and advances the tab's queue; nothing else advances a queue |
| `LeaseExits.StepDrops` | internal/core/manager.go:861-904 | Each kind of step removes exactly some set of leases with that effect on each |
| `LeaseExits.CloseDrops` | internal/core/manager.go:1256-1270 | Closing a session removes exactly its leases, each with its work cancelled |
| `LeaseExits.ValidDrops` | internal/core/manager.go:1223-1233 | Lazy expiry during validation cancels the work like any other exit |
| `LeaseExits.TickDrops` | internal/core/manager.go:1328-1336 | The janitor removes exactly the expired leases, each with its work cancelled |
| `OperationRuns.OneCallbackAtATime` | internal/core/manager.go:744-820 | At most one callback per operation id is in flight, and its record is the listed one |
| `OutcomeRuns.SecondStartNeedsReason` | internal/core/manager.go:760-789 | A second callback for an id starts only after the first one's outcome had asked for a confirmation and its record was replaced while waiting for it, or was collected more than an hour after it was finished |
| `OutcomeRuns.StatusFollowsOutcome` | internal/core/manager.go:803-818 | In every reachable state a record without outcome is running; an outcome without error makes it completed, CANCELLED cancelled, CONFIRMATION_REQUIRED waiting until it is settled, any other error failed; nothing else waits |
| `OutcomeRuns.ReturnIsRecorded` | internal/core/manager.go:803-818 | Over any continuation the record of a callback that returned holds what it returned, with that status, stamped with that time |
| `OutcomeRuns.EnterAgain` | internal/core/manager.go:760-789 | A matching request under a listed id waits while the callback runs, is answered with its outcome without a new callback, and starts one only if the outcome asked for a confirmation that is still open |
| `OutcomeRuns.EnterFirst` | internal/core/manager.go:755-789 | A new id from an open session starts a callback; no id, or a closed or unknown session, is turned away and changes nothing |
| `OutcomeRuns.WaiterGetsTheOutcome` | internal/core/manager.go:765-783 | Whoever waited for a callback is answered with its outcome, unless that asked for a confirmation which was settled meanwhile |
| `OperationRuns.TerminalIsFinal` | internal/core/manager.go:733-859 | Completed, failed and cancelled records keep status, result and error through every step |
| `OperationRuns.TerminalStaysFinal` | internal/core/manager.go:733-859 | ... and through every run |
| `OperationRuns.ReplaysReturnTheResult` | internal/core/manager.go:765-783 | Whoever is answered from a completed record gets what its one callback returned |
| `OperationRuns.MismatchIsRejected` | internal/core/manager.go:760-764 | A used id with another session or fingerprint changes nothing and runs nothing |
| `OperationRuns.OnlyJanitorCollects` | internal/core/manager.go:1337-1341 | No step but the janitor's takes a record out of the table without replacing it |
| `ContextRuns.ContextStaysCancelled` | internal/core/manager.go:714-731 | Over any run an operation context that was cancelled stays cancelled |
| `OperationRuns.RunKeepsOps` | internal/core/manager.go:744-859 | The invariant behind the above holds over every run of concurrent callers |
| `ConfirmationRuns.RunKeepsConfirmations` | internal/core/manager.go:1125-1153 | In every run pending confirmations belong to open sessions and no two pending ones ask the same |
| `ConfirmationRuns.ApprovalFindsItsSession` | internal/core/manager.go:385-429 | Approving a pending confirmation in time always takes effect; the closed-session branch is unreachable |
| `ConfirmationRuns.DecisionsMoveForward` | internal/core/manager.go:337-429 | Statuses move forward or expire; only a timely approval approves and only a use of an approved one consumes |
| `ConfirmationLaws.OpenedSessionIsOpen` | internal/core/manager.go:224-246 | A new session is open with every known capability and no other session changes |
| `ConfirmationLaws.AskingAddsOne` | internal/core/manager.go:1125-1153 | Asking adds one pending confirmation that lasts as asked for up to ten minutes and two minutes otherwise, or nothing when an equal one is pending |
| `ConfirmationLaws.AskingIsRefused` | internal/core/manager.go:1125-1153 | Nothing is added for a closed or unknown session, or for no or unknown capabilities |
| `ConfirmationLaws.AuthorizationIsExact` | internal/core/manager.go:337-367 | An action is let through exactly by its own confirmation, approved or used and not expired; every refusal has its kind |
| `ConfirmationLaws.ApproveThenAct` | internal/core/manager.go:337-429 | A timely approval lets exactly that action through until the confirmation expires; before, nothing did |
| `ConfirmationLaws.DenyThenAct` | internal/core/manager.go:337-429 | A denial fails the operation that waits and refuses the action from then on |
| `ConfirmationLaws.TooLateExpires` | internal/core/manager.go:337-429 | A late decision or action expires the confirmation and fails the operation that waits |
| `ConfirmationLaws.ApprovalGrants` | internal/core/manager.go:385-429 | Approving capabilities adds exactly them; an unknown decision and a settled confirmation change nothing |
| `ManagerMethods.Manager.constructor` | internal/core/manager.go:144-172 | An empty manager with the default lease time of 30 seconds for a non-positive one |
| `ManagerMethods.Manager.FinishAwaitingOperation` | internal/core/manager.go:733-742 | Settles a listed record only if it is awaiting confirmation |
| `ManagerMethods.Manager.CancelMatching` | internal/core/manager.go:714-731 | The loop over the operations cancels exactly the listed records that match, in any order |
| `ManagerMethods.Manager.CancelTabQueue` | internal/core/manager.go:705-712 | Advances the generation of the tab's queue if there is one; what cancelAll does besides is TabQueues.TabQueue.CancelEverything, tied to it by ForwardingLaws.LostLeaseRevokes |
| `ManagerMethods.Manager.DropAll` | internal/core/manager.go:1256-1270 | The removal loop equals dropping all those leases at once, in any order, and lists each of them once, revoked |
| `ManagerMethods.Manager.SettleAll` | internal/core/manager.go:895-902 | The loop over confirmations moves exactly the pending selected ones |
| `ManagerMethods.Manager.CheckLease` | internal/core/manager.go:1213-1241 | validLeaseLocked with all its refusals and the lazy expiry |
| `ManagerMethods.Manager.Close` | internal/core/manager.go:481-511 | Closes the session, drops its leases, cancels its operations and withdraws its confirmations; returns the released leases, or SESSION_NOT_FOUND |
| `ManagerMethods.Manager.Stop` | internal/core/manager.go:513-547 | Closes every session, drops, cancels and withdraws everything, and returns every lease revoked |
| `ManagerMethods.Manager.Claim` | internal/core/manager.go:555-606 | ClaimTabForce: renewal, conflict, takeover and replacement of an expired lease |
| `ManagerMethods.Manager.Renew` | internal/core/manager.go:608-619 | Renews a valid lease in place; for how long is LeaseLaws.RenewThenValidate |
| `ManagerMethods.Manager.Bind` | internal/core/manager.go:621-636 | Binds a valid lease to one browser, once |
| `ManagerMethods.Manager.Release` | internal/core/manager.go:645-658 | Drops a valid lease, also of a closed session |
| `ManagerMethods.Manager.Revoke` | internal/core/manager.go:861-876 | Drops the tab's lease and returns it revoked |
| `ManagerMethods.Manager.RevokeAllIn` | internal/core/manager.go:878-904 | Drops a browser's leases, withdraws its confirmations and returns the leases revoked |
| `ManagerMethods.Manager.Enter` | internal/core/manager.go:755-789 | The first critical section of ExecuteOperation: rejection, replay, joining or a new record |
| `ManagerMethods.Manager.Finish` | internal/core/manager.go:803-818 | The second: records the callback's result; the status each outcome leads to is OutcomeRuns.StatusFollowsOutcome |
| `ManagerMethods.Manager.CancelOne` | internal/core/manager.go:822-854 | CancelOperation up to the unlock |
| `ManagerMethods.Manager.Ask` | internal/core/manager.go:1125-1153 | Returns the equal pending confirmation or inserts the new one; each refusal with its kind |
| `ManagerMethods.Manager.AuthorizeAction` | internal/core/manager.go:337-367 | The binding checks, the expiry of any status and the three answers |
| `ManagerMethods.Manager.ConsumeAction` | internal/core/manager.go:369-383 | Consumes an approved confirmation and accepts a consumed one |
| `ManagerMethods.Manager.Decide` | internal/core/manager.go:385-429 | ResolveConfirmation with its expiry, both decisions and the unknown one |
| `ManagerMethods.Manager.CollectOperations` | internal/core/manager.go:1337-1341 | The loop collects exactly the records finished more than an hour ago |
| `ManagerMethods.Manager.ExpireConfirmations` | internal/core/manager.go:1348-1358 | The loop expires exactly the lapsed confirmations and fails the operations that wait for them |
| `ManagerMethods.Manager.JanitorTick` | internal/core/manager.go:1328-1358 | One tick: leases, operations, confirmations |
| `Base64.EncodedLength` | internal/nativemsg/native.go:151-151 | Encoded data has 4 * ceil(n / 3) characters |
| `Base64.GoRoundTrip` | internal/nativemsg/native.go:74-77 | Go's StdEncoding, which ignores line ends and trailing bits, gives back what was encoded |
| `Base64.AtobRoundTrip` | apps/extension/src/chunk-codec.ts:29-43 | atob gives back what btoa encoded |
| `FormatLaws.SymbolsAreTheAlphabet` | internal/nativemsg/native.go:151-151 | Each six bits are the letter at that place of the alphabet |
| `FormatLaws.QuantumIsBigEndian` | internal/nativemsg/native.go:151-151 | Three bytes are written as their 24 bits, six at a time, most significant first |
| `FormatLaws.LastByteIsPadded` | internal/nativemsg/native.go:151-151 | One byte at the end: zero bits and two padding characters |
| `FormatLaws.LastTwoBytesArePadded` | internal/nativemsg/native.go:151-151 | Two bytes at the end: zero bits and one padding character |
| `DecoderLaws.GoIsExact` | internal/nativemsg/native.go:74-77 | Go's decoder accepts exactly groups of four letters with padding in the last, and skips line ends anywhere |
| `DecoderLaws.GroupsAreBits` | internal/nativemsg/native.go:74-77 | Four letters are the 24 bits of three bytes; at the end two or three are those of one or two bytes, whatever bits are left over |
| `DecoderLaws.AtobIsExact` | apps/extension/src/chunk-codec.ts:36-43 | atob accepts exactly letters with the padding complete or left out, skips white space anywhere, and makes of them what Go makes of the padded text |
| `Chunks.AllParts` | internal/nativemsg/native.go:143-151 | All parts of a cut message, joined, are the message |
| `Chunks.Pigeonhole` | internal/nativemsg/native.go:104-114 | As many parts as the total means that no index is missing |
| `GoAssembler.FullMeansAll` | internal/nativemsg/native.go:104-114 | The missing-part branch is unreachable |
| `GoAssembler.AcceptKeepsItems` | internal/nativemsg/native.go:59-124 | Retained assemblies are sized by their parts, within the cap and short of their total, after every frame |
| `GoAssembler.MessageComesOutOnce` | internal/nativemsg/native.go:59-124 | Chunks in any order, repeated and mixed with any other traffic give exactly the message at the last missing index and nothing before |
| `CodecLaws.GoRefuses` | internal/nativemsg/native.go:59-79 | Invalid JSON, impossible metadata and undecodable data are refused and change nothing; an ordinary message passes |
| `CodecLaws.GoForgetsIdleStreams` | internal/nativemsg/native.go:80-103 | An admitted chunk forgets exactly the other streams idle for more than a minute and stamps its own with its time |
| `CodecLaws.GoDropsBadStreams` | internal/nativemsg/native.go:86-103 | A live stream is dropped and the chunk refused when total or digest changes or the parts exceed 128 MiB |
| `CodecLaws.GoChecksMessages` | internal/nativemsg/native.go:104-124 | What was put together has the announced digest, is valid JSON and at most 128 MiB |
| `GoAssembler.Assembler.DropIdle` | internal/nativemsg/native.go:80-85 | Forgets exactly the streams idle for more than a minute |
| `GoAssembler.Assembler.Accept` | internal/nativemsg/native.go:59-124 | Accept in place, keeping the invariant of the table |
| `GoAssembler.Assembler.AddPart` | internal/nativemsg/native.go:86-124 | The stream's entry: metadata check, first copy wins, size cap, completion |
| `GoAssembler.Assembler.JoinParts` | internal/nativemsg/native.go:107-123 | The joining loop and the two checks after it |
| `NativeFraming.ChunkFrameFits` | internal/nativemsg/native.go:145-159 | Every chunk frame has between 1 byte and 1 MiB, so the over-limit error never fires |
| `NativeFraming.EncodeMessage` | internal/nativemsg/native.go:126-162 | For every chunk size argument Encode succeeds on valid JSON only, and every frame can be written |
| `FormatLaws.EncodeCuts` | internal/nativemsg/native.go:126-162 | A message beyond 1 MiB is cut into pieces of the size asked for if that is between 1 byte and 512 KiB, else of 512 KiB; a shorter one goes as it is |
| `FormatLaws.ChunkCarriesItsPiece` | internal/nativemsg/native.go:143-159 | Chunk i carries piece i, the last one what is left, with the message's digest and the number of pieces |
| `FormatLaws.FrameHeader` | internal/nativemsg/native.go:164-175 | A frame of 1 byte to 1 MiB stands behind its length, least significant byte first; any other is refused |
| `FormatLaws.ReadIsExact` | internal/nativemsg/native.go:176-188 | A reader takes a frame exactly behind a header of 1 byte to its limit, and only whole |
| `NativeFraming.FrameRoundTrip` | internal/nativemsg/native.go:164-188 | A written frame reads back, with the rest of the stream untouched |
| `NativeFraming.StreamRoundTrip` | internal/nativemsg/native.go:164-188 | ... and so does any sequence of frames |
| `NativeFraming.MessagesPass` | internal/nativemsg/native.go:194-245 | The receiving loop passes on exactly the messages sent and ends idle, with any pause between messages |
| `NativeFraming.EndToEnd` | internal/nativemsg/native.go:126-245 | Encode, write, read, reassemble: the sequence of messages comes out byte for byte, as long as no message stalls for a minute inside |
| `TsAssembler.EncodeMessage` | apps/extension/src/chunk-codec.ts:63-89 | Short messages as they are, too long ones refused, the rest cut into between 3 and 256 chunks |
| `TsAssembler.StepAgrees` | apps/extension/src/chunk-codec.ts:105-179 | On a well-formed frame both assemblers answer alike and stay related |
| `TsAssembler.AssemblersAgree` | apps/extension/src/chunk-codec.ts:105-179 | On well-formed traffic within both expiry rules and 32 streams, both complete at the same frames with the same bytes |
| `TsStreams.GoMessageReachesTs` | apps/extension/src/chunk-codec.ts:105-179 | Go's chunks in any order, repeated, among arbitrary other values and with expiry at work, give the TypeScript side exactly the message at the last missing one |
| `TsStreams.FrameStep` | apps/extension/src/chunk-codec.ts:108-166 | One genuine chunk on any table with room: the message if it was the last one missing, else nothing and one part more |
| `TsStreams.OtherFrameKeeps` | apps/extension/src/chunk-codec.ts:108-178 | Any other value, well formed or not, leaves a stream younger than 30 seconds alone |
| `CodecLaws.TsRefuses` | apps/extension/src/chunk-codec.ts:108-119 | What is no envelope passes through and an impossible index is refused; neither touches the young streams |
| `CodecLaws.TsStaysBounded` | apps/extension/src/chunk-codec.ts:108-178 | After every value no stream is older than 30 seconds and at most 32 are open; other young streams stay as they were |
| `CodecLaws.TsDropsBadStreams` | apps/extension/src/chunk-codec.ts:120-156 | A stream is dropped and the chunk refused when total or digest changes, when other bytes come for a held index, or beyond 128 MiB; a 33rd stream and data that does not decode are refused |
| `CodecLaws.TsChecksMessages` | apps/extension/src/chunk-codec.ts:157-172 | What was put together has the announced digest and is valid JSON |
| `TsAssembler.PromptMessageReachesTs` | apps/extension/src/chunk-codec.ts:105-179 | Sent in order within 30 seconds, Go's chunks always complete on the TypeScript side, exactly at the last one |
| `TsAssembler.TsMessageReachesGo` | apps/extension/src/chunk-codec.ts:63-89 | encodeMessage's chunks give the Go side exactly the message at the last missing one |
| `TsAssembler.ChunkAssembler.DropOld` | apps/extension/src/chunk-codec.ts:173-178 | Forgets exactly the streams begun more than 30 seconds ago |
| `TsAssembler.ChunkAssembler.AcceptValue` | apps/extension/src/chunk-codec.ts:108-119 | Prunes, passes ordinary messages through and rejects bad indices |
| `TsAssembler.ChunkAssembler.AcceptEnvelope` | apps/extension/src/chunk-codec.ts:120-137 | Room for a new stream, metadata check and decoding |
| `TsAssembler.ChunkAssembler.AcceptPart` | apps/extension/src/chunk-codec.ts:138-166 | Changed duplicates are refused, the cap holds, completion is noticed |
| `TsAssembler.ChunkAssembler.JoinChunks` | apps/extension/src/chunk-codec.ts:157-162 | The buffer filled part by part is the concatenation of the parts |
| `DomRedaction.BelongsToSensitiveSubtree` | apps/extension/src/redaction.ts:91-102 | The walk ends on every parent array and decides sensitive-ancestor-or-self; it fails exactly on a cycle or an index out of range |
| `DomRedaction.ScanAttributes` | apps/extension/src/redaction.ts:70-81 | Fails exactly on malformed attributes; finds the mark and taints exactly the form's value attributes |
| `DomRedaction.ScanNodes` | apps/extension/src/redaction.ts:57-84 | The sensitive nodes and the tainted form values of a document |
| `DomRedaction.TaintRare` | apps/extension/src/redaction.ts:86-89 | Taints exactly the non-empty rare strings, or fails on malformed data |
| `DomRedaction.TaintSubtrees` | apps/extension/src/redaction.ts:104-118 | Taints exactly the texts of nodes in sensitive subtrees, or fails where a walk does |
| `DomRedaction.SanitizeDomSnapshot` | apps/extension/src/redaction.ts:34-135 | Overwrites in place exactly the tainted strings and those containing one, or fails without touching the table; which they are is DomRedactionFacts.TypedTextGoes |
| `DomRedactionLaws.RedactionIsExact` | apps/extension/src/redaction.ts:121-133 | A string is replaced if and only if it contains a secret, and what is not the marker contains none; what a secret is, is DomRedactionFacts.TypedTextGoes |
| `DomRedactionFacts.TypedTextGoes` | apps/extension/src/redaction.ts:50-134 | A string ends as the marker exactly if it contains a non-empty one from inputValue or textValue, the value attribute of an input or text area, or a text at or below such a node or one with data-browser-control-sensitive; all others stay |
| `DomRedactionFacts.RefusedExactly` | apps/extension/src/redaction.ts:34-118 | A snapshot is refused exactly for arrays of different lengths, an index outside the table, an odd attribute list or parents that lead nowhere |
| `DomRedactionLaws.SecondPass` | apps/extension/src/redaction.ts:44-134 | A second pass changes nothing or fails, and it fails exactly when some walk no longer ends at a root or a sensitive node |
| `DomRedactionLaws.SanitizeTwice` | apps/extension/src/redaction.ts:44-134 | On a well-formed parent graph a second pass succeeds and changes nothing, even when names were hidden |
| `DomRedactionLaws.CycleUnderAHiddenTag` | apps/extension/src/redaction.ts:91-102 | With a cycle below a tag that gets hidden, the first pass succeeds and the second fails |
| `AccessibilityRedaction.RedactTreeIsExact` | apps/extension/src/redaction.ts:139-148 | On every path a string in a field named value is the marker and everything else reads as before |
| `AccessibilityRedaction.RedactNodeIsExact` | apps/extension/src/redaction.ts:178-184 | Name, value and description are hidden and no other field is touched |
| `AccessibilityRedaction.IndexById` | apps/extension/src/redaction.ts:151-154 | The map finds the last node with each id |
| `AccessibilityRedaction.EditableIds` | apps/extension/src/redaction.ts:155-165 | The ids of the editable nodes |
| `AccessibilityRedaction.AddChildren` | apps/extension/src/redaction.ts:171-176 | New children are marked and queued exactly once |
| `AccessibilityRedaction.Spread` | apps/extension/src/redaction.ts:166-177 | The work queue ends on every graph, cycles included, with exactly the ids reachable from editable nodes |
| `AccessibilityRedaction.RedactEditableTree` | apps/extension/src/redaction.ts:149-185 | Overwrites exactly the nodes found under those ids |
| `AccessibilityRedaction.EditableTreesAreHidden` | apps/extension/src/redaction.ts:149-185 | With distinct ids no string value survives in the three trees of a node that belongs to an editable one; other nodes and fields are unchanged |
| `AccessibilityWalk.VisitOnlyMarks` | apps/extension/src/redaction.ts:186-219 | The whole sanitizer writes markers into fields named value and nothing else |
| `AccessibilityWalk.EditableTreesStayHidden` | apps/extension/src/redaction.ts:137-221 | After the whole sanitizer no string value survives in the three trees of a node that belongs to an editable one |
| `AccessibilityWalk.RoleValueIsHidden` | apps/extension/src/redaction.ts:194-203 | An object with an editable role ends with the marker as the value of its value |
| `AccessibilityWalk.PropertyValueIsHidden` | apps/extension/src/redaction.ts:204-216 | A property named value or valuetext ends with the marker as the value of its value |
| `AccessibilityFacts.TypedTextIsHidden` | apps/extension/src/redaction.ts:149-221 | After the whole sanitizer, in name, value and description of a node with role textbox, searchbox, combobox or spinbutton or a property editable, and of every node its childIds lead to, each string in a field value is the marker |
| `AccessibilityFacts.BelongsIsLed` | apps/extension/src/redaction.ts:155-177 | The nodes hidden are exactly those that childIds lead to from such a node |
| `AccessibilityFacts.NothingElseIsHidden` | apps/extension/src/redaction.ts:149-185 | Other nodes, and other fields of those nodes, stay as they were |
| `AccessibilityFacts.TextRoleValueIsHidden` | apps/extension/src/redaction.ts:194-203 | The value object of an object with such a role ends with the marker, wherever it stands |
| `AccessibilityFacts.NothingTypedStays` | apps/extension/src/redaction.ts:137-221 | A snapshot without a node that takes text, an object with such a role and a value, or a property value or valuetext comes out of the whole sanitizer as it went in |
| `AccessibilityWalk.DepthDoesNotMatter` | apps/extension/src/redaction.ts:186-218 | The walk is a function of the value alone; with EveryValueFits it is defined on every value |
| `Locators.CollectsAll` | packages/locator-runtime/src/locator.ts:141-155 | collectElements finds every element of the forest, through shadow roots when asked, and nothing else |
| `Locators.CollectElements` | packages/locator-runtime/src/locator.ts:141-155 | The recursive visit pushes exactly those elements in preorder |
| `Locators.QueryLocator` | packages/locator-runtime/src/locator.ts:202-257 | The evaluator computes the declarative meaning of every locator on every tree; what that meaning returns and selects is stated literally in LocatorLaws |
| `LocatorLaws.ResultIsExact` | packages/locator-runtime/src/locator.ts:206-243 | Without alternatives and selection an element is returned if and only if it is in scope, matches, contains no smaller text match, and meets within, has, hasNot, hasText and visible, each written out |
| `LocatorLaws.CollectIsOrdered` | packages/locator-runtime/src/locator.ts:146-152 | Elements are collected in document order: element, shadow tree, descendants, later siblings |
| `LocatorLaws.CollectedInDocumentOrder` | packages/locator-runtime/src/locator.ts:146-152 | ... and any two elements in document order are collected in that order |
| `LocatorLaws.ResultsFollowTheDocument` | packages/locator-runtime/src/locator.ts:202-257 | Without alternatives the results are a subsequence of preorder |
| `LocatorLaws.NoDuplicates` | packages/locator-runtime/src/locator.ts:202-257 | No element is returned twice, alternatives included |
| `LocatorLaws.AlternativesAppend` | packages/locator-runtime/src/locator.ts:244-247 | The results are those without the alternatives, then the alternatives' own that were not among them, in order |
| `LocatorLaws.TextResultsAreSmallest` | packages/locator-runtime/src/locator.ts:220-229 | No text result is a descendant of another |
| `LocatorLaws.NestingIsThroughOwnShadow` | packages/locator-runtime/src/locator.ts:220-229 | If text results nest, the inner one is in the outer one's own shadow tree |
| `LocatorLaws.HostAndShadowBothReturned` | packages/locator-runtime/src/locator.ts:220-229 | An instance in which they do |
| `LocatorLaws.NestingNeedsPiercing` | packages/locator-runtime/src/locator.ts:206-229 | Results of a plain text locator never nest on any page if and only if it does not pierce shadow roots |
| `LocatorLaws.EveryMatchIsCovered` | packages/locator-runtime/src/locator.ts:209-229 | Before the later filters every matching element in scope is returned or has a returned descendant |
| `LocatorLaws.SelectionPicksOne` | packages/locator-runtime/src/locator.ts:248-255 | nth, without it index, without both first, and else last, pick one of the unselecting form's results: that at the place, counted from the end when negative, the first, the last; none if there is none |
| `RpcPeers.KeysDiffer` | internal/rpc/peer.go:135-140 | Different calls use different keys |
| `RpcPeers.Peer.Enlist` | internal/rpc/peer.go:139-143 | Registers the waiter under the call's key |
| `RpcPeers.Peer.TakeWaiter` | internal/rpc/peer.go:92-98 | Takes the waiter of a response out of the table |
| `RpcPeers.Peer.DrainPending` | internal/rpc/peer.go:201-206 | Removes every waiter and sends each one the closed error, provided no send blocks |
| `RpcPeerRuns.OneResultEach` | internal/rpc/peer.go:88-209 | In every reachable state each waiter was sent at most one result and no sender blocks |
| `RpcPeerRuns.AnswersMatch` | internal/rpc/peer.go:88-164 | The answer a call returns carries its own id and no other call's |
| `RpcPeerRuns.AnswersWereReceived` | internal/rpc/peer.go:88-164 | Over any run the answer a call returns is, id and body, a response that came in for it |
| `RpcPeerRuns.NothingLeftPending` | internal/rpc/peer.go:134-209 | When all calls have returned and Close, if begun, has finished, the table is empty |
| `RpcPeerRuns.OnlyCloseCloses` | internal/rpc/peer.go:192-209 | Over any run a peer is closed, and drained, exactly if a step of Close did it |
| `RpcPeerRuns.CallsAreNumbered` | internal/rpc/peer.go:134-138 | Calls are numbered from 1 without a gap |
| `RpcPeerRuns.CallComesThrough` | internal/rpc/peer.go:134-160 | In every reachable state a new call gets to its wait with nothing sent to it, or, on a closed peer, returns without an answer |
| `RpcPeerRuns.ResponseFindsItsCall` | internal/rpc/peer.go:88-164 | A response to a waiting call that was sent nothing finds it and is returned by it |
| `RpcPeerRuns.CallsCanReturn` | internal/rpc/peer.go:144-164 | After the drain every call still inside has a step of its own |
| `ForwardingLaws.EffectIsAccounted` | internal/server/server.go:699-720 | A mutating method handed to the bridge that fails without a verdict is marked possible; in every other case the error of RunTab is untouched; what RunTab returned is ForwardingAnswers.BridgeReplyIsAnswered |
| `ForwardingAnswers.BridgeReplyIsAnswered` | internal/server/server.go:699-720 | Over any run a call answers the result and the error the bridge replied to it, with effect possible exactly for a mutating method and one of the four kinds of error |
| `ForwardingAnswers.GateErrorIsAnswered` | internal/server/server.go:701-709 | Over any run a call whose preflight failed never reaches the bridge and answers that error as it was |
| `ForwardingAnswers.ActionsPassThePreflight` | internal/server/server.go:704-712 | Over any run action.perform reaches the bridge only after its own preflight passed |
| `ForwardingAnswers.RequestIsKept` | internal/server/server.go:698-733 | A call keeps the method, operation, session and tab it came with |
| `ForwardingAnswers.RequestIsLetIn` | internal/server/server.go:681-684 | A request is let in exactly with an operation id which, for a method that changes the page, begins with op_ and has at most 160 characters |
| `ForwardingAnswers.MutatingCallsCarryIds` | internal/server/server.go:676-690 | A method that changes the page runs only under an operation id that begins with op_ and has at most 160 characters |
| `ForwardingAnswers.RecordHoldsTheAnswer` | internal/server/server.go:721-733 | What the executing caller was told is what its operation's record follows from |
| `ForwardingLaws.StoppedEarlyMeansNoEffect` | internal/server/server.go:699-720 | A refusal by the queue is a plain cancellation of a call that never began; a failed preflight passes its own error on |
| `ForwardingLaws.ExecutorGetsTheAnswer` | internal/server/server.go:721-733 | What the executing caller of the operation gets back is that answer |
| `ForwardingLaws.OneBodyPerTab` | internal/core/manager.go:691-703 | Calls on one tab run their bodies one at a time |
| `ForwardingLaws.TwoTabsAtOnce` | internal/core/manager.go:691-703 | Calls on different tabs do run at the same time |
| `ForwardingLaws.CountersAreGenerations` | internal/core/manager.go:705-712 | The counter the manager advances is the generation of the tab's queue, for every tab |
| `ForwardingLaws.LostLeaseRevokes` | internal/core/manager.go:705-712 | When a lease leaves in any way, its tab's queue is cancelled in the same step |
| `ForwardingLaws.RevokedCallHasNoEffect` | internal/core/tab_queue.go:43-93 | After any way a lease leaves, a call waiting in that tab's queue never reaches the bridge and is told it was cancelled without effect |
| `ForwardingLaws.InsideCallIsCancelled` | internal/core/tab_queue.go:81-93 | A call inside its body at that moment keeps a cancelled run context for ever, and a cancelled operation context if the session lost the lease |
| `ForwardingLaws.CallCanArrive` | internal/core/manager.go:691-703 | A call that has not arrived can find its queue and arrive |
| `ForwardingLaws.BodyCanReturn` | internal/server/server.go:701-712 | A body can always return to its queue |
| `ForwardingLaws.EndedCallCanAnswer` | internal/server/server.go:713-719 | An ended call answers at once or as soon as its slot is released |
| `ForwardingLaws.AnswerCanBeRecorded` | internal/core/manager.go:803-818 | The answer of an operation can always be recorded: its caller is still inside the callback |
| `ForwardingRuns.StepKeepsInv` | internal/server/server.go:699-733 | Every step of every layer keeps the invariant that ties closures, queues and operation records together |

## Left out

- Sockets, listeners, process start-up, signals, token files, installation and packaging: I/O and operating-system state.
- Chrome APIs, CDP commands, layout, actionability, popup, offscreen and secure-input pages: foreign calls and user interface.
- Artifact storage, screenshot tiling, bridge registry, tab handles, upload roots and method tables: easy, or resting on library path functions.
- Descriptive fields: session names and client ids, owned tabs, titles, reasons and time stamps that no branch reads.
- The events the manager's methods emit and the hooks they call; the log itself is modelled, which method emits which event is not.
- Overflow of the 64-bit queue generation, event sequence and call counters, which are unbounded here.
- Several clock readings within one critical section are one reading.
- A callback that panics or never returns: every fn is assumed to return, as tabQueue.run itself has no deferred release.
- Effect certainty for a duplicate caller that gives up while another one runs the operation.
- authorizeAction beyond whether it fails: the clone it edits and sends is not modelled.
- The checks at the head of forward (capabilities, lease, document epoch, upload paths): each is one refusal before the modelled part.
- Shape errors of dynamically typed snapshots and envelopes; arrays and fields are given with their types.
- Accessibility value trees and the outer walk are rewritten as values, not in place, and share nothing, as a parsed response does not; a property assigned to an array, which JSON does not show, is dropped.
- ManagerMethods.Manager.CancelTabQueue: keeps only the generation of a queue, because the manager reads nothing else of it; the queue itself is in the product of Forwarding.
- baseMatches, matchesText, implicitRole and accessibleName: uninterpreted, as CSS matching and rendered text are.
- framePath of a locator, which another layer follows.
- JSON text that TypeScript parses although Go calls it invalid, or the reverse: one validity predicate serves both sides.
- The random stream id: the theorems assume that it is not in use by another stream.
- Peer errors recorded for Err and the request-handling half of Serve.
