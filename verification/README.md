# Maestro: a verified model of its session, storage and project core

This project models, in Dafny, the parts of Maestro whose correctness depends on interleavings,
cursor arithmetic or bounded memory, and proves what they promise for every input, every run or
every reachable state. `dafny verify dfyconfig.toml` checks all of it.

| file | component |
|---|---|
| `PendingTracker.dfy` | the bounded tracker of requests that wait for an answer, as values and as the class the supervisor mutates |
| `Delivery.dfy` | responders, deadline timers, child frames and finalization sharing one tracker, step by step |
| `DeliveryLaws.dfy` | what these tasks never do, what finalization silences, and who audits |
| `SessionEvents.dfy` | the event log, its live fan-out, and the paged reads of the session server |
| `BindingLease.dfy` | the single-writer lease on vendor bindings across all sessions |
| `JsonLines.dfy` | the two newline-delimited JSON decoders, one specification for both, and the encoder |
| `ProcessGroup.dfy` | the identity gate of an owned process group, the reaping order, the process slots |
| `Utf8.dfy`, `SecretShapes.dfy`, `Redaction.dfy` | UTF-8 (section 3 of RFC 3629), the byte classes and credential shapes, the secret scanners, the range merger and the renderer |
| `RedactionLaws.dfy` | what redaction hides and leaves, said of the text alone |
| `RedactionStable.dfy`, `RedactionTwice.dfy` | texts on which redaction is idempotent, and one on which it is not |
| `Retention.dfy`, `RetentionBatches.dfy`, `Pruning.dfy` | the retention planner, its batch executor, and the pruner that runs on append |
| `GitStatus.dfy` | the porcelain v2 `-z` status parser against a printer of that format |
| `Roots.dfy` | path normalization, workspace roots, authorization |
| `Registration.dfy` | project registration: the store and the map of open projects |
| `RawCapture.dfy` | the bounded raw stdout capture with its paged reads, and the stderr tail |
| `Prelude.dfy`, `Ordering.dfy` | options and results, `u64` arithmetic, the stable sort, lexicographic order |

How the model is built:

- Code that updates state in place is a class or a loop method, and its contract ties the new state to
  a function of the old one; what the source promises is then proved of those functions.
- Concurrent code is a step system. A step is what one task does between two points where another
  may run; a ghost log records the effects (stdin writes, audit events, signals). The theorems
  quantify over every sequence of steps.
- Clocks, randomness, JSON parsing, the file system, the database engine and the operating system
  are parameters. What a proof needs of them is a stated hypothesis: the empty string does not parse
  as JSON (section 2 of RFC 8259); serialized JSON holds no raw CR or LF (section 7 of RFC 8259);
  `canonicalize` returns an absolute path of names; a process id is not reused while its
  leader is unreaped, and a wait that fails leaves it unreaped; lease tokens are fresh; a child does
  not reuse a request id within a run.
- Integers are unbounded except where the source's width matters: `u64` saturation, the exhaustion of
  sequence numbers and the `i64` root count are written out.

Promises that turn out to hold only under a condition:

- An owner's survivors fit the byte budget for all sums that fit in `u64`, and beyond that iff no
  oldest-first prefix falls into the interval that saturation opens (`Retention.SurvivorsFitExactly`);
  `Retention.SaturationBreaksTheBudget` gives records for which they do not.
- The pruner respects its limit iff the limit is below 2^64-1 or everything fits (`Pruning.KeptFitsExactly`);
  `Pruning.FullBudgetIsExceeded` gives rows for which it is broken.
- The stderr buffer's `truncated` flag is also set by a chunk that fills the buffer exactly, when
  nothing is lost (`RawCapture.TailAll`, `RawCapture.FullChunkIsReported`).
- Encoded values decode to themselves iff each of them parses back (`JsonLines.EncodedDecodes`).
- Redacting twice is redacting once for every text without separators and scheme words
  (`RedactionStable.RedactAgain`), and not for every text (`RedactionTwice.RedactTwice`).

## Model

| member | source | states |
|---|---|---|
| `PendingTrackers.EveryRunIsValid` | crates/maestrod/src/fake_session.rs:1843-2067 | After every sequence of tracker operations from an empty tracker: active and in-flight ids are disjoint and together at most `capacity`; the memory lists each remembered key once and is exactly the disjoint union of resolved and uncertain; no live request is remembered. |
| `PendingTrackers.StepKeepsValid` | crates/maestrod/src/fake_session.rs:1855-2067 | Every single operation keeps that invariant, including refused ones. |
| `PendingTrackers.RunAppends` | crates/maestrod/src/fake_session.rs:2043-2067 | The memory after any run is the newest `capacity` of the keys ever remembered, in order: eviction is first in, first out. |
| `PendingTrackers.RememberedExactlyCapacity` | crates/maestrod/src/fake_session.rs:1855-1875 | A key just remembered stays remembered while fewer than `capacity` further keys are remembered and is forgotten by the one that makes `capacity`; until then it cannot be remembered anew. |
| `PendingTrackers.RegistrationBlocked` | crates/maestrod/src/fake_session.rs:1855-1875 | Registration succeeds if and only if there is room, the id is not live, and the key is not in the memory. |
| `PendingTrackers.RefusalsAreExact` | crates/maestrod/src/fake_session.rs:1855-1894 | Which refusal is given: a full tracker comes first, then a taken id or key; a claim of an id that is not active is unknown, of another kind or at its deadline expired or of the wrong type. |
| `PendingTrackers.StepSparesOthers` | crates/maestrod/src/fake_session.rs:1855-2041 | Every operation but the final clearing leaves the active and in-flight requests with other ids exactly as they were. |
| `PendingTrackers.GoneIsRemembered` | crates/maestrod/src/fake_session.rs:2043-2067 | A live request stops being live only through an operation on its own key, and is then the newest key remembered. |
| `PendingTrackers.ClaimMoves` | crates/maestrod/src/fake_session.rs:1877-1894 | A claim succeeds iff the request waits under that id and kind and its deadline is ahead; it is then in flight with the same kind and deadline, and the memory is untouched. |
| `PendingTrackers.RestoreUndoesClaim` | crates/maestrod/src/fake_session.rs:1896-1910 | Restoring after a claim gives back the tracker as it was. |
| `PendingTrackers.SettlingExactly` | crates/maestrod/src/fake_session.rs:1912-1991 | Exactly when resolving, forced resolving and expiring succeed, and that the request then no longer waits and is remembered as resolved. |
| `PendingTrackers.DoubtAndConfirmationExactly` | crates/maestrod/src/fake_session.rs:1936-2016 | Exactly when a doubtful delivery counts as confirmed and when a confirmation is accepted, and that the request is then remembered as uncertain or resolved. |
| `PendingTrackers.PendingTracker.EvictOldest` | crates/maestrod/src/fake_session.rs:2043-2067 | The pop-front loop forgets exactly the surplus oldest keys. |
| `PendingTrackers.PendingTracker.DoRegister` | crates/maestrod/src/fake_session.rs:1855-1875 | In-place registration has the value-level effect, or refuses for the same reason and changes nothing. |
| `PendingTrackers.PendingTracker.DoClaim` | crates/maestrod/src/fake_session.rs:1877-1894 | Claiming moves an active, unexpired request of the right kind to in flight; otherwise nothing changes. |
| `PendingTrackers.PendingTracker.DoRestore` | crates/maestrod/src/fake_session.rs:1896-1910 | Restoring moves an in-flight request of the right kind back to active. |
| `PendingTrackers.PendingTracker.DoResolveInFlight` | crates/maestrod/src/fake_session.rs:1912-1934 | Resolving an in-flight request remembers it; a key already resolved is accepted unchanged. |
| `PendingTrackers.PendingTracker.DoMarkUncertain` | crates/maestrod/src/fake_session.rs:1936-1950 | A doubtful write turns the in-flight request into an uncertain memory, unless the child has confirmed it already. |
| `PendingTrackers.PendingTracker.DoResolveActive` | crates/maestrod/src/fake_session.rs:1952-1966 | Resolving an active request, with the two refusals. |
| `PendingTrackers.PendingTracker.DoForceResolve` | crates/maestrod/src/fake_session.rs:1968-1977 | Forced resolution of an active request of the right kind only. |
| `PendingTrackers.PendingTracker.DoExpire` | crates/maestrod/src/fake_session.rs:1979-1991 | Expiry succeeds exactly for an active request of the right kind whose deadline is reached. |
| `PendingTrackers.PendingTracker.DoConfirm` | crates/maestrod/src/fake_session.rs:1997-2016 | A confirmation settles an uncertain or in-flight request and says whether the key is now resolved. |
| `PendingTrackers.PendingTracker.DoClearActive` | crates/maestrod/src/fake_session.rs:2038-2041 | Clearing drops live requests and keeps the memory. |
| `Delivery.DeliveredAtMostOnce` | crates/maestrod/src/fake_session.rs:782-826 | In every interleaving of responders, timers, child result frames, GUI actions and finalization: at most one stdin write per request that may have reached the child, answer or cancel; at most one audit event per request; and an audit only after a sure write or a confirmation by the child. |
| `Delivery.RunIsSafe` | crates/maestrod/src/fake_session.rs:1535-1633 | The inductive invariant behind it holds in every reachable state: one contender per request, active requests untouched, every in-flight request owned by its claimant. |
| `Delivery.NextKeepsSafe` | crates/maestrod/src/fake_session.rs:782-826 | Every step of every task keeps that invariant. |
| `Delivery.WriteKeepsSafe` | crates/maestrod/src/fake_session.rs:1248-1274 | The three outcomes of a write (done, doubtful, certainly not sent) keep it. |
| `Delivery.GiveBackKeepsSafe` | crates/maestrod/src/fake_session.rs:1620-1622 | Restoring after a write that certainly failed leaves the request untouched, so a retry is safe. |
| `Delivery.ExpireKeepsSafe` | crates/maestrod/src/fake_session.rs:1564-1602 | The expiry step and its cancel never follow an answer that may have been written. |
| `Delivery.ResultFrameKeepsSafe` | crates/maestrod/src/fake_session.rs:1997-2016 | Confirmations from the child, at any moment, keep it. |
| `Delivery.RunStrandsNone` | crates/maestrod/src/fake_session.rs:1543-1561 | In every run, every live request before its deadline has its timer asleep, and until the run is finalized every active request has a task on its way to the expiry step. |
| `Delivery.PastDeadlineIsExpired` | crates/maestrod/src/fake_session.rs:794-810 | Until the run is finalized, a request past its deadline cannot be claimed, some task is about to expire it, and whoever takes that step succeeds. |
| `Delivery.ExpirerFinishes` | crates/maestrod/src/fake_session.rs:1564-1602 | Once a task that awaited the expiry of a due request is past its expiry step, in a run not yet finalized, the request is not live, and it never is again. |
| `Delivery.NextStrandsNone` | crates/maestrod/src/fake_session.rs:1564-1602 | Every step keeps the timers and expirers in place. |
| `Delivery.RunLosesNothing` | crates/maestrod/src/fake_session.rs:1535-1633 | Until the run is finalized no request is lost: every one ever registered is still active or in flight, or has been the newest key the tracker remembered. |
| `Delivery.NextLosesNothing` | crates/maestrod/src/fake_session.rs:1877-1991 | No single step before finalization loses a live request without remembering it. |
| `Delivery.AnswerIsPossible` | crates/maestrod/src/fake_session.rs:782-826 | From every state a responder can take a waiting request before its deadline through one sure write and one audit to its resolution. |
| `Delivery.ExpiryIsPossible` | crates/maestrod/src/fake_session.rs:1564-1602 | From every unfinalized state the timer of a due request can take it through its announcement and one cancel write to its resolution. |
| `Delivery.RunRecordsWrites` | crates/maestrod/src/fake_session.rs:1248-1274 | In every run whoever has written, surely or doubtfully, has that write in the log. |
| `DeliveryLaws.TrackerDecides` | crates/maestrod/src/fake_session.rs:782-826 | Whenever a task moves on, the tracker has decided where to: a sure write is audited iff its request was in flight or confirmed, a doubtful one iff it was confirmed; a given-back request goes on to its expiry check, which stops iff the run is finalized; an expiry is announced iff the request is active and due. |
| `DeliveryLaws.ActionsAreNeverWritten` | crates/maestrod/src/fake_session.rs:1588-1601 | In no run is an answer or a cancellation of a GUI action written to the child, nor does any responder ever hold one. |
| `DeliveryLaws.FinalizedRunIsSilent` | crates/maestrod/src/fake_session.rs:1571-1573 | Once a run is finalized and no expiry is under way, no later step announces or cancels one, whatever timers are left. |
| `DeliveryLaws.FinalizationIsPossible` | crates/maestrod/src/fake_session.rs:2038-2041 | From every state two steps finalize the run and leave nothing waiting, with the memory intact. |
| `SessionEvents.RunIsConsistent` | crates/maestrod/src/fake_session.rs:1202-1228 | In every interleaving of publish, subscribe, receive and drop: the log retains exactly the contiguous numbers dropped+1..latest, the newest `replayEvents` of them, as published; and every subscriber's view agrees with the history. |
| `SessionEvents.PublishKeepsConsistent` | crates/maestrod/src/fake_session.rs:1202-1228 | One publish keeps the log exact and every subscriber joined, whether or not its queue overflows. |
| `SessionEvents.SubscribeJoins` | crates/maestrod/src/fake_session.rs:603-632 | A subscription is refused iff its cursor is in the future; else its replay is exactly max(cursor, dropped)+1..latest, and a gap is reported iff events were dropped after the cursor, with its exact bounds. |
| `SessionEvents.ReceiveKeepsAhead` | crates/maestrod/src/fake_session.rs:206-218 | What a subscriber receives next is the next event of the history, or a lag report that covers exactly the missed stretch. |
| `SessionEvents.NoLagNoHole` | crates/maestrod/src/fake_session.rs:206-218 | A subscriber never told of a lag has seen start+1, start+2, ... with no hole and no duplicate, each as published. |
| `SessionEvents.SessionHub.DoPublish` | crates/maestrod/src/fake_session.rs:1202-1228 | The in-place publish: next number, push, pop-front loop, fan-out; refused only when the numbers are exhausted. |
| `SessionEvents.SessionHub.DoSubscribe` | crates/maestrod/src/fake_session.rs:603-632 | The in-place subscribe under the log's lock. |
| `SessionEvents.SessionHub.DoReceive` | crates/maestrod/src/fake_session.rs:206-218 | Replay first, then the live queue or its lag report. |
| `SessionEvents.ReadSessionEvents` | crates/maestrod/src/server.rs:1708-1772 | A page holds exactly the events after its cursor, or after its reported gap, in order and at most `maximum`, while others publish in between; it is full or reaches the newest event of the moment it ends; an empty page means that nobody published, and with `wait` not while it waited either; it is refused iff the cursor is ahead; a lag of m events is reported only if at least the channel's capacity plus m events were published during the read, and a read during which no more than the capacity is published succeeds. |
| `SessionEvents.ChainedReadsCover` | crates/maestrod/src/server.rs:1708-1772 | Over any chain of reads by `next_sequence`, every number up to the last cursor is accounted for exactly once, in order: returned, or inside a reported gap. |
| `SessionEvents.TakeSparesOthers` | crates/maestrod/src/fake_session.rs:1202-1228 | A step leaves every other subscriber as it is; a publication changes nothing of what others have seen or will be replayed. |
| `SessionEvents.OnlyPublishingChangesTheLog` | crates/maestrod/src/fake_session.rs:603-632 | Subscribing, receiving and dropping leave the log and its counters alone. |
| `BindingLeases.EveryRunIsExclusive` | crates/maestrod/src/fake_session.rs:974-1083 | In every interleaving of launches, binding frames, failed launches and finalizations: the table maps a binding to a token iff that token's task holds it; no two tasks hold one binding; and with nothing live the table, the launching flags and the active runs are empty. |
| `BindingLeases.RunKeepsSafe` | crates/maestrod/src/fake_session.rs:1166-1200 | The table, the launching flags and the active runs stay exact along every run: each flag belongs to exactly one launch, each active run to exactly one task. |
| `BindingLeases.LeaseIsStable` | crates/maestrod/src/fake_session.rs:380-388 | Whatever the other tasks do, releases by old tokens and new launches in the same session included, the table keeps naming the holder until the holder itself gives up. |
| `BindingLeases.EveryRunCanDrain` | crates/maestrod/src/fake_session.rs:1699-1709 | From every reachable state the tasks can finish by their own steps, and then no lease, flag or active run is left: nothing is leaked. |
| `BindingLeases.EffectShiftsLease` | crates/maestrod/src/fake_session.rs:1405-1420 | Every task step keeps its lease, claims a free binding, or releases the one it holds. |
| `BindingLeases.BindingTable.ClaimBinding` | crates/maestrod/src/fake_session.rs:1166-1187 | A claim succeeds iff the identifier is valid and free; it adds one entry or changes nothing and names the owner. |
| `BindingLeases.BindingTable.ReleaseBinding` | crates/maestrod/src/fake_session.rs:1189-1200 | A release removes the entry of its own token only; every other entry stays. |
| `BindingLeases.EveryRunHonorsRequests` | crates/maestrod/src/fake_session.rs:974-1083 | In every run a task that asked for a binding holds it from its claim to its release, so of all tasks that asked for one binding at most one is past its claim. |
| `BindingLeases.ClaimDecides` | crates/maestrod/src/fake_session.rs:974-982 | The claim of a launch ends in the launch guard with the table extended iff the identifier is valid and free, else in refusal with the table unchanged. |
| `BindingLeases.FrameDecides` | crates/maestrod/src/fake_session.rs:1405-1420 | A binding frame claims for a run without a lease under the same condition; otherwise the run keeps none and the table is unchanged. |
| `BindingLeases.InstallDecides` | crates/maestrod/src/fake_session.rs:1067-1082 | Installing succeeds iff the session has no active run. |
| `BindingLeases.ReleaseFrees` | crates/maestrod/src/fake_session.rs:1699-1709 | The release of a holder frees exactly its binding. |
| `BindingLeases.TakeSparesOthers` | crates/maestrod/src/fake_session.rs:974-1083 | A step changes no task but its own and takes no token back. |
| `BindingLeases.LaunchSucceeds` | crates/maestrod/src/fake_session.rs:974-1083 | A launch nobody hinders ends with a running task that holds the requested binding, the table and the active run extended by it, and its flag cleared. |
| `BindingLeases.RunEnds` | crates/maestrod/src/fake_session.rs:1699-1709 | A finalized run gives back its binding and its session, and nothing else changes. |
| `JsonLines.BoundedJsonLineDecoder.New` | crates/maestro-adapter/src/jsonl.rs:110-125 | Construction succeeds iff the limit is in 1..=1 MiB. |
| `JsonLines.BatchLimitIsExact` | crates/maestro-adapter/src/jsonl.rs:110-125 | The saturating batch-limit arithmetic is (L+1)*4 exactly for the limits up to the ceiling: it neither saturates nor clips a legal one. |
| `JsonLines.BoundedJsonLineDecoder.ExtendChecked` | crates/maestro-adapter/src/jsonl.rs:194-202 | Buffering succeeds iff the frame stays within the limit; otherwise the decoder is poisoned and empty. |
| `JsonLines.BoundedJsonLineDecoder.Push` | crates/maestro-adapter/src/jsonl.rs:127-177 | One push against the split-on-newline specification: accepted frames up to the fan-out limit, the first violation in the code's order, and the unfinished line carried over. |
| `JsonLines.BoundedJsonLineDecoder.Finish` | crates/maestro-adapter/src/jsonl.rs:179-188 | Finishing succeeds iff nothing is buffered and the decoder is not poisoned. |
| `JsonLines.LinesRejoin` | crates/maestro-adapter/src/jsonl.rs:127-177 | The lines and the unfinished rest, joined by newlines, are the bytes. |
| `JsonLines.LinesHoldNoNewline` | crates/maestro-adapter/src/jsonl.rs:127-177 | No line holds a newline; with the rejoining law this fixes the split. |
| `JsonLines.AcceptedMeans` | crates/maestro-adapter/src/jsonl.rs:127-177 | The frames are the parsed lines, in order, up to the first line that is too long or does not parse. |
| `JsonLines.FaultMeans` | crates/maestro-adapter/src/jsonl.rs:127-177 | A fault is the first bad line, oversized or malformed, or an unfinished line that is already too long. |
| `JsonLines.OneReturnIsDropped` | crates/maestro-adapter/src/jsonl.rs:145-147 | One carriage return before the newline is dropped from a line. |
| `JsonLines.FanOutIsExact` | crates/maestro-adapter/src/jsonl.rs:127-177 | A push is refused for its fan-out iff it brings more than 1024 lines and the first 1024 are good. |
| `JsonLines.BatchIsExact` | crates/maestro-adapter/src/jsonl.rs:127-177 | A push is refused for its size iff it is larger than the batch limit, all lines within the limit are good, and they are not too many. |
| `JsonLines.PushErrorIsFault` | crates/maestro-adapter/src/jsonl.rs:127-177 | Within the batch and fan-out limits a push fails exactly when the plain specification does, for the same reason. |
| `JsonLines.JsonLineDecoder.Push` | crates/maestrod/src/fake_session.rs:2139-2185 | The byte-wise decoder returns exactly the frames of the specification and fails in the same push for the same reason. |
| `JsonLines.JsonLineDecoder.Finish` | crates/maestrod/src/fake_session.rs:2187-2196 | End of input is clean iff no partial frame is left. |
| `JsonLines.PushBoth` | crates/maestrod/src/fake_session.rs:2139-2196 | For every chunk list within the limits both decoders return the same frames push by push and first fail in the same push. |
| `JsonLines.ChunkingIsIrrelevant` | crates/maestro-adapter/src/jsonl.rs:127-213 | For every chunking, the frames accepted and whether it fails are those of the specification on the concatenated bytes: the longest prefix of good lines. |
| `JsonLines.ChunkingsAgree` | crates/maestro-adapter/src/jsonl.rs:127-213 | Any two chunkings of one stream accept the same frames and both fail or both do not. |
| `JsonLines.FaultIsFinal` | crates/maestro-adapter/src/jsonl.rs:204-213 | After the first fault no further bytes change the frames or the fault. |
| `JsonLines.DecodeContinues` | crates/maestro-adapter/src/jsonl.rs:127-177 | Between pushes only the unfinished line matters. |
| `JsonLines.ReadStdout` | crates/maestrod/src/fake_session.rs:1337-1367 | The read loop hands on the frames of the specification in order, up to the first that its handler refuses; it ends without a failure iff the pipe ends cleanly, every frame is accepted and the stream is a list of good lines; otherwise the failure says which of these did not hold. |
| `JsonLines.DecodeStream` | crates/maestro-adapter/src/jsonl.rs:127-188 | A whole stream through `push` and `finish` of the bounded decoder, with the exact final error. |
| `JsonLines.EncodedDecodes` | crates/maestro-adapter/src/jsonl.rs:257-272 | Concatenated encoder output splits into the serialized lines with nothing left over, and decodes to the encoded values with no fault iff each of them parses back from its own serialization. |
| `JsonLines.RoundTrip` | crates/maestro-adapter/src/jsonl.rs:257-282 | Any values accepted by the encoder, concatenated and re-chunked within the limits, decode to the same list and `finish` succeeds, iff each of the values parses back from its own serialization. |
| `ProcessGroups.EveryRunIsSafe` | crates/maestro-process/src/structured.rs:253-278 | In every interleaving of supervisors, terminating callers, droppers and foreign processes that reuse numbers: every signal hits the leader it was meant for; at most one final SIGKILL per owner; slots in use plus slots free equal the limit, and every child its supervisor has not seen off holds a slot; and a finished outcome implies a closed gate, a freed slot and, when the exit is reported as clean, a reaped leader. |
| `ProcessGroups.NoSignalAfterReap` | crates/maestro-process/src/process_group.rs:83-125 | Over any continuation: no group signal once the gate is closed; once the supervisor waits for the reap no signal of any kind, except at most one kill of the child itself by its dropped handle after a wait that failed; and no signal whatever once the leader is reaped. |
| `ProcessGroups.ReapMeansClosed` | crates/maestro-process/src/structured.rs:253-278 | In every safe state, a supervisor that has begun to reap has closed the gate. |
| `ProcessGroups.TakeKeepsSafe` | crates/maestro-process/src/structured.rs:211-230 | Every atomic action of every agent, and every action of the rest of the machine, keeps the invariant: lock ownership, gate state, reaping order, pid table and kill count. |
| `ProcessGroups.EffectKillsOnce` | crates/maestro-process/src/process_group.rs:83-109 | The gate changes only by the close that follows a final kill, and a final kill is sent only by the lock holder through the open gate. |
| `ProcessGroups.SupervisorKeepsOrder` | crates/maestro-process/src/structured.rs:253-278 | Seal, then reap, then free the slot, then publish: each supervisor action keeps that order. |
| `ProcessGroups.OwnedProcessGroup.SealWith` | crates/maestro-process/src/process_group.rs:83-95 | One seal: the kill is sent iff the gate was open, and the gate is closed even if the kill fails. |
| `ProcessGroups.OwnedProcessGroup.TrySeal` | crates/maestro-process/src/process_group.rs:97-109 | The best-effort seal does nothing when the lock is taken and otherwise closes the gate. |
| `ProcessGroups.OwnedProcessGroup.SignalWith` | crates/maestro-process/src/process_group.rs:116-125 | A signal is sent iff the gate is open; the gate is unchanged. |
| `ProcessGroups.ProcessSpawner.TryReserve` | crates/maestro-process/src/lib.rs:120-129 | A slot is reserved iff one is free, and the active count goes up by one. |
| `ProcessGroups.ProcessSpawner.Free` | crates/maestro-process/src/structured.rs:276-276 | A dropped permit frees exactly one slot. |
| `ProcessGroups.ActSparesOthers` | crates/maestro-process/src/structured.rs:253-278 | An action changes no agent but its own, and no process and no slot but those of that agent's process. |
| `ProcessGroups.FailedSpawnUndoesReserve` | crates/maestro-process/src/structured.rs:98-118 | A reserved slot is given back when the spawn fails, and then nothing has happened. |
| `ProcessGroups.SpawnStarts` | crates/maestro-process/src/structured.rs:113-128 | A spawned process has an open gate, its own number and a supervisor waiting for its exit; its slot stays taken. |
| `ProcessGroups.ArrivalChecks` | crates/maestro-process/src/structured.rs:211-214 | A caller or a dropper first looks at the outcome, and arriving changes nothing else. |
| `ProcessGroups.PassesGate` | crates/maestro-process/src/process_group.rs:83-125 | Whoever passes the open gate alone sends one signal, closes the gate unless it only terminates, and unlocks it. |
| `ProcessGroups.FindsGateClosed` | crates/maestro-process/src/process_group.rs:83-125 | Behind a closed gate nothing is sent and the operation succeeds. |
| `ProcessGroups.TerminateSignals` | crates/maestro-process/src/structured.rs:211-216 | Terminating a live process sends SIGTERM, leaves the gate open and waits. |
| `ProcessGroups.FailedSignalEndsTheCall` | crates/maestro-process/src/structured.rs:211-222 | A signal that cannot be delivered ends the call, with the gate closed iff it was the final one. |
| `ProcessGroups.TerminateEscalates` | crates/maestro-process/src/structured.rs:217-222 | When the grace has run out the caller sends the final SIGKILL, closes the gate and waits on. |
| `ProcessGroups.FinishedEndsTheWait` | crates/maestro-process/src/structured.rs:211-222 | A caller does nothing when there is an outcome, and waits no longer than for it. |
| `ProcessGroups.DropKills` | crates/maestro-process/src/structured.rs:225-231 | Dropping the handle of a live process kills its group and closes the gate. |
| `ProcessGroups.SupervisorSeals` | crates/maestro-process/src/structured.rs:253-262 | From the leader's exit to the reap: one final kill through the open gate, and the fallback kill iff that failed. |
| `ProcessGroups.SupervisorEnds` | crates/maestro-process/src/structured.rs:262-278 | From the reap to the end: the outcome is an exit iff observation, seal and reap all succeeded, and a child not reaped may be killed once more. |
| `Redaction.RedactText` | crates/maestro-redaction/src/lib.rs:74-86 | For every valid UTF-8 text: the merged ranges are the one separated list covering exactly the secret bytes, each is replaced by one marker, every other byte is kept in order, and the result is valid UTF-8. |
| `RedactionTwice.RedactTwice` | crates/maestro-redaction/src/lib.rs:348-354 | `Authorization: Bearer x` becomes `Authorization: Bearer [REDACTED]`, and that becomes `Authorization: [REDACTED] [REDACTED]`: redaction is not idempotent on all texts. |
| `RedactionStable.RedactAgain` | crates/maestro-redaction/src/lib.rs:74-86 | For every valid text without `=`, without `:` and without `bearer` or `basic` in any case, redacting twice is redacting once. |
| `RedactionStable.NothingLeft` | crates/maestro-redaction/src/lib.rs:225-267 | The redacted form of such a text holds no secret: no token starts, ends or joins anew beside a marker. |
| `RedactionStable.PieceTokenIsToken` | crates/maestro-redaction/src/lib.rs:225-267 | A token of a kept stretch between two markers is a token of the original text, at the same place. |
| `Redaction.SecretRanges` | crates/maestro-redaction/src/lib.rs:150-157 | The collectors together report exactly the specified secrets, and the merge covers exactly their union. |
| `Redaction.EverySecretFits` | crates/maestro-redaction/src/lib.rs:150-267 | Every range any collector reports is nonempty and lies on character boundaries. |
| `Redaction.SecretsAreUnique` | crates/maestro-redaction/src/lib.rs:391-409 | At most one separated list covers a given set of secret bytes, so the result does not depend on collection order. |
| `Redaction.CollectAssignments` | crates/maestro-redaction/src/lib.rs:159-185 | The ranges collected are exactly the secrets assigned at the separators of the text. |
| `Redaction.CollectScheme` | crates/maestro-redaction/src/lib.rs:187-223 | The credentials collected are exactly the looking candidates of the occurrences of the scheme word that count, where an occurrence counts iff no earlier one that counts spans it. |
| `Redaction.UnspannedCounts` | crates/maestro-redaction/src/lib.rs:187-223 | Every occurrence of the word that no earlier occurrence spans counts, so its credential is collected. |
| `RedactionLaws.EscapedMeans` | crates/maestro-redaction/src/lib.rs:519-527 | A position behind n backslashes is escaped iff n is odd. |
| `RedactionLaws.WrittenFieldIsHidden` | crates/maestro-redaction/src/lib.rs:281-346 | In every valid text `a` + quote key quote spaces separator spaces quote value quote + `b`, whatever `a` (not ending in a backslash) and `b` are: if the normalized key is sensitive and no authorization key, every byte of the value is replaced. |
| `RedactionLaws.AssignedIsHidden` | crates/maestro-redaction/src/lib.rs:159-185 | The same for every combination of quoted and bare keys and values, escaped quotes included: the value of a key that names a secret is replaced. |
| `RedactionLaws.FieldIsHidden` | crates/maestro-redaction/src/lib.rs:281-346 | The same for a quoted field given by its positions. |
| `RedactionLaws.SecretNameMeans` | crates/maestro-redaction/src/lib.rs:159-185 | A key names a secret iff its normalized name is sensitive, or is a query-only name right behind a query mark. |
| `RedactionLaws.HarmlessIsLeft` | crates/maestro-redaction/src/lib.rs:159-185 | Where the key names no secret, nothing is taken. |
| `RedactionLaws.MarkerIsLeft` | crates/maestro-redaction/src/lib.rs:391-398 | A marker that is itself found as a secret is not replaced. |
| `RedactionLaws.AuthorizationHidesTheLine` | crates/maestro-redaction/src/lib.rs:348-378 | A bare authorization value that is no scheme word is replaced to the end of its line. |
| `RedactionLaws.AuthorizationHidesTheQuoted` | crates/maestro-redaction/src/lib.rs:348-378 | A quoted authorization value that names no scheme is replaced as far as its quotes reach. |
| `RedactionLaws.AuthorizationHidesTheCredential` | crates/maestro-redaction/src/lib.rs:348-378 | The credential behind a scheme word is replaced, whether the word is the value or begins it. |
| `RedactionLaws.CredentialIsHidden` | crates/maestro-redaction/src/lib.rs:187-223 | What stands behind `bearer` or `basic` as a word, and looks like its credential, is replaced without any key. |
| `RedactionLaws.OtherwiseIsLeft` | crates/maestro-redaction/src/lib.rs:187-223 | A scheme word inside a longer word, without white space behind it or before a value of another shape, gives no credential. |
| `RedactionLaws.PrefixedIsHidden` | crates/maestro-redaction/src/lib.rs:247-279 | A whole run of token bytes with the shape of a vendor's credential is replaced. |
| `RedactionLaws.JwtIsHidden` | crates/maestro-redaction/src/lib.rs:225-245 | Three segments of at least eight token bytes joined by dots, the first beginning `eyJ`, are replaced when nothing of their kind stands beside them. |
| `RedactionLaws.OtherRunIsLeft` | crates/maestro-redaction/src/lib.rs:225-279 | In a whole run that does not look like a token none is found. |
| `RedactionLaws.PunctuationIsIgnored` | crates/maestro-redaction/src/lib.rs:433-438 | Punctuation anywhere in a key does not change its normalized name. |
| `RedactionLaws.CaseIsIgnored` | crates/maestro-redaction/src/lib.rs:433-438 | Nor does the case of a letter. |
| `RedactionLaws.PlainKeyIsItsName` | crates/maestro-redaction/src/lib.rs:433-438 | A key of lower-case letters and digits is its own normalized name. |
| `Redaction.CollectJwts` | crates/maestro-redaction/src/lib.rs:225-245 | Exactly the maximal token runs that start with the prefix at a boundary and look like a JSON web token. |
| `Redaction.CollectPrefixed` | crates/maestro-redaction/src/lib.rs:247-267 | Exactly the maximal token runs with the shape of a prefixed credential, although the cursor jumps over scanned runs. |
| `Redaction.NoTokenInside` | crates/maestro-redaction/src/lib.rs:247-267 | No token starts inside another, which is what justifies the jump. |
| `Redaction.KeyBeforeSeparator` | crates/maestro-redaction/src/lib.rs:281-306 | The backward scan finds the quoted or bare key that the specification names. |
| `Redaction.KeyBeforeFits` | crates/maestro-redaction/src/lib.rs:281-306 | A key found before a separator is a nonempty slice on character boundaries. |
| `Redaction.PreviousUnescapedQuote` | crates/maestro-redaction/src/lib.rs:308-317 | The last unescaped quote before a position. |
| `Redaction.ValueStartingAt` | crates/maestro-redaction/src/lib.rs:323-346 | The quoted or bare value at a position, nothing when it is empty or already redacted. |
| `Redaction.ValueAtFits` | crates/maestro-redaction/src/lib.rs:323-346 | Such a value is a nonempty slice on character boundaries. |
| `Redaction.AuthorizationSecretRange` | crates/maestro-redaction/src/lib.rs:348-378 | The credential after a scheme word, the scheme word's own value when none follows, else the rest of the line. |
| `Redaction.AuthorizationSecretFits` | crates/maestro-redaction/src/lib.rs:348-378 | That range is nonempty and on boundaries. |
| `Redaction.IsEscaped` | crates/maestro-redaction/src/lib.rs:519-527 | Escaped means an odd number of backslashes directly before. |
| `Redaction.NormalizeRanges` | crates/maestro-redaction/src/lib.rs:391-409 | Sort and merge give ranges that are sorted, at least one byte apart, and cover exactly the union of the ranges that pass the filter. |
| `Redaction.MergedIsUnique` | crates/maestro-redaction/src/lib.rs:391-409 | A separated list is determined by the bytes it covers. |
| `Redaction.RenderRedacted` | crates/maestro-redaction/src/lib.rs:411-431 | The single pass replaces each range by one marker and keeps all other bytes in order. |
| `Redaction.ReplaceIsValid` | crates/maestro-redaction/src/lib.rs:411-431 | Replacing boundary ranges by a valid marker gives valid UTF-8. |
| `Utf8.SplitValid` | crates/maestro-redaction/src/lib.rs:323-346 | A valid string may be cut at any boundary and both halves are valid. |
| `Utf8.EncodedIsValid` | crates/maestro-redaction/src/lib.rs:74-86 | Every text of Unicode scalar values encodes to a valid string. |
| `Utf8.ValidIsEncoded` | crates/maestro-redaction/src/lib.rs:74-86 | Every valid string is the encoding of such a text. |
| `Utf8.ValidIsSliceable` | crates/maestro-redaction/src/lib.rs:150-267 | In valid UTF-8 every ASCII byte has a boundary on both sides, which is all that the scanners' slices rely on. |
| `Retention.FromRecords` | crates/maestro-storage/src/retention.rs:85-160 | For every record list, policy and time, the planner's result is the plan of the deduplicated records: sorted, one per key, and holding a record iff its category is disabled, it is over age, or the `u64` running total puts it over its owner's budget. |
| `Retention.UniqueKeepsFirst` | crates/maestro-storage/src/retention.rs:90-93 | Sort and dedup keep exactly the first record of each (category, id), in key order. |
| `Retention.PlanCategory` | crates/maestro-storage/src/retention.rs:96-146 | One category selects exactly its share of the plan, whatever the hash map's iteration order. |
| `Retention.SelectOverBudget` | crates/maestro-storage/src/retention.rs:122-145 | The saturating fold and the subtract-until-within loop delete exactly the prefix `Cut` of the oldest-first order. |
| `Retention.CutIsOverBudget` | crates/maestro-storage/src/retention.rs:122-145 | Oldest first, the deleted prefix is exactly the set of records over budget. |
| `Retention.PlanIsUnique` | crates/maestro-storage/src/retention.rs:148-160 | At most one list is the plan of given records: hash-map order leaves no trace. |
| `Retention.InputOrderIsIrrelevant` | crates/maestro-storage/src/retention.rs:90-160 | With unique keys, shuffling the records does not change the plan. |
| `Retention.CategoriesAreIndependent` | crates/maestro-storage/src/retention.rs:96-146 | Changing other categories' policies leaves a category's candidates, and their order, as they were. |
| `Retention.BudgetHolds` | crates/maestro-storage/src/retention.rs:122-145 | When an owner's bytes fit in `u64`, the survivors fit the limit. |
| `Retention.BudgetIsTight` | crates/maestro-storage/src/retention.rs:122-145 | Then also the survivors and the newest byte-budget deletion together exceed the limit. |
| `Retention.DeletionsAreOldest` | crates/maestro-storage/src/retention.rs:122-145 | Whatever is older than a byte-budget deletion is deleted too. |
| `Retention.OldestGoFirst` | crates/maestro-storage/src/retention.rs:131-145 | If a record is planned, every record of the same category and owner that was created earlier, or at the same time with a smaller id, is planned too. |
| `Retention.PlanIsListedByAge` | crates/maestro-storage/src/retention.rs:149-155 | Candidates are listed by category, then by creation time, then by id. |
| `Retention.AgeAloneDecides` | crates/maestro-storage/src/retention.rs:112-120 | In an enabled category without a byte limit a record is planned iff it is older than the maximum age; so is then everything of that category created no later. |
| `Retention.DisabledGoesWhole` | crates/maestro-storage/src/retention.rs:107-110 | A disabled category is planned whole. |
| `Retention.EachCategoryHasItsPolicy` | crates/maestro-storage/src/retention.rs:56-62 | Each category answers to its own policy: without limits the plan is exactly what the disabled categories hold. |
| `Retention.SurvivorsFitExactly` | crates/maestro-storage/src/retention.rs:133-145 | For all sums: the survivors fit iff no prefix of the oldest-first sizes lies in [2^64-1-max, total-max), an interval that is empty when the total fits in `u64`. |
| `Retention.SaturationBreaksTheBudget` | crates/maestro-storage/src/retention.rs:133-135 | Three records of one owner, each of 2^63-1 bytes, the largest size the store holds, with limit 1: the third survives, so the bound on the sums is needed. |
| `Retention.PlanLeavesBudgets` | crates/maestro-storage/src/retention.rs:96-146 | After a plan is carried out every owner of an enabled bounded category is within budget. |
| `Retention.ReplanIsEmpty` | crates/maestro-storage/src/retention.rs:85-160 | When per-owner sums fit in `u64`: for the records a plan leaves, loaded again in any order, the planner's plan is empty. |
| `Retention.Replan` | crates/maestro-storage/src/retention.rs:85-160 | The planner run again on what its plan left returns no candidate. |
| `RetentionBatches.RetentionPlan.ExecuteBatch` | crates/maestro-storage/src/retention.rs:238-290 | A transaction removes exactly the first min(requested, 256, rest) candidates' rows, clears the events' references to their raw segments, reports the rows it found, and drains the plan only on commit; zero is refused and a failure changes nothing. |
| `RetentionBatches.BatchesRemoveExactly` | crates/maestro-storage/src/retention.rs:238-290 | For every sequence of batch sizes and transaction failures, exactly a prefix of the plan has been carried out, in the rows and in the event references. |
| `RetentionBatches.ExecuteCarriesOut` | crates/maestro-storage/src/retention.rs:246-247 | One batch carries out a prefix of at most 256 candidates. |
| `RetentionBatches.ReferencesFollow` | crates/maestro-storage/src/retention.rs:250-283 | An event loses its raw reference iff a raw segment at that path was deleted, and never gets another one. |
| `RetentionBatches.ReleasedExactly` | crates/maestro-storage/src/retention.rs:250-283 | The released paths are exactly those of the deleted segments that the store still had. |
| `RetentionBatches.OnePathPerRow` | crates/maestro-storage/src/retention.rs:250-283 | As many paths are released as rows are deleted. |
| `RetentionBatches.BatchesExhaust` | crates/maestro-storage/src/retention.rs:238-290 | Batches of any positive size exhaust the plan, and then exactly the candidates are gone. |
| `RetentionBatches.RunMaintenance` | crates/maestrod/src/storage_runtime.rs:514-522 | The maintenance loop ends; a prefix of the plan is carried out, rows and event references alike, and only released files are gone; on success it is the whole plan, and every released file that was there is gone; it succeeds if every transaction commits and no file is refused. |
| `RetentionBatches.Files.RemoveReleased` | crates/maestrod/src/storage_runtime.rs:641-657 | The files at the released paths are removed one by one; a missing one is passed over, the first refused one ends it, and no other file is touched. |
| `Pruning.PruneTerminalSegments` | crates/maestro-storage/src/database.rs:424-466 | A negative stored size is refused with nothing deleted; otherwise exactly the rows that no longer fit, newest first, are deleted and their paths returned. |
| `Pruning.KeptFitsExactly` | crates/maestro-storage/src/database.rs:446-456 | What the pruner keeps fits the limit iff the limit is below 2^64-1 or everything fits in `u64`. |
| `Pruning.FullBudgetIsExceeded` | crates/maestro-storage/src/database.rs:446-456 | Three rows of 2^63-1 bytes under the limit 2^64-1: all are kept, and exceed it. |
| `Pruning.PruningPartitions` | crates/maestro-storage/src/database.rs:446-456 | Kept and expired rows together are the rows. |
| `Pruning.NewestAreKept` | crates/maestro-storage/src/database.rs:446-456 | The newest rows that fit together are all kept. |
| `Pruning.KeptIffItFits` | crates/maestro-storage/src/database.rs:446-456 | A row is kept iff it fits beside the newer rows that are kept, whatever larger ones were expired. |
| `Pruning.PrunerKeepsPlannersSurvivors` | crates/maestro-storage/src/database.rs:446-465 | Over one order and when the sums fit in `u64`, the pruner keeps every segment that the planner's byte rule keeps. |
| `GitStatus.ParseStatus` | crates/maestro-project/src/git.rs:344-368 | The index loop parses exactly what the recursive reading of the NUL-separated records says, errors included. |
| `GitStatus.RoundTrip` | crates/maestro-project/src/git.rs:344-433 | Printing any list of well-formed entries and headers in porcelain v2 -z form and parsing it gives the same entries, for all non-empty NUL-free paths and rename originals. |
| `GitStatus.EntryParses` | crates/maestro-project/src/git.rs:370-433 | Each printed record, alone, parses to its entry and consumes its own records only. |
| `GitStatus.ParsesIffItSays` | crates/maestro-project/src/git.rs:370-433 | A record parses to an entry iff it is laid out as that entry: the exact field count of its kind, two status letters, and a nonempty path; everything else is refused. |
| `GitStatus.ParsedIsWellFormed` | crates/maestro-project/src/git.rs:370-433 | Whatever the parser accepts consists of well-formed entries. |
| `GitStatus.ReprintParses` | crates/maestro-project/src/git.rs:344-433 | Printing what was parsed, with any fields in between, parses to the same entries again. |
| `GitStatus.SplitNJoined` | crates/maestro-project/src/git.rs:370-376 | Splitting into n+1 fields undoes joining n space-free fields before a path, whatever spaces the path has. |
| `Roots.NormalizeAbsolute` | crates/maestro-project/src/auth.rs:252-272 | The push/pop loop computes the normal form; a result is the root and nothing but names. |
| `Roots.NormalizeIsIdempotent` | crates/maestro-project/src/auth.rs:252-272 | Normalizing twice is normalizing once. |
| `Roots.NormalizeComposes` | crates/maestro-project/src/auth.rs:252-272 | Resolving a path in two stages is resolving it at once. |
| `Roots.ParentLeavesLast` | crates/maestro-project/src/auth.rs:252-272 | A name and the parent right after it cancel out anywhere in a path. |
| `Roots.CurrentIsPassedOver` | crates/maestro-project/src/auth.rs:252-272 | The current directory is passed over anywhere in a path. |
| `Roots.RootStartsOver` | crates/maestro-project/src/auth.rs:252-272 | A second root starts the path over. |
| `Roots.ListedByName` | crates/maestro-project/src/auth.rs:91-91 | Roots below one directory are listed by the bytes of the names in which they part. |
| `Roots.RefusedIfAndOnlyIfItClimbs` | crates/maestro-project/src/auth.rs:252-272 | An absolute path is refused iff some prefix of it has more parents than names. |
| `Roots.NewRoots` | crates/maestro-project/src/auth.rs:54-113 | Success means every requested root passed its checks and no canonical root is a component-prefix of another, in either direction; a failure names the first request that did not pass, or two requests that really coincide or nest. |
| `Roots.SortedWithoutClashIsAntichain` | crates/maestro-project/src/auth.rs:91-109 | After the sort, checking only later-starts-with-earlier rules out nesting both ways. |
| `Roots.FindClash` | crates/maestro-project/src/auth.rs:92-108 | The nested loops find a clash between an earlier and a later root iff there is one. |
| `Roots.Authorize` | crates/maestro-project/src/auth.rs:138-173 | A path is authorized iff it is absolute, normalizes, and starts with the canonical or requested path of some root; the result is that root's canonical path plus what follows the deepest such prefix, of the first root on a tie, all of it names. |
| `Roots.BeneathExactlyOneRoot` | crates/maestro-project/src/auth.rs:138-173 | An authorized path lies beneath its own canonical root and no other. |
| `Roots.AuthorizedIsNormal` | crates/maestro-project/src/auth.rs:138-173 | What authorization returns is its own normal form. |
| `Roots.BuiltRootsAreCanonical` | crates/maestro-project/src/auth.rs:63-89 | Built roots are absolute names, given that `canonicalize` returns such paths. |
| `Roots.RequestedIsAuthorized` | crates/maestro-project/src/auth.rs:66-89 | A path of names below a requested root matches that root, spelled as requested or canonically. |
| `Registration.EveryRunIsConsistent` | crates/maestrod/src/project.rs:51-85 | Over every sequence of registrations, failures, poisoned locks and restarts from an empty store: no two projects own the same non-empty ordered root list, and every open project that can be read has exactly its persisted roots. |
| `Registration.ReRegistrationReturnsTheOwner` | crates/maestro-storage/src/database.rs:119-171 | Registering a root list that a project owns, under any proposed id, returns that project's id, adds no project and leaves every other project as it was. |
| `Registration.ResolveId` | crates/maestro-storage/src/database.rs:128-168 | The lookup finds an owner of exactly these roots iff there is one, preferring the proposed id, then the most recently opened, then the smallest id; otherwise the proposed id is used. |
| `Registration.Store.UpsertProjectRegistration` | crates/maestro-storage/src/database.rs:119-171 | One transaction resolves the id and upserts it with these roots; a failure leaves the store as it was. |
| `Registration.ProjectManager.RegisterWithPersistence` | crates/maestrod/src/project.rs:51-85 | Memory and store change together: a refused or unpersisted request changes neither; only when the map of open projects is poisoned can a request be persisted and still fail, and then no reader sees the map any more. |
| `Registration.ProjectManager.Project` | crates/maestrod/src/project.rs:328-333 | A reader who gets workspace roots for an id gets the roots that the store has for that id and for no other; an error means that the map is poisoned. |
| `Registration.RegisterKeepsConsistent` | crates/maestro-storage/src/database.rs:612-640 | One successful registration keeps both halves of the invariant, also when it takes over an id that had other roots. |
| `Registration.ResolvedOwner` | crates/maestro-storage/src/database.rs:119-171 | Among several owners the proposed id is chosen, else the most recently opened, else the smallest id. |
| `Registration.UnownedGoesToProposed` | crates/maestro-storage/src/database.rs:119-171 | A root list that nobody owns, and an empty one, go to the proposed id. |
| `Registration.UpsertRefreshes` | crates/maestro-storage/src/database.rs:612-640 | A project registered again takes the name, roots and time of the request and keeps its creation time and favourite; a new one starts as no favourite; all others stay as they are. |
| `RawCapture.RawProtocolCapture.Push` | crates/maestrod/src/fake_session.rs:2102-2114 | The capture stays the first min(limit, total) bytes of the stream and only grows; `observed` is the total, saturated, and never below what is captured; `truncated` iff the total exceeds the limit or reaches 2^64-1. |
| `RawCapture.CaptureAll` | crates/maestrod/src/fake_session.rs:2102-2114 | Every chunking of a stream gives the same capture, with `truncated` iff the total exceeds the limit when it is below 2^64-1. |
| `RawCapture.PageIsNext` | crates/maestrod/src/server.rs:1879-1913 | A page is what follows its cursor and tells the length of the capture; it ends the capture or is full; a reader that is behind moves on. |
| `RawCapture.OnlyAheadIsRefused` | crates/maestrod/src/server.rs:1879-1913 | A page is refused iff its cursor lies behind the end of the capture. |
| `RawCapture.PagesConcatenate` | crates/maestrod/src/server.rs:1879-1913 | Pages chained by `next_offset`, while the capture grows, concatenate to the stretch of the stream from the first cursor to the last. |
| `RawCapture.PagesReachTheEnd` | crates/maestrod/src/server.rs:1879-1913 | On a finished capture such a chain reaches the end. |
| `RawCapture.BoundedBytes.Push` | crates/maestrod/src/fake_session.rs:2070-2089 | The stderr buffer is the last `limit` bytes of the stream; it reports truncation iff bytes were lost or some chunk filled it by itself. |
| `RawCapture.TailAll` | crates/maestrod/src/fake_session.rs:2070-2089 | The same for every chunking of a stream, with the exact condition on the chunks. |
| `RawCapture.FullChunkIsReported` | crates/maestrod/src/fake_session.rs:2076-2082 | A chunk of exactly the limit is kept whole and still reported as truncated, so the flag is not the same as loss. |

## Left out

- Encryption, key storage, backups, migrations and the SQL engine: foreign code. The store is a map and a transaction is one atomic step that commits or does not.
- Real processes, PTYs, sockets and the tokio runtime: abstract steps with a log. The PTY supervisor has the same gate and order as the structured one and is not modelled a second time.
- Cancellation of a supervisor, launch or responder task at an await point, and an exhausted sequence counter during a launch.
- A child whose group-leadership check fails right after it is spawned (`OwnedProcessGroup::claim`): its signal precedes any sharing of the gate, and its slot is freed without a supervisor.
- The IPC client and server loops; no claim about byte-stream integrity is made there.
- RedactionStable.RedactAgain: only says that its condition suffices. Texts with separators or scheme words may be stable too, and some are not, as `RedactionTwice.RedactTwice` shows; which of them are is not characterised.
- Redaction of JSON trees and the borrowed-or-owned distinction of `redact_text`.
- Session states and their transition table, and how they follow the tracker.
- The durability of published events.
- The stored binding of a session and the choice a resume makes from it: a launch may ask for any binding here, which includes every choice the code makes.
- SessionEvents.ReadSessionEvents: events of sessions that are no longer in memory, the closed-channel error and the snapshot fields of a page are not modelled; tokio's rounding of the channel capacity is not either, the capacity being any positive number.
- JsonLines.ReadStdout: what handling a frame does is not modelled here, only whether it is accepted.
- JsonLines.JsonLineDecoder.Push: failures are compared with the specification by kind, oversized or malformed, so an empty frame counts as malformed.
- GitStatus.ParseStatus: the lossy display text of a path is not part of an entry; its bytes are.
- Roots.NewRoots: what the file system says of a path is one answer per path, so a change between two system calls is not modelled. Windows path prefixes are not components here.
- Registration.Store.UpsertProjectRegistration: the rows of a project's roots are one ordered list, and timestamps are integers.
- Registration.ProjectManager.RegisterWithPersistence: the display-name rule and the building of roots enter as their outcomes; persisted ids always parse.
- Retention.FromRecords: time is an integer, so an overflow of the date library in `now - max_age` is not modelled.
- Loading and validating retention records; the checks on a released path before its file is removed enter as their outcome.
- The capability catalog, settings, environment policy, search, directory listing, worktrees, the desktop application and the fake agent: finite tables, plumbing or interface code that would only add easy members.
