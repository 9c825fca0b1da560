# Broker core: verified models

Dafny models of the state machines in the broker core (`core/src`), each proved against a simple
specification: a byte sequence, a recursive function over the DAG, a total log, a bag of requests.

| files | subject |
|---|---|
| `PtyStream.dfy` | multi-consumer PTY output: retained window, acks, delivery windows, pause/resume |
| `Pipeline*.dfy` | the DAG runner over its durable attempt journal, crash and resume, the bounded pool |
| `InputHash*.dfy` | the canonical text behind the memo key |
| `Gateway.dfy` | per-channel replay journal with the gateway's broadcast and replay |
| `GatewayPty.dfy` | which connection consumes which session's stream: attach, ack, drop |
| `Joiner*.dfy` | the JSONL/OTel request joiner |
| `Bootstrap*.dfy` | publishing and removing the bootstrap file |
| `Pressure.dfy`, `Governor*.dfy` | pressure bands with hysteresis, and the governor tick |
| `Blocks.dfy` | five-hour usage blocks |
| `TranscriptTail.dfy` | the transcript-tail validator and its repair anchor |
| `Approvals.dfy` | the approval broker and the tool bridge |
| `Base.dfy`, `Sorting.dfy` | shared vocabulary |

Objects that the source updates in place are classes (`PtySessionStream`, `ChannelJournal`, `Connection`,
`Server`, `PtyEntry`, `PtyRouter`, `ApiRequestJoiner`, `PressureMonitor`, `ApprovalBroker`). Code with awaits (the runner, the
bootstrap protocol, the governor tick) is a machine whose events are the stretches between two awaits, so a
sequence of events is one interleaving; theorems quantify over all of them. The runner has two machines. One walks the
items of a step one after another; its executor may answer every slot, input and try differently, and its theorems are
about outputs, slots and resuming. The other has any number of items in flight and any answer at every moment; its
theorems are about the journal, dispositions, results and termination. Only the theorems that compare two walks ask for an
executor that is a function of the resolved input (`Steady`). Executors, template
rendering, conditions, clocks, timers, ports, id factories and parsers are parameters.

What the models show about the code:

- A **second** resume of a pipeline run loses memoized outputs. `applyMemoHit` journals a memoized row without
  the output, and the journal's lookup then prefers that row. A comment at packages/schema/src/pipelines.ts:214 says
  that a resumed cache hit stays a hit; the hit stays, its output does not. `SecondResumeLosesOutput` walks one run three
  times. `ReplayableIff` gives the exact condition on the journal, `NothingHiddenIsReplayable` the part that can be
  read off the journal before resuming, `SecondResumeIff` says that a finished run survives two resumes exactly when its
  first journal holds no output, and `ResumeEquivalence` proves that the first resume is always
  faithful. All of this is for an executor that is a function of the resolved input.
- A gate that was reached cannot be walked again over the same journal: its attempt 0 is refused. A run cut at a gate
  therefore never gets past it (`CutAtGateNeverCompletes`, `JournaledGateStops`), and a walk throws exactly when the run
  reaches a gate the journal already holds (`ThrowsIff`). For a run cut anywhere and resumed that is exactly when its
  journal holds a gate (`ResumeThrowsIff`). Theorems about whole walks ask that no such gate is reached.
- A session deregistered, or active again, while its hibernation is in flight is put in the hibernated set all the
  same (`LateAdmission`), and from then on both plans pass it over. `RegisteredIff` says exactly when every hibernated
  session is registered, `AsleepIff` exactly when none was active since it was chosen.
- Two bootstrap removals in flight at once can restore an older file over the latest
  (`OverlappingRemovalsLoseLatest`); one at a time they cannot (`RemovalIsSafe`). `SafeIff` says for any overlap exactly
  when the path ends up right: no restore dropped the latest file on an occupied path, and what is on the path was not
  restored there after it was superseded.
- The hour floor uses JavaScript's signed remainder and rounds up before the epoch; blocks can then overlap
  (`NegativeTimestampsOverlap`). The blocks are right exactly when every timestamp that opens a block is one the floor
  really floors (`DescribesIff`); one that joins an open block may be any.
- Hysteresis margins must not be negative (`NeverBelowRawIff`).

## Model

| member | source | states |
|---|---|---|
| PtyStream.PtySessionStream.Create | core/src/gateway/ptyStream.ts:181-208 | a stream is made exactly for legal options, and starts valid and empty |
| PtyStream.PtySessionStream.Push | core/src/gateway/ptyStream.ts:228-243 | exact overflow and ignore conditions; accepted bytes extend the produced sequence; every consumer stays byte-exact and caught up; the producer is paused from then on exactly if it was or the high mark is reached; an unpaused producer within capBytes - highWater + 1 never overflows |
| PtyStream.PtySessionStream.MarkExited | core/src/gateway/ptyStream.ts:250-252 | exit keeps the whole invariant |
| PtyStream.PtySessionStream.Attach | core/src/gateway/ptyStream.ts:260-276 | accepted exactly inside the retained window; the new consumer holds exactly the bytes from its watermark up to its window; the floor moves only for a first consumer; a paused producer stays paused exactly while more than the low mark is retained |
| PtyStream.PtySessionStream.Ack | core/src/gateway/ptyStream.ts:278-288 | accepted exactly up to what was delivered; watermarks never regress; delivery goes on to the new window; a paused producer stays paused exactly while more than the low mark is retained, and is resumed otherwise |
| PtyStream.PtySessionStream.ReplayFrom | core/src/gateway/ptyStream.ts:289-298 | accepted exactly inside the retained window; delivery restarts at the watermark without moving the ack |
| PtyStream.PtySessionStream.Detach | core/src/gateway/ptyStream.ts:299-304 | the consumer leaves, the others keep the invariant, with nobody left the floor is frozen, and a paused producer stays paused exactly while more than the low mark is retained |
| PtyStream.PtySessionStream.DeliverMore | core/src/gateway/ptyStream.ts:335-343 | delivers exactly up to min(head, acked + window), each slice within frame cap and window, keeping byte exactness |
| PtyStream.PtySessionStream.SliceAt | core/src/gateway/ptyStream.ts:346-358 | inside the retained window there always is a slice, and it equals the produced bytes at that offset |
| PtyStream.PtySessionStream.RecomputeFloor | core/src/gateway/ptyStream.ts:366-385 | the floor becomes the least ack and never goes back; released chunks are dropped with no gap; a paused producer stays paused exactly while more than the low mark is retained |
| PtyStream.DeliversMore | core/src/gateway/ptyStream.ts:335-343 | one more slice at the delivery point keeps the deliveries contiguous and equal to produced[from..to) |
| PtyStream.TiledAppend | core/src/gateway/ptyStream.ts:228-243 | retaining a chunk keeps the retained chunks a gapless tiling of the stream up to the head |
| PtyStream.TiledDrop | core/src/gateway/ptyStream.ts:366-385 | dropping released chunks keeps the tiling from the new floor |
| PtyStream.TiledHolds | core/src/gateway/ptyStream.ts:346-358 | the first chunk ending past a retained offset holds it, with the produced bytes |
| PtyStream.TiledCovers | core/src/gateway/ptyStream.ts:346-358 | every retained offset is covered by some chunk |
| PtyStream.LeverPulled | core/src/gateway/ptyStream.ts:228-243 | pause and resume calls strictly alternate, pause first |
| PtyStream.DrainConsumer | core/src/gateway/ptyStream.ts:278-288 | with no new output at most ceil((head - acked) / window) acks bring a consumer to the head |
| PtyStream.RoundsIsCeiling | core/src/gateway/ptyStream.ts:335-343 | the bound on acks is that ceiling |
| PtyStream.DrainAll | core/src/gateway/ptyStream.ts:366-385 | with at most that many acks for each consumer the floor reaches the head, and a paused live producer was resumed |
| PipelineProofs.SlotsDistinct | core/src/pipelines/runner.ts:288-311 | journal slots of different (item, loop pass) pairs differ when loops have at most 1000 passes |
| PipelineProofs.LatestIsCount | core/src/pipelines/runner.ts:637-642 | over gap-free rows the next attempt number is the number of rows |
| PipelineProofs.EffectRows | core/src/pipelines/runner.ts:317-461 | whatever the executor answers, one advance of a step keeps its slot's rows gap-free, every memoized row backed by a completed one, and adds nothing but memoized rows after an input's success |
| PipelineProofs.EffectGrowth | core/src/pipelines/runner.ts:356-460 | one advance only appends rows, at most 1 + retry.max a slot and walk |
| PipelineProofs.EffectOn | core/src/pipelines/runner.ts:231-311 | one advance stays on the recursive meaning of the step, or reveals a journal that cannot be replayed |
| PipelineProofs.LastTryIs | core/src/pipelines/runner.ts:354-460 | the retry loop stops at the first try that succeeds or may not be retried, and at the latest after retry.max retries |
| PipelineProofs.HitOn | core/src/pipelines/runner.ts:600-635 | a memo hit continues the meaning exactly when the row found carries what the slot comes to |
| PipelineTheorems.StructKept | core/src/pipelines/runner.ts:206-281 | with the items of a step one after another and any answer to each try: every event keeps the walk's shape, the journal invariants and dispositions only after all needs, also for the steps that run on after a rejection |
| PipelineTheorems.ScopeIsKnown | core/src/pipelines/runner.ts:687-706 | a claimed step sees exactly its ancestors' declared outputs, and is skipped by upstream exactly when the meaning says so |
| PipelineRuns.JournaledGateStops | core/src/pipelines/runner.ts:521-542 | over a journal that holds a gate's attempt 0, no run ever gets past that gate: it waits, is about to begin, was refused, or was skipped |
| PipelineRuns.ThrowsIff | core/src/pipelines/runner.ts:521-542 | an undisturbed walk at rest over a replayable journal has thrown if and only if the run reaches a gate the journal already holds |
| PipelineGates.ResumeThrowsIff | core/src/pipelines/runner.ts:521-542 | after a first walk cut anywhere, an undisturbed walk over its journal throws if and only if that journal holds a gate |
| PipelineGateAgain.CutAtGateNeverCompletes | core/src/pipelines/runner.ts:521-542 | a run that would be approved is cut at its gate; the next walk throws |
| PipelineRuns.JournalSafety | core/src/pipelines/runner.ts:317-461 | with the items of a step one after another, over every interleaving of steps, any answer to each try, any cut and any refusal: rows only appended, at most 1 + retry.max a slot, attempt numbers gap-free, and no row of the walk executes an input of an undrifted step that has succeeded before |
| PipelineFanSafety.FanOutSafety | core/src/pipelines/runner.ts:254-311 | the same with any number of iterations of any number of steps in flight, any answer at every moment, in every interleaving and for every limit; and no step has more iterations in flight than its limit |
| PipelineFanSafety.ResumesSafe | core/src/pipelines/runner.ts:317-461 | across any number of resumes, each with its own answers and drifted steps: attempt numbers stay gap-free, and every walk keeps the bound and the reuse of what succeeded |
| PipelineFanDag.DispositionsDeclared | core/src/pipelines/runner.ts:206-281 | with any number of iterations in flight and any answers: a step is settled only after all its needs, and its disposition is the recursive function of the steps' own verdicts; `FanSkipped` has the skip rule in the document's terms |
| PipelineFanDag.SettledOnce | core/src/pipelines/runner.ts:226-229 | a settled step keeps its disposition for the rest of the run |
| PipelineFanDag.PoolVerdict | core/src/pipelines/runner.ts:262-279 | when a pool closes every item has its result, and the step completed exactly when all of them succeeded |
| PipelineFanSkips.FanSkipped | core/src/pipelines/runner.ts:687-706 | with any number of iterations in flight: a settled step with a need that was skipped, cancelled, or failed as a gate or without onError:continue was skipped; any other came to its own verdict |
| PipelineFanSkips.FanBegins | core/src/pipelines/runner.ts:231-281 | how a step begins: skipped on the spot, asked as a gate, refused by the journal, or given the items of its list |
| PipelineFanSkips.FanDecides | core/src/pipelines/runner.ts:521-589 | a gate's disposition and row by the answer it got |
| PipelineFanSkips.ResultIs | core/src/pipelines/runner.ts:405-459 | how a try ends: the row's state and output, the step's output, and a retry exactly when tries are left, the policy retries it and the run is not cancelled |
| PipelineFanResults.LaneMoves | core/src/pipelines/runner.ts:262-311 | one advance of an item changes its own slot, the shared output and its place in the pool, and leaves its verdict when the item is done |
| PipelineFanResults.SignalsHeard | core/src/pipelines/runner.ts:751-763 | a pause is always heard, a cancel while the walk listens, and by running executors always |
| PipelineFanResults.PoolIsJournaled | core/src/pipelines/runner.ts:262-311 | in every run: when a pool closes the step completes if and only if this walk wrote something for every item and each slot it wrote to ends completed or memoized |
| PipelineFanProgress.FanEventsDecrease | core/src/pipelines/runner.ts:206-214 | with any number of iterations in flight every event that is no signal lowers a lexicographic measure |
| PipelineFanProgress.RestIsSettled | core/src/pipelines/runner.ts:206-214 | a walk that can do nothing more has settled every step, unless a gate was refused |
| PipelineRuns.WalkMeaning | core/src/pipelines/runner.ts:206-281 | with the items of a step one after another, an undisturbed finished walk gave every step the disposition, output and slot results of the recursive definition, for an executor that may answer every slot, input and try differently |
| PipelineSkips.SkippedIff | core/src/pipelines/runner.ts:687-706 | at every point of every run: a settled step was skipped, with nothing done, if and only if some need was skipped or cancelled, or failed as a gate or without onError:continue, or its condition was false or its list empty |
| PipelineSkips.GateIff | core/src/pipelines/runner.ts:521-589 | a gate that was not skipped completed if and only if it was allowed, or was not wired or expired under onTimeout:continue; it was cancelled if and only if superseded; its row says the same |
| PipelineSkips.WorksThroughItems | core/src/pipelines/runner.ts:254-281 | a step at work goes through exactly the items its list gives over its ancestors' outputs, in order, or one pass without an item, and is never cancelled |
| PipelineTrace.TraceIs | core/src/pipelines/runner.ts:288-311 | what an undisturbed finished walk did: slot by slot from the first item and pass, each input over the ancestors' outputs and the step's own so far, a next pass only after a success the loop does not end and while passes are left; completed if and only if every visit succeeded |
| PipelineTrace.NoPassesFails | core/src/pipelines/runner.ts:288-311 | with a loop of no passes a step that is not skipped visits nothing and fails |
| PipelineTrace.AnswerIsTried | core/src/pipelines/runner.ts:354-460 | a slot's result by the executor's answers: retried while a try fails with a schema failure or a listed error kind and tries are left; a success is ok without a schema failure |
| PipelineStops.NothingStarts | core/src/pipelines/runner.ts:288-311 | once paused or cancelled no waiting step starts and no slot changes but the one in flight or in backoff; after a cancel that one gets no new try |
| PipelineStops.CompletedRanAll | core/src/pipelines/runner.ts:262-311 | in every run, paused or cancelled anywhere: a completed step visited each of its items and all its visits succeeded |
| PipelineProgress.OutcomeIs | core/src/pipelines/runner.ts:776-780 | cancelled before paused before failed, and completed only where no step failed |
| PipelineRuns.ReplayExact | core/src/pipelines/runner.ts:600-635 | a finished walk over an old journal repeats the meaning slot by slot if and only if the newest success of every looked-up slot carries that slot's output |
| PipelineResume.ReplayableIff | packages/schema/src/pipelines.ts:604-615 | for an executor that is a function of the input, that condition on the journal: no memoized row stands beside a completed row of the looked-up input that carries an output |
| PipelineResume.NothingHiddenIsReplayable | packages/schema/src/pipelines.ts:604-615 | a journal in which no memoized row hides an output, in any slot, is replayed faithfully |
| PipelineResume.SecondResumeIff | core/src/pipelines/runner.ts:600-635 | the journal of two finished walks can be replayed if and only if the first walk's journal holds no output |
| PipelineTruth.WalkIsTrue | core/src/pipelines/runner.ts:317-461 | for an executor that is a function of the input: over every run, cut anywhere, cached successes stay the executor's own answers |
| PipelineTruth.NeverResumedIsReplayable | packages/schema/src/pipelines.ts:604-615 | such a journal without memoized rows can be replayed faithfully |
| PipelineTruth.MeaningVisit | core/src/pipelines/runner.ts:288-311 | every slot result of the meaning is what the retry loop makes of the executor's answers to that slot's input |
| PipelineTruth.FirstWalkNeverResumed | core/src/pipelines/runner.ts:342-353 | a walk over an empty journal writes no memoized row |
| PipelineTruth.ResumeEquivalence | core/src/pipelines/runner.ts:317-461 | for an executor that is a function of the input: cutting a first walk of a gate-free document anywhere and walking again gives every step what an uncut walk gives |
| PipelineAttempts.ExactAttempts | core/src/pipelines/runner.ts:354-460 | an undisturbed walk adds one row to a slot the journal answers, to any other slot of the meaning one row for every try up to where the retry loop stops, all of the slot's input with a success newest, and none to any other slot |
| PipelineSecondResume.SecondResumeLosesOutput | core/src/pipelines/runner.ts:600-635 | three walks of one run from the empty journal: executed with an output, replayed with it, completed without it |
| PipelineProgress.EventsDecrease | core/src/pipelines/runner.ts:206-214 | every event that is no signal, a refusal included, lowers a lexicographic measure, so every walk ends |
| PipelineProgress.RunReady | core/src/pipelines/runner.ts:206-214 | the walk under any scheduler and any answers to each try terminates, undisturbed and at rest, with every step as declared; the run fails exactly when some declared outcome is a failure |
| PipelineProgress.RunBounded | core/src/pipelines/runner.ts:903-921 | every index claimed once, at most `limit` calls in flight, results aligned with items, for every completion order |
| InputHash.LessTotal | core/src/pipelines/inputHash.ts:38-51 | code-unit order on keys is a strict total order |
| InputHash.LessIff | core/src/pipelines/inputHash.ts:49 | a key comes before another exactly when it is a proper prefix of it or has the smaller code unit where they first differ |
| InputHashProofs.QuoteRoundTrip | core/src/pipelines/inputHash.ts:38-51 | an escaped string reads back as itself, whatever follows |
| InputHashProofs.CanonRoundTrip | core/src/pipelines/inputHash.ts:38-51 | parsing the canonical text gives back the value's normal form |
| InputHashProofs.CanonicalIffNorm | core/src/pipelines/inputHash.ts:38-51 | canonical texts are equal if and only if normal forms are |
| InputHashProofs.SortAscending | core/src/pipelines/inputHash.ts:38-51 | sorting distinct keys gives the strictly ascending order |
| InputHashProofs.AscendingUnique | core/src/pipelines/inputHash.ts:38-51 | two ascending member lists with the same members are equal, so insertion order leaves no trace |
| InputHashProofs.SameIffNorm | core/src/pipelines/inputHash.ts:38-51 | normal forms are equal if and only if the values agree up to key order, undefined members and what is rendered as null |
| InputHashProofs.CanonicalIffSame | core/src/pipelines/inputHash.ts:38-51 | equal canonical texts if and only if equal values up to key order, undefined members, and null, undefined elements and non-finite numbers taken as one |
| InputHashProofs.CanonicalIffEqual | core/src/pipelines/inputHash.ts:38-51 | without undefined elements and non-finite numbers: equal texts if and only if equal up to key order and undefined members |
| InputHashProofs.IdentityAgrees | core/src/pipelines/runner.ts:329-340 | two attempts share a canonical input only if all resolved inputs agree, the pinned capability hash included |
| InputHashProofs.UndefinedElementCollides | core/src/pipelines/inputHash.ts:38-51 | an undefined array element collides with null |
| Gateway.ChannelJournal.Append | core/src/gateway/journal.ts:63-73 | the payload gets the next sequence number; what is retained is exactly the last maxEntries of the whole history |
| Gateway.ChannelJournal.ReplayFrom | core/src/gateway/journal.ts:94-113 | accepted exactly inside the retained range, with the original payloads in order |
| Gateway.BroadcastStaysGapless | core/src/gateway/server.ts:372-379 | a broadcast keeps every replayed channel of a connection gapless |
| Gateway.ReplayStaysGapless | core/src/gateway/server.ts:692-708 | an accepted replay makes its channel gapless from the watermark and leaves the other channels so |
| Gateway.Connection.Write | core/src/gateway/server.ts:356-359 | a closed connection is sent nothing |
| Gateway.Connection.Resend | core/src/gateway/server.ts:692-708 | the retained envelopes go out once each, in order, with their first payloads |
| Gateway.Server.Broadcast | core/src/gateway/server.ts:372-379 | journaled once, then the same envelope to every open connection; all connections stay gapless |
| Gateway.Server.Close | core/src/gateway/server.ts:1094-1097 | closed for good; from then on a broadcast does nothing |
| Gateway.Server.HandleReplayRequest | core/src/gateway/server.ts:692-708 | accepted exactly inside the retained range; from then on that connection has w, w+1, ... with no gap |
| Gateway.Server.JournalFor | core/src/gateway/journal.ts:140-148 | journals are created lazily, once per channel |
| Gateway.Server.SocketCloses | core/src/gateway/server.ts:356-358 | a socket that is no longer open is sent nothing more, and the others lose nothing by it |
| Gateway.Server.DropConnection | core/src/gateway/server.ts:982-983 | only that connection leaves the set; its PTY consumers are `PtyRouter.DropConnection` |
| GatewayPty.PtyRouter.DropConnection | core/src/gateway/server.ts:986-992 | the connection keeps no consumer in any session, every stream stays valid so that its floor is the least ack of those left, and output and the other consumers' positions are unchanged |
| GatewayPty.PtyRouter.Wire | core/src/gateway/server.ts:505-532 | a session is wired once, to a fresh stream, for legal options |
| GatewayPty.PtyRouter.HandleAck | core/src/gateway/server.ts:544-566 | unknown sessions and watermarks beyond what was delivered are refused and change nothing; an accepted ack raises that connection's watermark; other sessions are not touched |
| GatewayPty.PtyRouter.HandleReplayRequest | core/src/gateway/server.ts:567-585 | accepted exactly inside the session's retained window, and then that connection consumes the session from there; a refusal changes nothing; other sessions are not touched |
| GatewayPty.PtyEntry.Ack | core/src/gateway/server.ts:554-566 | a connection that never attached has been delivered nothing; an accepted ack moves its own consumer only |
| GatewayPty.PtyEntry.ReplayRequest | core/src/gateway/server.ts:567-585 | the first request attaches a new consumer at the watermark, a later one repositions it and leaves its ack; the other consumers are where they were; a refusal changes nothing |
| GatewayPty.PtyEntry.Drop | core/src/gateway/server.ts:986-992 | the connection's consumer is detached, the others are where they were, and a paused producer stays paused exactly while more than the low mark is retained |
| Joiner.MergedTakesBoth | core/src/collector/ingest.ts:193-250 | a merged row is the transcript's row with the telemetry's attribution, and its session and model where the transcript has none |
| Joiner.OtelOnlyFields | core/src/collector/ingest.ts:231-250 | a telemetry-only row has that half's own time, account, session, model, attribution and token counts |
| Joiner.CountsByKind | core/src/collector/ingest.ts:186-258 | which counter each kind of insert moves, and that only a merge under two accounts is a label mismatch |
| Joiner.RawRefInjective | core/src/collector/ingest.ts:40-42 | distinct request ids have distinct store keys |
| JoinerClass.ApiRequestJoiner.InsertCounted | core/src/collector/ingest.ts:186-191 | one insert attempt: a new key is stored and counted in its bucket, a known one is a late twin |
| JoinerClass.ApiRequestJoiner.EvictIfFull | core/src/collector/ingest.ts:266-278 | evicts oldest entries until there is room, as single-source rows |
| JoinerClass.ApiRequestJoiner.OfferJsonl | core/src/collector/ingest.ts:307-320 | refused exactly for an account of another backend or an id of white space only, and then nothing changes; otherwise merged or buffered as specified |
| JoinerClass.ApiRequestJoiner.OfferOtel | core/src/collector/ingest.ts:322-335 | the same from the other side |
| JoinerClass.ApiRequestJoiner.Flush | core/src/collector/ingest.ts:280-294 | collecting keys and deleting one by one flushes exactly the entries at or before the cutoff |
| JoinerProofs.EvictOldestKeeps | core/src/collector/ingest.ts:266-278 | eviction takes a least bufferedAt entry and keeps all the books |
| JoinerProofs.RunKeeps | core/src/collector/ingest.ts:307-335 | every run keeps the invariant |
| JoinerProofs.Conservation | core/src/collector/ingest.ts:186-335 | in every run each accepted id is pending with one half or stored, pending stays within its cap, stored rows are never changed, and the counters count exactly the added rows and the other attempts |
| JoinerOrder.RunThenFlush | core/src/collector/ingest.ts:280-335 | after any run of offers and a full flush the store holds, field by field, each id's row: tokens, time and account of the transcript half where there is one and of the telemetry half otherwise, the telemetry's attribution, session and model of the first half that has them |
| JoinerOrder.OrderIndependence | core/src/collector/ingest.ts:193-335 | the same offers in any order, never with a full buffer, leave the same store: merged rows where both halves came, single-source rows otherwise |
| JoinerOrder.RoomyIffNoEviction | core/src/collector/ingest.ts:266-278 | a run of offers evicts nothing if and only if no first half meets a buffer with maxPending requests waiting for their second |
| Bootstrap.StepKeepsInv | core/src/gateway/bootstrap.ts:291-353 | every file-system step of a publication or of the one removal in flight keeps the protocol invariant |
| Bootstrap.RemovalIsSafe | core/src/gateway/bootstrap.ts:219-353 | whenever no removal is in flight the path holds the last publication unless its own boot removed it, no marker is left, and nothing was unlinked by another boot |
| Bootstrap.OverlappingRemovalsLoseLatest | core/src/gateway/bootstrap.ts:291-353 | a run with two overlapping removals that ends with an older file on the path |
| BootstrapExact.SafeIff | core/src/gateway/bootstrap.ts:291-353 | with any number of removals overlapping, at rest the path is right if and only if no restore dropped the expected file on an occupied path since it was published, and the file on the path was not restored there as one already superseded or removed; the markers are gone either way |
| BootstrapFate.OwnFileIsRemoved | core/src/gateway/bootstrap.ts:291-333 | with any number of removals overlapping: a removal that takes its own boot's file ends as removed two steps later with that publication unlinked, and from the rename on that file is never on the path again |
| BootstrapFate.ForeignFileIsForeign | core/src/gateway/bootstrap.ts:291-353 | one that takes any other file ends as foreign three steps later |
| BootstrapFate.EmptyPathIsAbsent | core/src/gateway/bootstrap.ts:305-310 | one that finds the path empty ends as absent at once and changes nothing else |
| BootstrapFate.OnlyOwnFilesRemoved | core/src/gateway/bootstrap.ts:291-353 | in every run a publication is unlinked only by a removal of its own boot that ended as removed, every such removal unlinked one, and none of them is on the path |
| BootstrapFate.PublishesWhatWasWritten | core/src/gateway/bootstrap.ts:219-224 | whatever happens in between, the rename puts the token the boot wrote on the path, in place of what was there |
| Pressure.PressureMonitor.EvaluateNow | core/src/supervision/pressureProbe.ts:142-160 | the state is always that of the whole history of readings; a missing signal holds it, any other clamps it; any one of the four signals past its red line gives red, past its amber line at least amber |
| Pressure.NeverBelowRaw | core/src/supervision/pressureProbe.ts:84-160 | over whole runs the state is never below the raw band of the latest reading |
| Pressure.ReadingDecides | core/src/supervision/pressureProbe.ts:84-142 | from any state: each of the eight lines on the reading's own fields; exactly what holds red, and exactly what else is amber |
| Pressure.RunAnswersForLatest | core/src/supervision/pressureProbe.ts:84-160 | over whole runs the latest signal past any red line means red, past any amber line at least amber |
| Pressure.NeverBelowRawIff | core/src/supervision/pressureProbe.ts:84-160 | no step falls below the raw band if and only if both margins are not negative |
| Pressure.HysteresisIsClamp | core/src/supervision/pressureProbe.ts:114-142 | hysteresis clamps the prior state between the raw band of the reading and that of the reading worsened by the margins |
| Pressure.NoFlapping | core/src/supervision/pressureProbe.ts:114-142 | the state holds over any run of readings that neither escalate past it nor clear it by the margins |
| Pressure.RepeatIsFixedPoint | core/src/supervision/pressureProbe.ts:84-160 | a repeated reading changes nothing after its first step |
| Pressure.RunMonotone | core/src/supervision/pressureProbe.ts:84-160 | pointwise worse readings from a worse start end at or above |
| Pressure.NegativeMarginDropsBelowRaw | core/src/supervision/pressureProbe.ts:114-142 | an amber reading takes a red monitor to normal when a margin is negative |
| Governor.PlanShed | core/src/supervision/scheduler.ts:87-143 | the two loops compute the shed plan |
| Governor.ShedPlanTargets | core/src/supervision/scheduler.ts:87-143 | at red the plan targets exactly the live non-account sessions not hibernated yet, below red nobody, and only to hibernate them |
| GovernorPlan.PlanBelowRed | core/src/supervision/scheduler.ts:87-143 | normal plans nothing, amber exactly model context then frontend weight |
| GovernorPlan.PlanAtRed | core/src/supervision/scheduler.ts:87-143 | red plans the local model exactly if one is resident, model context, frontend weight, one hibernation for each session left to sacrifice by slot and in list order within a slot, and the scrollback last |
| GovernorPlan.NamesAccountIff | core/src/supervision/scheduler.ts:138-142 | the final guard looks at the first session listed under an id |
| GovernorPlan.IdlePlanInOrder | core/src/supervision/hibernation.ts:63-85 | the idle plan lists each session that is due with its idle time, account sessions last, by slot and in list order within a slot |
| Sorting.SortStable | core/src/supervision/scheduler.ts:117-119 | what the order does not tell apart keeps its order |
| Governor.SortIsOrdered | core/src/supervision/hibernation.ts:80-84 | both plans are permutations by slot number, the idle plan with account sessions last |
| Governor.IdleCandidates | core/src/supervision/hibernation.ts:63-85 | exactly the sessions idle for the window, account sessions only when allowed |
| Governor.StepKeepsInv | core/src/supervision/governor.ts:199-346 | every step of a tick and every registry call between its awaits keeps the account invariant |
| GovernorTick.TickIsExact | core/src/supervision/governor.ts:199-346 | an uninterrupted tick hibernates exactly the sessions whose port call succeeds in a pass that wants them: the shed pass at red every non-account session, the idle pass those idle for the window, account sessions only past the red-tick threshold |
| GovernorTick.TickAnnounces | core/src/supervision/governor.ts:240-345 | an uninterrupted tick announces its shed plan and then its idle plan in order: every lever, and every hibernation that succeeded and is not of an account session |
| GovernorTick.PressureIsMonitored | core/src/supervision/governor.ts:199-345 | over every run each tick's pressure is the monitor's state after the readings so far, and the red-tick count is exactly the length of the red run at the end |
| Governor.AccountsAreSafe | core/src/supervision/governor.ts:199-346 | in every run: with the option off no account session is hibernated; with it on only through an idle plan, after N red ticks in a row, its last reported activity before that plan at least the window back; no shed notice names an account session |
| GovernorLate.LateAdmission | core/src/supervision/governor.ts:316-345 | a session deregistered or active between the idle plan and the port's answer is added to the hibernated set |
| GovernorLate.RegisteredIff | core/src/supervision/governor.ts:199-400 | every hibernated id is registered throughout a run if and only if each was still registered when its port call was answered |
| GovernorLate.AsleepIff | core/src/supervision/governor.ts:199-400 | throughout a run no hibernated session was active since a plan last chose it if and only if none was when its port call was answered |
| GovernorLate.HibernatedIsPassedOver | core/src/supervision/scheduler.ts:119-133 | a session in the hibernated set is chosen by neither plan |
| Blocks.FloorIsHourStart | core/src/readmodels/blocks.ts:44-46 | the floor is the start of the hour if and only if the timestamp is not negative or is a whole hour |
| Blocks.AssembleBlocks | core/src/readmodels/blocks.ts:67-98 | for every list, what the loop builds from the sorted entries; where the opening timestamps are exact, the order-free meaning |
| Blocks.GapTestIsImplied | core/src/readmodels/blocks.ts:76-79 | the five-hour-gap test follows from the window test |
| Blocks.SameBlocks | core/src/readmodels/blocks.ts:67-98 | permuted entries give the same blocks |
| Blocks.BlocksAreRight | core/src/readmodels/blocks.ts:67-98 | where the opening timestamps are exact: blocks are hour-aligned, five hours long, ordered and disjoint, report exactly their window's entries, cover every entry, and conserve tokens and counts |
| Blocks.WindowsHoldOpenersIff | core/src/readmodels/blocks.ts:44-98 | every window holds the entry that opened it if and only if the opening timestamps are exact |
| Blocks.DescribesIff | core/src/readmodels/blocks.ts:67-98 | every block reports exactly its window if and only if the opening timestamps are exact |
| Blocks.AllExactOpens | core/src/readmodels/blocks.ts:44-46 | timestamps that are not negative always satisfy that condition |
| Blocks.ActiveIsLastWindow | core/src/readmodels/blocks.ts:105-115 | the active block is the last one, exactly when its window holds `now`; the gap test adds nothing |
| Blocks.NegativeTimestampsOverlap | core/src/readmodels/blocks.ts:44-98 | two overlapping blocks from an entry before the epoch, in either input order |
| TranscriptTail.PendingIsLastUse | core/src/kernel/transcriptTail.ts:116-122 | an id is pending if and only if its last event is a tool use |
| TranscriptTail.PendingInOrder | core/src/kernel/transcriptTail.ts:116-130 | unpaired ids are listed, once each, in the order their open calls were first seen |
| TranscriptTail.Validate | core/src/kernel/transcriptTail.ts:79-141 | the loop computes the verdict, which the five lemmas below read off the segments |
| TranscriptTail.ThrowsIff | core/src/kernel/transcriptTail.ts:79-141 | the validator throws exactly where a throwing line comes before every unusable one |
| TranscriptTail.SafeIff | core/src/kernel/transcriptTail.ts:127-130 | safe if and only if some line is a message, none is unusable, and no tool use is without a later answer |
| TranscriptTail.TornIff | core/src/kernel/transcriptTail.ts:94-109 | torn if and only if the first unusable line is the final one, malformed if and only if it is an earlier one |
| TranscriptTail.VerdictLists | core/src/kernel/transcriptTail.ts:111-128 | the number of messages before the first unusable line, and the calls used there and not answered after |
| TranscriptTail.AnchorIff | core/src/kernel/transcriptTail.ts:114-124 | the anchor is the uuid of the last message there at which every call is answered, and absent exactly where there is none |
| TranscriptTail.AnchorIsSafe | core/src/kernel/transcriptTail.ts:79-141 | cut after the anchor line, with or without newline, the transcript is safe and keeps its anchor |
| TranscriptTail.AnchorIsLongest | core/src/kernel/transcriptTail.ts:79-141 | a trusted prefix ending in a uuid line is safe if and only if no call is open there, and none is longer than the anchor's |
| TranscriptTail.SplitJoin | core/src/kernel/transcriptTail.ts:80 | splitting joined lines gives the lines back |
| TranscriptTail.RepairedTextIsSafe | core/src/kernel/transcriptTail.ts:79-141 | the same on the text: the prefix ending with the anchor's line validates as safe |
| Approvals.ApprovalBroker.Ask | core/src/kernel/approvals.ts:214-264 | refused exactly when closed, when a field its source must or must not carry is wrong, or for a bad id, in that order; otherwise announced and pending with its deadline |
| Approvals.ApprovalBroker.Decide | core/src/kernel/approvals.ts:266-289 | a deny with a replacement input and an id that is not pending are refused, in that order; otherwise the request is resolved with the verdict |
| Approvals.ApprovalBroker.FireTimer | core/src/kernel/approvals.ts:250-260 | the expiry timer resolves a pending request that has a deadline, and otherwise nothing |
| Approvals.ApprovalBroker.Supersede | core/src/kernel/approvals.ts:293-298 | resolves one pending request, and says whether there was one |
| Approvals.ApprovalBroker.SupersedeSession | core/src/kernel/approvals.ts:300-309 | the loop supersedes the session's pending requests and counts them |
| Approvals.ApprovalBroker.Close | core/src/kernel/approvals.ts:318-325 | the loop supersedes everything once |
| Approvals.ExactlyOnce | core/src/kernel/approvals.ts:213-326 | in every run with fresh ids: one announcement, at most one resolution after it, and the inbox is the unresolved announcements in arrival order |
| Approvals.CloseIsFinal | core/src/kernel/approvals.ts:318-325 | after close nothing is pending, everything announced is resolved, and no later call changes anything |
| Approvals.SessionEnds | core/src/kernel/approvals.ts:300-309 | a session's end clears its requests and no others |
| Approvals.ResolvedByCause | core/src/kernel/approvals.ts:162-326 | an id was resolved in a given way if and only if some call decided, expired, superseded, ended or closed it so while it was pending |
| Approvals.AnnouncedByAsk | core/src/kernel/approvals.ts:184-264 | a request was announced if and only if some call before any close asked for it with a good id and the fields its source must carry; its deadline is the call's time plus its own or the default allowance |
| Approvals.NeverExpires | core/src/kernel/approvals.ts:250-260 | a request without a deadline is never resolved as expired |
| Approvals.BridgeAllowsIff | core/src/kernel/approvals.ts:350-398 | the tool bridge answers allow if and only if such a decision was applied, with its replacement input if any |
| Approvals.BridgeDenies | core/src/kernel/approvals.ts:378-393 | any other answer is a deny that says why: the decision's note or a standard text, expiry, or the end of the session or run |

## Left out

- WalkMeaning: for steps whose items run one after another; several iterations in flight race on the step's entry in the step outputs, so that a template reading it has no single meaning. The same holds for ResumeEquivalence, ReplayExact, ExactAttempts and RunReady. With any number in flight, `FanOutSafety` covers the journal, `DispositionsDeclared` and `FanSkipped` the dispositions, `PoolIsJournaled` the results and `FanEventsDecrease` termination.
- Step outputs that JSON does not round-trip: a first walk keeps the raw value and a memo hit the parsed text, and the model takes the text for both.
- Step budgets, abort timers, cost and lineage records, published status updates, and resolution of accounts, backends and working directories in the runner.
- The template and condition language: rendering and conditions are functions of the ancestors' outputs and the step's own (`ScopeIff` says which those are), although a template of the source can name any step.
- ResumeEquivalence: for documents without gates, because a reached gate cannot be journaled again; `ThrowsIff` says what happens there.
- The digest of the canonical text; two inputs are compared by their text.
- Integers are unbounded; offsets and timestamps past 2^53 are not modelled.
- Sinks, producers and listeners that call back into the object that calls them.
- Token handling, payload and session-id validation, terminal input and resize, log scrubbing and the WebSocket and HTTP plumbing of the gateway.
- The footprint watchdog, the recycle step, spawn admission and the resource snapshot of the governor.
- AccountsAreSafe: asks that ticks do not overlap and that an id keeps its account flag.
- RemovalIsSafe: asks for one removal in flight at a time and no unexpected file-system error.
- OrderIndependence: asks that each id is offered at most once per side and that the buffer is never full when a first half arrives, which is exactly that nothing is evicted (`RoomyIffNoEviction`).
- ExactlyOnce: asks for fresh ids; a repeated id would replace the pending request in place.
- HysteresisIsClamp: asks that each red line lies at or beyond its amber line, as the defaults do.
- ActiveIsLastWindow: for entries whose opening timestamps are exact, as `BlocksAreRight`.
- Burn rate and projected exhaustion, which are single arithmetic expressions.
- JSON parsing of a transcript line, which is an oracle; only its blank, unusable, throwing and message cases matter.
- The session kernel, the read-model publishers, the registries and the user interface.
