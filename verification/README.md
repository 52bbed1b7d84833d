# Verified model of xop

xop is a structured logger in two levels: loggers that programs use, organised as a tree of spans, and base
loggers that turn what they are told into JSON lines, protobuf batches, console text or a recording. This Dafny
project models the parts of it that hold state or parse text, and proves what they are meant to guarantee over
every run or every input. `dafny verify dfyconfig.toml` checks everything.

| files | part of xop |
|---|---|
| SpanTree, LifecycleSteps, LifecycleStale, LifecycleRoots, LifecycleTold, Lifecycle, LifecycleRuns, AnyRuns, RootedRuns | activity, lines, Done and Flush of a tree of span-owning loggers (logger.go) |
| Registry, Counter, CounterRuns, AtomicMax | numbering requests under locks, and the lock-free maximum (xoputil/counter.go, xoputil/atomic.go) |
| PbFlush, PbRuns, PbReplay | queues of done spans, batches and their replay (xoppb) |
| RecorderLines, Recorder, RecorderReplay, RecorderOps, RecorderFacts, RecorderRuns | the recorder and its replay (xoprecorder) |
| Runes, Escapes, Marshal, Decimal, Metadata, Attributes | JSON strings and keys, span metadata kept as text and as values (xoputil, xopat, xopjsonutil, xopbaseutil) |
| Json, JsonLine, JsonRead, JsonLineRead | JSON lines, and a reader for them (xopjson/jsonlogger.go) |
| JsonReplay, JsonReplayRuns, JsonOrder | rebuilding the tree of spans from JSON records (xopjson/replay.go) |
| Hex, Trace | trace identifiers and the header of W3C Trace Context (xoptrace) |
| Quote, Console, ConsoleRequest | console strings and the record that starts a request (xopconsole) |
| Options | a result that may be missing, used throughout |
| Examples | texts as they are written, letter by letter |
| SequenceCode, StackFrames | codes of forked and stepped spans, sizes of stack buffers (sub.go, support.go, logger.go) |

Pointers are modelled as positions in a list that only grows. Code that updates fields is a class whose methods
are tied to specification functions; threads are interleaved atomic steps under an arbitrary schedule; maps that
Go visits in random order are visited in an arbitrary order. A method without `modifies` named `Run` (or
`RunAny`, `RunAndReplay`, `LogLine`, `LogAndRead`, `ReplayRecords`, `Replay`) drives a class through any sequence of calls and states what
holds at the end in terms of the calls.

## Where the code differs from what one would expect

The model follows the code. Each of these is stated as a lemma or a method contract named in brackets.

- Flush finalises dependents: `recursiveDone(false)` calls `done(false)` on every dependent, which calls
  `recursiveDone(true)`, so loggers below a top-level one are told a final Done by a mere Flush (`RunThenFlush`).
- `hasActivity(true)` calls `done(false)` whenever the logger was inactive. After a Flush, logging on a logger that
  was never done makes it finally done (`UseAfterFlush`).
- Done does not always keep active loggers registered. When it comes upon a registered logger that was done already,
  that one complains and reactivates its parent, which is cut off right afterwards: it stays active and no flush
  tells or resets it any more. The exact condition is `Blocks`, which a caller can check; it covers top-level loggers
  too, except for direct dependents of the request when the request itself is done (`DoneCall`, `Call`, reached in
  `DoneOrphans`). A second way, `Strands`, needs a registered logger that is inactive, which no calls lead to
  (`RunAwake`). Children created under inactive parents break it as well (`ForkRooted`).
- "After Flush nothing is active" fails exactly when a logger that was already done is still registered below a
  parent that is not top-level (`FlushFrom`, reached in `ActiveAfterFlush`).
- The counters of the request numbering are 32 bits wide and nothing checks for their end: numbers are no longer 1, 2,
  3 and so on from 2^31 keys on, and from 2^32 keys on a call returns zero (`ShownPlain`,
  `AgreeExactly`).
- A float that is infinite or not a number makes a JSON line that is no JSON (`LineExactly`).
- Keys of registered attributes go through encoding/json, which replaces bytes that are not UTF-8 by U+FFFD. They are
  read back as they are exactly if they are valid UTF-8 (`SeenExactly`), and two of them become one member name exactly
  if a range loop yields the same runes for both (`SameNameExactly`, `SeenExample`).
- The escape table does not list NUL and most control bytes; they go out raw unless, for NUL, another escape is
  needed (`StrictExactly`, `RawExamples`).
- A failed `Trace.SetString` on an initialized trace writes the flags byte but not its text (`SetString`,
  `StaleHeader`).
- The loop that parses a console start record never ends on trailing text without a boundary, because `break`
  leaves the switch and not the loop (`HangsExactly`, `StrayWordHangs`); a record of a request with an empty name is
  printed but rejected (`EmptyNameFails`).
- The JSON line of a Template drops the prefilled message that Msg, Link and Model repeat (`PrefillShown`).
- The recorder keeps the enum attribute of a key that was later set with another type; replay drops it. The copy is equal
  to the original exactly if no line does that (`TidyExactly`, `RunAndReplay`, `ReusedExample`).

## Model

| member | source | states |
|---|---|---|
| `SpanTree.TopOf` | logger.go:295-297 | every logger hangs, through non-detached parents only, below exactly one top-level logger (the request or a detached one) |
| `SpanTree.TopsDisjoint` | logger.go:288-297 | the spans of two different top-level loggers never overlap |
| `Lifecycle.Request.NewChild` | logger.go:148-241 | a new span starts active with no Done, is registered with its parent unless detached, then in the set of detached loggers; nothing else changes, and exactly its creation under its parent and its boring mark are told |
| `Lifecycle.Request.AddMyselfAsDependent` | logger.go:243-261 | registration with the parent or among the detached loggers; true exactly when it became the only dependent |
| `Lifecycle.Request.Reactivate` | logger.go:263-269 | becoming active registers a logger and climbs only while it is the only dependent; nothing below it changes; an active logger changes nothing; the climb ends |
| `Lifecycle.Request.HasActivity` | logger.go:263-282 | an active logger changes nothing; an inactive one is told a final Done, and complains first if it was done before; a lone inactive child reactivates its parent; nothing is told that the program did not say but complaints and what they bring about; ends from every state |
| `Lifecycle.Request.Msg` | logger.go:606-610 | the line is told once; on an active logger nothing else changes, an inactive one is made finally done, with a complaint if it was done before |
| `Lifecycle.Request.ErrorMsg` | logger.go:492-502 | a line at the error level, of the program or a complaint: the line is told, and before it, with the first one of a logger and of the request, that these are not boring; ends in every state and leaves other subtrees and the flush count of non-top loggers alone |
| `Lifecycle.Request.MarkNotBoring` | logger.go:492-499 | both boring counters move, and exactly the first mark of a span, and the first of the request, are told |
| `Lifecycle.Request.Boring` | logger.go:474-490 | the request is told that it is boring exactly while no error line has been counted |
| `Lifecycle.Request.Done` | logger.go:310-318 | Done of a ready logger retires exactly what is registered below it, each told once and nothing else told, unregisters it, and flushes exactly when the request or the last awaited detached logger finishes; from any state everything reachable is told, a second Done is complained about, and each complaint goes with a final Done beyond the first |
| `Lifecycle.Request.RecursiveDone` | logger.go:320-345 | everything registered below is told a final Done, the logger itself the requested kind, dependents in any order; the count returned is the new done count |
| `Lifecycle.Request.DoneImpl` | logger.go:347-397 | the complete effect of done, exact for ready loggers and bounded for all states, with its termination measure |
| `Lifecycle.Request.LeaveDetached` | logger.go:353-371 | the last detached logger of a waiting request flushes once and clears the wait |
| `Lifecycle.Request.Leave` | logger.go:353-392 | of the loggers that answer to no parent, only the last one that is waited for flushes |
| `Lifecycle.Request.LeaveRequest` | logger.go:372-392 | a done request flushes at once or waits exactly when detached loggers are active |
| `Lifecycle.Request.Flush` | logger.go:427-449 | one base flush as the last call; detached loggers and the request are told an interim Done, everything registered below them a final one; exact when nothing stale is registered |
| `Lifecycle.Request.DetachedDone` | logger.go:457-470 | every active detached logger and all registered below it is told before the flush, in any order |
| `SpanTree.ReachLocal` | logger.go:331-345 | what a visit of dependents reaches depends only on the registrations below the logger |
| `LifecycleSteps.ExactEnd` | logger.go:340-344 | visiting all dependents one by one retires exactly what was registered at the start |
| `LifecycleSteps.FlushEnd` | logger.go:430-431 | after detached loggers and the request were visited, every active registered logger was told |
| `LifecycleStale.StaleFlushEnd` | logger.go:340-344 | if a stale logger is the last dependent visited its parent ends the flush active |
| `LifecycleStale.NotStaleClean` | logger.go:427-431 | without stale loggers a flush meets no logger that is already done |
| `LifecycleStale.DoneTogether` | logger.go:347-397 | the effect of done on a registered logger put together from its retirement, a possible error line and its unregistration |
| `LifecycleTold.FairTrans` | logger.go:263-397 | what is told goes with the spans: final Dones with done counts, error lines with boring counts, complaints with done counts beyond the first; the accounts of two steps add up |
| `LifecycleTold.BooksFair` | logger.go:263-502 | an account that was right from the start of the request stays right: a logger is introduced before anything else about it, and told once that it is not boring exactly if it had an error line |
| `LifecycleRuns.DoneByStep` | logger.go:284-318 | which loggers count as done changes only by Done, for exactly the non-detached subtree |
| `LifecycleRuns.TracksDone` | logger.go:347-397 | after Done the registered loggers are exactly the live non-detached children, and the wait flag says exactly that the request is done while detached loggers are not |
| `LifecycleRuns.TracksFork` | logger.go:148-241 | creating a child under a live parent keeps every live logger registered up to its top-level logger |
| `LifecycleRuns.LiveReady` | logger.go:320-345 | in a well-used run Done never meets a logger that is already done |
| `LifecycleRuns.Run` | logger.go:148-610 | in every well-used run, and after each of its calls, each logger was told a final Done exactly once if it or an ancestor in its non-detached chain was done, else never; the request was flushed exactly once, as the last call, exactly when all top-level loggers were done; and all else that was told is exactly, in the order of the calls, each new span with its parent and boring mark, each line of each logger, and the boring marks that the first error lines and Boring make |
| `LifecycleRuns.RunThenFlush` | logger.go:427-470 | a Flush after any well-used run leaves nothing active; loggers below a top-level one that were not done are told a final Done, top-level ones an interim one, and nothing else is told |
| `LifecycleRuns.UseAfterFlush` | logger.go:263-282 | logging on a top-level logger after a Flush makes it finally done although Done was never called on it |
| `AnyRuns.RunAny` | logger.go:148-610 | any sequence of calls on existing loggers, whatever was done before, ends; no Done or Flush is lost; spans and lines of the program are told exactly in the order of its calls, each logger introduced first; the only other lines are complaints, of every Done after the first and never more than final Dones after the first; a logger is told once that it is not boring exactly if it had an error line, the request exactly if any had |
| `LifecycleRuns.FlushFrom` | logger.go:427-470 | from any state whose active loggers are registered, all of them are told before the flush; nothing stays active, in any order of dependents, if and only if no registered logger below a non-top parent was already done |
| `LifecycleRuns.ActiveAfterFlush` | logger.go:263-282 | such a state is reached by logging on a grandchild after it and its parent were done; the flush leaves the grandparent active |
| `LifecycleRoots.StepListed` | logger.go:243-282 | after a step that spares what is outside of the subtree of a logger and hushes what is registered below it, every active logger is still registered up to a top-level logger, if activity that climbs from there does not end below an inactive logger that is not registered |
| `LifecycleRoots.ClimbsTrans` | logger.go:263-282 | activity climbs only from a logger to its parent, and only while it is alone below an inactive one, however many complaints a call brings about; the request learns of no other detached loggers |
| `LifecycleRoots.StrandedAt` | logger.go:263-282 | a complaint that climbs up to below an inactive logger that is not registered leaves an active logger unregistered |
| `LifecycleRoots.CalmStep` | logger.go:331-345 | visiting one dependent leaves the branches still to be visited untouched, and what was registered in the visited ones inactive, when only direct dependents were done before |
| `LifecycleRoots.DoneKept` | logger.go:347-397 | done on a registered logger, from any state: loggers without registrations stay so unless active, detached loggers that wake are known to the request, and the logger rests when nobody below was done |
| `LifecycleRoots.TopKept` | logger.go:353-392 | done on a top-level logger keeps active loggers registered when nobody below was done (for the request: nobody but direct dependents); otherwise the parent of a logger that was done ends active |
| `LifecycleRoots.EmptiedStep` | logger.go:457-470 | nothing is registered any more with a top-level logger that a flush has handled |
| `RootedRuns.DoneCall` | logger.go:310-397 | Done of any logger, done before or not, in any state whose active loggers are registered: they stay registered in every order of dependents if and only if it comes upon no logger that was done already and a logger done before does not complain up to below an inactive logger that is not registered; otherwise the order that visits that one last, or the complaint, leaves an active logger cut off. When registered loggers are active they stay so, and no complaint does that |
| `RootedRuns.ActivityCall` | logger.go:263-282 | logging on any logger, done or not, keeps active loggers registered |
| `RootedRuns.FlushCall` | logger.go:427-470 | a flush keeps active loggers registered, and leaves none, if and only if no registered logger below a parent that is not top-level was done already |
| `RootedRuns.ForkRooted` | logger.go:148-261 | a new child keeps active loggers registered exactly if it is detached or its parent is registered, and keeps registrations with active loggers only exactly if it is detached or its parent is active |
| `RootedRuns.Call` | logger.go:148-470 | any call in a rooted state keeps it rooted if and only if its guard, which a caller can check, holds |
| `RootedRuns.GuardOrMeets` | logger.go:320-470 | the guard of a call holds if and only if no logger makes the call break the invariant when it is visited last |
| `RootedRuns.RunGuarded` | logger.go:148-470 | any sequence of calls, also after Done, stays rooted up to the first call whose guard fails, loses no Done or Flush, and every flush leaves nothing active or registered |
| `RootedRuns.RunAwake` | logger.go:148-470 | in every state that any calls lead to, uses after Done and children of inactive parents included, registered loggers are active, so that no complaint leaves a logger cut off where the others are registered |
| `RootedRuns.TracksRooted` | logger.go:148-397 | every state of a well-used run is rooted |
| `RootedRuns.DoneOrphans` | logger.go:340-397 | the condition on Done is needed: a reachable rooted state in which Done leaves a logger active and cut off, so that the next flush neither tells nor resets it |
| `Counter.StepKeeps` | xoputil/counter.go:33-74 | every atomic step of any call keeps the numbering invariant of traces and of the requests of each trace |
| `Counter.Moved` | xoputil/counter.go:33-74 | every step of GetNumber is a step of the publish-while-locked protocol in both numberings |
| `CounterRuns.Reachable` | xoputil/counter.go:33-74 | under every schedule of any number of calls the invariant holds |
| `CounterRuns.GetNumberCorrect` | xoputil/counter.go:33-74 | under every schedule of any number of calls isNew is told at most once per trace and span; while fewer than 2^32 traces, and spans of each trace, are asked for no call returns zero, trace numbers agree exactly for equal traces and request numbers of a trace exactly for equal spans |
| `CounterRuns.AllReturned` | xoputil/counter.go:33-74 | when all calls have returned, the trace numbers and the request numbers of each trace are the first ones, as many as distinct traces and spans were asked for, as 32-bit cells show them, and one call per trace and span was told isNew |
| `CounterRuns.AgreeExactly` | xoputil/counter.go:46-64 | in a complete run the numbers are not zero and agree exactly where the questions do if and only if fewer than 2^32 traces, and fewer than 2^32 spans of each, were asked for |
| `CounterRuns.ShownPlain` | xoputil/counter.go:46-64 | the numbers are exactly 1..count if and only if the count is below 2^31 |
| `CounterRuns.CountsBound` | xoputil/counter.go:33-74 | the counters never exceed the number of distinct traces and spans asked for, and reach it when all calls have returned |
| `CounterRuns.Completes` | xoputil/counter.go:33-74 | every run of unfinished calls can be completed |
| `CounterRuns.Progress` | xoputil/counter.go:50-55 | some call can step whenever one is unfinished, and every step brings its call closer to returning |
| `CounterRuns.HolderCanGo` | xoputil/counter.go:50-72 | a call waiting for a mutex waits for one that does not wait |
| `Counter.FounderStep` | xoputil/counter.go:58-67 | a call comes to report isNew exactly by storing a new record |
| `Registry.StepInv` | xoputil/counter.go:36-49 | in the generic protocol, numbers stored or on their way are exactly 1..count, and records without a number are locked by the call that will number them |
| `Registry.HolderOf` | xoputil/counter.go:39-55 | a held mutex is held by a call that works on that record |
| `Registry.Distinct` | xoputil/counter.go:46 | different keys never share a number |
| `Registry.Gapless` | xoputil/counter.go:46 | when nobody is at work the stored numbers have no gaps |
| `AtomicMax.Reachable` | xoputil/atomic.go:7-17 | under every schedule the cell only grows, a returned call has left it at least at its value, and a swap fails only because another call raised the cell |
| `AtomicMax.FinalMax` | xoputil/atomic.go:7-17 | when all calls have returned the cell holds the maximum of its start and all values |
| `PbFlush.Request.constructor` | xoppb/pb.go:34-55 | a new request has one span, nothing queued and nothing due |
| `PbFlush.Request.NewSpan` | xoppb/pb.go:154-169 | a new span is not due and keeps every queue invariant |
| `PbFlush.Request.Done` | xoppb/pb.go:171-186 | the end time rises to the given time, and the span and its ancestors become due |
| `PbFlush.Request.Announce` | xoppb/pb.go:176-186 | the span is queued with its parent, the parent with its own, up to the request: each ancestor gains exactly the branch that leads to the span |
| `PbFlush.AnnouncedPending` | xoppb/pb.go:176-186 | a span is queued with its parent exactly when it or a descendant was done since the last flush |
| `PbFlush.Request.GetProto` | xoppb/pb.go:89-121 | draining emits each span that hangs below through queues exactly once, under its own parent and in the order of its queue, with its new version and end time, empties exactly these queues, and gives nothing for a span met again in the generation |
| `PbFlush.QueueStep` | xoppb/pb.go:114-119 | a queue entry is either one drained already in this generation or one whose subtree is untouched |
| `PbFlush.BelowRoot` | xoppb/pb.go:106-119 | what hangs below the request through queues is exactly the request, the spans done since the last flush and their ancestors |
| `PbFlush.DrainedEmpty` | xoppb/pb.go:106-119 | draining from the request empties every queue |
| `PbFlush.CarriesKept` | xoppb/pb.go:94-104 | versions of spans drained later do not change what was emitted |
| `PbFlush.RankedInOrder` | xoppb/pb.go:106-186 | siblings are emitted in the order in which they, or spans below them, were first done since the last flush |
| `PbFlush.FirstDoneIs` | xoppb/pb.go:171-186 | that order is by the first Done call at or below each sibling |
| `PbFlush.Request.StartLine` | xoppb/pb.go:222-223 | a line raises the end time of its span |
| `PbFlush.Request.Flush` | xoppb/pb.go:57-87 | the batch holds exactly what is due, once each and nested, and the waiting lines with the count of earlier ones; afterwards nothing is due or waiting |
| `PbRuns.Run` | xoppb/pb.go:57-186 | over every run each flush emits exactly the request, the spans done since the previous flush and their ancestors, each once under its parent, siblings in the order in which they or spans below them were first done, with the number of its emissions as version and its latest time as end time |
| `PbRuns.LatestTime` | xoppb/pb.go:171-223 | the end time of a span is at least zero and every time that Done calls and lines gave it, and it is zero or one of them |
| `PbRuns.VersionCounts` | xoppb/pb.go:89-94 | the version of a span is the number of flushes that had to emit it |
| `PbRuns.DirtyIsDue` | xoppb/pb.go:171-186 | every span done since the last flush is due, and everything due is the request or above such a span |
| `PbRuns.LinesConserved` | xoppb/pb.go:75-87 | the batches and the waiting lines concatenate to all lines in logging order, and each batch counts exactly the lines before it |
| `PbReplay.Replayer.ReplaySpan` | xoppb/replay.go:142-189 | a span is found or created, its children are replayed last to first, and it is ended if asked |
| `PbReplay.Replayer.ReplayBatch` | xoppb/replay.go:57-133 | a batch replays its spans, then its lines until one names an unknown span, then ends the request; an older version is skipped |
| `PbReplay.Replay` | xoppb/replay.go:26-43 | batches are replayed in order until one fails |
| `PbReplay.SpanAdvances` | xoppb/replay.go:142-189 | replaying a tree of new versions creates each unknown span once under its parent, updates each version and ends each span once with its end time |
| `PbReplay.LinesAdvance` | xoppb/replay.go:113-127 | lines are delivered in order, and replay goes on exactly when every line names a known span |
| `PbReplay.EmittedIffDone` | xoppb/pb.go:89-121 | a span is emitted by the next flush or was before exactly when it is the request, or it or a descendant was ever done |
| `PbReplay.SpanOrder` | xoppb/replay.go:142-189 | replaying a tree creates its unknown spans before their children, and these last to first |
| `PbReplay.RunOrder` | xoppb/replay.go:26-189 | over all batches of a run spans are created in the order in which the visits of the trees meet them first |
| `PbReplay.RoundTrip` | xoppb/replay.go:57-189 | replaying the batches of a run succeeds exactly when each line was logged on the request or on a span that, itself or by a descendant, was done before the flush carrying the line; then each emitted span is created once under its parent, in the order in which the batches name it first with siblings last to first, lines arrive in logging order, and spans are ended with their emitted end times |
| `PbReplay.LateIgnored` | xoppb/replay.go:57-65 | batches of a request that are older than what was replayed, added after the batches of a run, change nothing and succeed |
| `Recorder.Logger.Request` | xoprecorder/recorder.go:196-219 | a request is recorded with one event; the record stays what the events amount to |
| `Recorder.Logger.Span` | xoprecorder/recorder.go:264-289 | a span is recorded under its parent with one event |
| `Recorder.Logger.Done` | xoprecorder/recorder.go:222-239 | one Done event of the right kind; the end time becomes the maximum of itself, the provisional end time and the given time |
| `Recorder.Logger.Flush` | xoprecorder/recorder.go:242-249 | a flush is one event and nothing else |
| `Recorder.Logger.Metadata` | xoprecorder/recorder.go:502-512 | metadata are kept with the span and as an event |
| `Recorder.Logger.Line` | xoprecorder/recorder.go:339-361 | starting a line only raises the provisional end time |
| `Recorder.Logger.Send` | xoprecorder/recorder.go:401-415 | ending a line records it with its span, in the line list and as an event |
| `RecorderLines.ReplayLineData` | xoprecorder/replay.go:133-202 | replaying the data of a line, in any order of keys, fails exactly if a value does not fit its data type, and otherwise rebuilds data, types and the enum attributes still in use |
| `RecorderLines.TidyExactly` | xoprecorder/replay.go:133-202 | replay gives the data of a line back as they were if and only if no key is set by an enum adder and has a later, last call of another adder |
| `RecorderLines.ReusedExample` | xoprecorder/recorder.go:464-499 | an enum and then a number under one key: the recorder keeps the enum attribute, replay drops it |
| `RecorderLines.PutAllSound` | xoprecorder/recorder.go:464-499 | adders that pass matching types keep data, types and enum attributes consistent |
| `RecorderLines.LastWins` | xoprecorder/recorder.go:464-499 | a line has exactly the keys that were used, each with the value, type and enum attribute of the last call for it |
| `RecorderLines.LineRoundTrip` | xoprecorder/replay.go:63-79 | ending a line anew on its own data, in the way replay chooses, records the same line, with template text evaluated again |
| `RecorderLines.FinishedComplete` | xoprecorder/recorder.go:364-399 | a line started and ended once is a message, a template, a link or a model, and carries the evaluated template |
| `RecorderLines.Close` | xoprecorder/recorder.go:383-397 | a template key ends at the first closing brace after at least one character on the same line |
| `RecorderLines.RenderedField` | xoprecorder/recorder.go:383-397 | in a template plain text stays, and a name in braces becomes its value, or two quotes if there is none |
| `RecorderLines.RenderedPlain` | xoprecorder/recorder.go:383-397 | a template without an opening brace is its own text |
| `RecorderReplay.KeptFold` | xoprecorder/replay.go:26-30 | leaving out custom events and stale enum attributes does not change what the events amount to otherwise |
| `RecorderReplay.FoldIndexed` | xoprecorder/replay.go:33-35 | with distinct span IDs the index finds every span at its own position |
| `RecorderReplay.ReplayLine` | xoprecorder/replay.go:63-79 | replaying a line event adds the same line to the copy |
| `RecorderReplay.ReplayEvent` | xoprecorder/replay.go:26-128 | replaying one event does to the copy what the event did to the original |
| `RecorderReplay.KeptExactly` | xoprecorder/replay.go:26-61 | replay repeats the same events if and only if there are no custom ones and it changes no line |
| `RecorderReplay.Replay` | xoprecorder/replay.go:17-131 | with distinct span IDs replay never fails; the copy has the same events (custom ones and stale enum attributes aside), the same end times, spans, lines and metadata |
| `RecorderRuns.RunAndReplay` | xoprecorder/replay.go:17-131 | the same for whatever was recorded by any sequence of calls; from the calls alone the record holds every span with the information and parent of its call and with exactly its children, lines, links and metadata in order, every line with what it was started and ended with, one event a call in order, and as end time the latest time given to a span up to its last Done; the copy equals the original if and only if no line has an enum attribute whose key was reused, and its events do if and only if moreover there were no custom ones |
| `RecorderFacts.MadeAll` | xoprecorder/recorder.go:196-512 | every run of calls records exactly what the calls say |
| `RecorderFacts.CreatedHolds` | xoprecorder/recorder.go:264-289 | a new span is listed with its own parent and nowhere else |
| `RecorderFacts.EndedHolds` | xoprecorder/recorder.go:401-415 | an ended line is listed with its own span, and among the links of that span if it is a link |
| `RecorderFacts.EndDone` | xoprecorder/recorder.go:222-239 | a Done makes the end time the latest time given so far |
| `RecorderRuns.LinesSameExactly` | xoprecorder/replay.go:63-79 | over any calls replay changes no line if and only if no line has an enum attribute whose key was reused for another type |
| `Escapes.JBuilder.Comma` | xoputil/jbuilder.go:20-29 | a comma is added unless nothing was written or an opening bracket, brace or colon precedes |
| `Escapes.JBuilder.EscapeInto` | xoputil/fromphu.go:102-154 | the loop that copies chunks writes the same as mapping each byte |
| `Escapes.JBuilder.AddStringBody` | xoputil/fromphu.go:159-167 | a string is mapped byte by byte if it holds a listed byte and copied otherwise |
| `Escapes.JBuilder.AddString` | xoputil/jbuilder.go:64-68 | the body between two quotes |
| `Escapes.BodyThen` | xoputil/fromphu.go:102-167 | a body decodes to its string whatever valid body text follows |
| `Escapes.RoundTrip` | xoputil/fromphu.go:102-167 | decoding a body up to the closing quote gives the string back and stops at that quote, whatever follows |
| `Escapes.Injective` | xoputil/fromphu.go:102-167 | two quoted bodies at the start of equal texts belong to equal strings |
| `Escapes.StrictExactly` | xoputil/fromphu.go:34-44 | the body has no raw control byte exactly when every control byte is backspace, form feed, newline, return or tab, or a NUL beside a listed byte |
| `Escapes.RawExamples` | xoputil/fromphu.go:34-44 | a bell byte and a lone NUL go out raw, a NUL beside a newline does not |
| `Decimal.RoundTrip` | xoputil/jbuilder.go:111-119 | an integer is read back from its decimal text, whatever non-digit follows |
| `Decimal.Injective` | xoputil/jbuilder.go:111-119 | different integers have different decimal texts |
| `Metadata.SpanMetadata.Set` | xopbase/xopbaseutil/metadata.go:248-395 | the value of a key is replaced, kept if locked, appended, or appended if not seen |
| `Metadata.TracksStep` | xopbase/xopbaseutil/metadata.go:248-395 | after every call each tracker holds the last value, the first if locked, all values, or each once, of the values set for its key |
| `Metadata.FirstOnesInOrder` | xopbase/xopbaseutil/metadata.go:248-395 | a distinct attribute keeps each value once, in the order in which the values were first set |
| `Attributes.AttributeBuilder.AddSingle` | xopjson/xopjsonutil/attributes.go:137-150 | a single attribute starts with its key only and is marked changed |
| `Attributes.AttributeBuilder.AddMulti` | xopjson/xopjsonutil/attributes.go:110-126 | a list starts with its key and a bracket and gets a comma when it has values |
| `Attributes.AttributeBuilder.SetSingle` | xopjson/xopjsonutil/attributes.go:352-375 | the text of a single attribute stays the key and the value that the tracker keeps |
| `Attributes.AttributeBuilder.SetMulti` | xopjson/xopjsonutil/attributes.go:377-398 | the text of a list stays the values that the tracker keeps; appending and truncating a duplicate restores it exactly |
| `Attributes.AttributeBuilder.Set` | xopjson/xopjsonutil/attributes.go:352-494 | the texts agree with the trackers after every value, and exactly the key that was set becomes due |
| `Attributes.AttributeBuilder.Append` | xopjson/xopjsonutil/attributes.go:69-100 | exactly the due keys are written, each once, separated by commas, and nothing is due afterwards |
| `Attributes.EncodedInjective` | xopjson/xopjsonutil/attributes.go:381-396 | texts of different values differ, so comparing texts finds exactly the duplicates |
| `Attributes.ValueRoundTrip` | xopjson/xopjsonutil/attributes.go:368-374 | an integer or string value is read back from its text |
| `Attributes.ListRoundTrip` | xopjson/xopjsonutil/attributes.go:377-398 | a list is read back from its text |
| `Attributes.MemberRoundTrip` | xopjson/xopjsonutil/attributes.go:80-95 | a member is read back with its key, up to bytes that are not UTF-8, and its values |
| `Attributes.ObjectRoundTrip` | xopjson/xopjsonutil/attributes.go:76-99 | the members of an attributes object are read back in order |
| `Attributes.SeenExactly` | xopat/attributes.go:143-147 | members are read back with their own keys if and only if all keys are valid UTF-8 |
| `Attributes.SameNameExactly` | xopat/attributes.go:143-147 | two keys become one member name if and only if a range loop over them yields the same runes |
| `Attributes.NamesDistinct` | xopjson/xopjsonutil/attributes.go:76-99 | the names in an object are distinct if and only if the runes of the keys are |
| `Attributes.SeenExample` | xopat/attributes.go:143-147 | the keys FF and FE are not read back, and are written as one name |
| `Runes.RepairedExactly` | xopat/attributes.go:143-147 | replacing what is not UTF-8 leaves a string alone if and only if it is valid |
| `Runes.Shared` | xopat/attributes.go:143-147 | another string is repaired to the same if and only if U+FFFD is among the runes, written out or for a bad byte |
| `Marshal.RoundTrip` | xopat/attributes.go:143-147 | a key as encoding/json writes it is read back up to bytes that are not UTF-8, and as it is if and only if there are none |
| `Attributes.Run` | xopjson/xopjsonutil/attributes.go:69-150 | over every sequence of values and writes, each written object decodes to exactly the keys set since the previous write, with the values that the trackers keep |
| `Json.ValueSkipped` | xopjson/jsonlogger.go:339-387 | rendered text is one balanced value with commas exactly between members and elements, whatever follows, by the grammar of RFC 8259 |
| `Json.ValueBroken` | xopjson/jsonlogger.go:561-568 | a value with text inside that is no JSON value is none itself |
| `Json.StringSkipped` | xoputil/jbuilder.go:64-68 | a string, written in several parts, ends at its own quote |
| `JsonRead.EntriesRead` | xopjson/jsonlogger.go:372-600 | the members of an object are read back in order, with their keys and the texts of their values |
| `JsonLine.Builder.StartAttributes` | xopjson/jsonlogger.go:478-483 | the attributes object is opened once, when wanted and not yet open |
| `JsonLine.Builder.AnyCommon` | xopjson/xopjsonutil/builder.go:24-35 | a JSON model is embedded as it is, any other as a string with its encoding, and its type follows |
| `JsonLine.Builder.AddValue` | xopjson/jsonlogger.go:485-577 | each adder writes the object of its value and type, from which `JsonLineRead.AttributeRead` reads them back |
| `JsonLine.Builder.Add` | xopjson/jsonlogger.go:485-577 | an adder opens the attributes if needed and adds one member |
| `JsonLine.GrowOpen` | xopjson/jsonlogger.go:478-600 | an adder adds one attribute to the open text of a line, in either attribute mode |
| `JsonLine.GrowPrefill` | xopjson/jsonlogger.go:292-312 | prefilled attributes are bare members separated by commas |
| `JsonLine.Prefill` | xopjson/jsonlogger.go:292-312 | prefilling keeps the members and the encoded message |
| `JsonLine.AddStack` | xopjson/jsonlogger.go:343-354 | stack frames are an array of strings file:line |
| `JsonLine.StartLine` | xopjson/jsonlogger.go:314-370 | a line starts with level, time, stack, span identification and the prefilled attributes, and is open exactly if attributes were started |
| `JsonLine.CloseText` | xopjson/jsonlogger.go:372-375 | closing the attributes leaves the members of the line so far |
| `JsonLine.EndLine` | xopjson/jsonlogger.go:372-474 | Msg, Template, Link and Model complete the reference object and a newline |
| `JsonLine.LogLine` | xopjson/jsonlogger.go:298-474 | for any prefill, attribute calls and ender the emitted line is the rendering of the reference object and a newline |
| `JsonLineRead.AttributeRead` | xopjson/jsonlogger.go:485-577 | every attribute is read back from its text with its key, kind, value and type |
| `JsonLineRead.EnderRead` | xopjson/jsonlogger.go:372-474 | how a line was ended is read back, with the message behind what was prefilled, the trace of a link or the model |
| `JsonLineRead.LineRead` | xopjson/jsonlogger.go:298-474 | a line is read back from its text: level, time, stack frames, the attributes in order with kind, value and type, and its end |
| `JsonLineRead.LogAndRead` | xopjson/jsonlogger.go:298-474 | the same for whatever is logged, with any prefill and in either attribute mode |
| `JsonLine.PrefillShown` | xopjson/jsonlogger.go:372-474 | two prefilled messages make the same line if and only if they are equal or the line is a Template |
| `JsonLine.LineBalanced` | xopjson/jsonlogger.go:298-474 | that line is one balanced JSON object and only the newline follows it, given that embedded encodings and formatted times are JSON values and no float is infinite or not a number |
| `JsonLine.LineExactly` | xopjson/jsonlogger.go:561-568 | everything else being in order, the line is a JSON object if and only if no float in it is infinite or not a number |
| `JsonLine.FloatExactly` | xoputil/jbuilder.go:107-109 | a finite float is written as a JSON number; an infinite one or NaN as text that starts no JSON value |
| `JsonLine.DecimalFine` | xoputil/jbuilder.go:111-119 | a decimal number is a value on its own |
| `JsonLine.SafeFine` | xoputil/jbuilder.go:56-60 | a string without listed bytes may be written unescaped |
| `JsonReplay.Replayer.Scan` | xopjson/replay.go:153-206 | sorting the records fails exactly on an unknown type, and keeps the last record of each ID |
| `JsonReplay.Replayer.Attach` | xopjson/replay.go:213-223 | attaching fails exactly if a span names no parent or an unknown one, and collects exactly the spans that name each parent |
| `JsonReplay.Replayer.ReplaySpan` | xopjson/replay.go:315-366 | the recursion ends on any records; afterwards every span outside the current branch has all its children created and its end told once; the calls are those of a depth-first walk, children first to last |
| `JsonReplay.Replayer.CreateChild` | xopjson/replay.go:330-361 | a child is created once from its last record; looking up its record cannot fail |
| `JsonReplay.MadeReachable` | xopjson/replay.go:330-361 | whatever is created is reachable from a request |
| `JsonReplay.ReachedMade` | xopjson/replay.go:330-361 | when all requests and with each span its children are created, all that is reachable is |
| `JsonReplayRuns.FindLast` | xopjson/replay.go:225-231 | the backward loop finds the last record of each request |
| `JsonReplayRuns.LastIsTable` | xopjson/replay.go:180-200 | with disjoint IDs that is the record that spans were attached to |
| `JsonReplayRuns.StartRequests` | xopjson/replay.go:233-290 | requests are started once each, in order of first occurrence, from their last records |
| `JsonReplayRuns.ReplayLines` | xopjson/replay.go:732-752 | lines are delivered in order until one names an unknown span or is bad |
| `JsonReplayRuns.EndRequests` | xopjson/replay.go:295-303 | each started request with a duration is ended once, last |
| `JsonReplayRuns.ReplayRecords` | xopjson/replay.go:141-366 | the replay ends on any records; with disjoint request and span IDs it succeeds exactly on acceptable records, and then has created exactly what is reachable, once each and after its parent, in the order of a depth-first walk from each request in turn, delivered all lines in order and told every end |
| `JsonOrder.SiblingOrder` | xopjson/replay.go:330-361 | the spans created under one parent come in the order in which the records name them first |
| `JsonOrder.EndsLast` | xopjson/replay.go:362-366 | a span is ended after all its children, and nothing is created under it afterwards |
| `JsonOrder.WalkBlock` | xopjson/replay.go:330-366 | the calls for a span and all below it come in one block |
| `Hex.DecodeEncode` | xoptrace/hexbytes.go:137-141 | decoding the hexadecimal text of bytes gives the bytes, and the text is lower case |
| `Hex.EncodeDecode` | xoptrace/hexbytes.go:188-192 | encoding what was decoded gives the lower-case text |
| `Trace.HeaderFields` | xoptrace/trace.go:209-226 | version, trace ID, span ID and flags sit at offsets 0, 3, 36 and 53 of a 55 character header |
| `Trace.ParseHeader` | xoptrace/trace.go:75-99 | reading a written header gives the identifiers back |
| `Trace.HeaderParsed` | xoptrace/trace.go:75-99 | writing a read header gives its lower-case form |
| `Trace.Trace.Initialize` | xoptrace/trace.go:198-207 | initializing makes texts and header agree with the bytes and keeps these |
| `Trace.Trace.ShownConsistent` | xoptrace/trace.go:198-207 | texts, header and bytes agree if and only if the bytes that the texts stand for are the bytes of the trace |
| `Trace.Trace.SetBytes` | xoptrace/hexbytes.go:137-153 | the bytes are cut off or filled up with zeros, other fields stay, everything agrees |
| `Trace.Trace.SetFieldString` | xoptrace/hexbytes.go:188-204 | text that is not hexadecimal sets zeros |
| `Trace.Trace.SetField` | xoptrace/hexbytes.go:239-252 | setting bytes with their right text keeps texts and header in step; with a wrong text the trace is not consistent |
| `Trace.Trace.SetString` | xoptrace/trace.go:87-99 | a valid header sets all fields and texts; an invalid one sets only the flags byte of an initialized trace, so that its texts stay what they were |
| `Trace.Trace.RebuildSetNonZero` | xoptrace/trace.go:188-196 | only zero IDs are replaced |
| `Trace.Run` | xoptrace/hexbytes.go:137-252 | after every sequence of setters and of parsed headers, valid or not, the header is the one of the bytes set, and parsing it gives these bytes, if and only if the flags are not stale; otherwise only the flags differ |
| `Trace.StaleExactly` | xoptrace/trace.go:87-92 | texts and bytes differ in the flags at most, and do so exactly when since their last setting an invalid header was parsed over flags other than 01 |
| `Trace.TraceFromString` | xoptrace/trace.go:77-81 | parsing succeeds exactly on valid headers, and a parsed header prints as its lower-case form |
| `Trace.StaleHeader` | xoptrace/trace.go:87-92 | an invalid header over other flags leaves a header that does not say what the bytes say |
| `Quote.CloseBody` | xopconsole/replay.go:627-641 | the first quote outside escapes is the one that closes a quoted string |
| `Quote.UnquoteBody` | xopconsole/replay.go:635 | unquoting gives every string of bytes back, for any printability predicate |
| `Quote.OneLine` | xoputil/jbuilder.go:95-101 | a quoted string holds no newline |
| `Console.Scan` | xopconsole/replay.go:627-642 | the index loop finds the first quote outside escapes |
| `Console.ReadString` | xopconsole/replay.go:623-648 | one possibly quoted string, or the empty string and the whole text |
| `Console.StringRoundTrip` | xoputil/jbuilder.go:77-101 | any string of bytes as written, followed by nothing or a space, is read back with exactly what follows |
| `Console.OneLineWritten` | xoputil/jbuilder.go:90-101 | a written string is never empty, t, f, or more than one line |
| `ConsoleRequest.PrintRequest` | xopconsole/console.go:148-175 | the start record: header, name, source, namespace, then parent, state and baggage if set |
| `ConsoleRequest.ReplayRequestStart` | xopconsole/replay.go:501-566 | parsing a start record, with the turn of the loop that repeats itself forever told apart |
| `ConsoleRequest.TurnShrinks` | xopconsole/replay.go:527-566 | a turn of the parsing loop shortens the text or changes nothing at all |
| `ConsoleRequest.RequestRoundTrip` | xopconsole/replay.go:501-566 | a printed record parses to the same trace, name, source, namespace, state and baggage, and to the parent up to what its abbreviation drops |
| `ConsoleRequest.ParentExact` | xopconsole/console.go:158-165 | the parent is recovered exactly when it was printed in full or has version 00 and flags 01 |
| `ConsoleRequest.EmptyNameFails` | xopconsole/replay.go:511-514 | a request without a name is printed but does not parse |
| `ConsoleRequest.HangsExactly` | xopconsole/replay.go:527-536 | a turn changes nothing exactly when the text holds no space, colon or equals sign, or starts with a quoted word that cannot be unquoted |
| `ConsoleRequest.StrayWordHangs` | xopconsole/replay.go:527-536 | one stray word after the namespace keeps the parser going forever |
| `SequenceCode.ToBase26` | support.go:7-19 | converting the digits in place gives the number in base 26 with letters |
| `SequenceCode.Base26Injective` | support.go:7-19 | different numbers have different letters |
| `SequenceCode.PartInjective` | sub.go:164-183 | forks and steps, and different counts of either, add different parts |
| `SequenceCode.LastDot` | sub.go:167 | a code splits at its last dot in one way only |
| `SequenceCode.Spans.Add` | sub.go:164-183 | a call bumps one int32 counter and extends the code of the parent |
| `SequenceCode.Run` | sub.go:164-183 | the codes of any sequence of forks and steps |
| `SequenceCode.CodesDistinct` | sub.go:164-183 | distinct spans have distinct codes exactly when no span was forked, or stepped, more than 2^32 times |
| `StackFrames.LogSettings.StackFrames` | sub.go:198-208 | levels above get at least the count, levels below at most, the level itself exactly; undefined levels stay zero |
| `StackFrames.Monotone` | sub.go:198-208 | after any calls higher levels never get fewer frames |
| `StackFrames.LogSettings.Allocate` | logger.go:540-545 | with counts that are not negative a line asks for a length from zero to its capacity |
| `StackFrames.NegativeCount` | sub.go:198-208 | a call keeps all counts from becoming negative exactly when its own count is not negative or its level is below all levels |
| `StackFrames.Run` | sub.go:112-116 | the counts of all levels after any calls from the defaults |
| `Examples.OneLine` | xopjson/jsonlogger.go:314-387 | a whole line with one attribute, as it is written |
| `Examples.StartRecord` | xopconsole/console.go:148-175 | a whole start record on the console, as it is written |
| `Examples.ForksAndSteps` | sub.go:164-183 | forks of a span are lettered from A, steps are numbered from 1 |
| `Examples.Numbers` | support.go:7-19 | decimal, hexadecimal and base 26 numbers, as they are written |
| `Examples.FirstRunes` | xopat/attributes.go:143-147 | the bytes of a rune, and bytes that start none: overlong, surrogate, too large |
| `Examples.Fitted` | xoptrace/hexbytes.go:137-153 | bytes are cut off or filled up at the end |
| `Examples.QuotedStrings` | xoputil/jbuilder.go:95-101 | quoted strings with a quote, a control byte and a bad byte, as they are written |
| `Examples.EscapedString` | xoputil/fromphu.go:102-167 | a JSON string body with escapes, and one that needs none, as they are written |

## Left out

- Sub-loggers that share the span of their parent, children created under a parent that was done (except in `RunAny` and `RunAwake`), and base loggers added to or removed from single spans.
- Timers, asynchronous flushes after the last Done, finalizers and the parallel flush of several base loggers: a flush of the base loggers is one step.
- PbFlush.Request.GetProto: the attributes of an emitted span are not part of it, and versions are unbounded integers, not int32.
- PbFlush.Request.Flush: attribute definitions and the alert and error counts of a batch are not part of it; line counts are unbounded.
- PbReplay.Replayer.ReplaySpan: errors from span attributes and from versions of sources are not modelled.
- PbReplay.Replayer.ReplayBatch: errors from attribute definitions and from the contents of lines are not modelled.
- Recorder.Logger.Request: trace and request numbers and source information are not recorded.
- Recorder.Logger.Span: short names and source information are not recorded.
- JsonReplay.Replayer.Scan: records come decoded; definitions of attributes and errors of the JSON decoder are not modelled.
- JsonReplay.Replayer.ReplaySpan: the ways in which the contents of a record can fail are flags on the record. The same holds for CreateChild, StartRequests and ReplayLines.
- The end time of an emitted protobuf span is a pointer to the live field in the code; here it is the value at the time of the flush.
- PbReplay.RoundTrip: batches of one request; replay of several requests goes through them one by one.
- Parsing of source and namespace versions, and of JSON text into records: records come decoded, with flags for the ways in which their contents can fail. The JSON decoder of the repository reads a field `name` while the writer emits `span.name`, so names are not part of the JSON replay model.
- JsonReplayRuns.ReplayRecords: for records in which a span has the ID of a request only termination is stated.
- RecorderReplay.Replay: recordings in which two spans share an ID, and lines that are ended more than once; trace and request numbers of the copy.
- The text of times and durations: given as text, times assumed to be JSON values where they are embedded in JSON without quotes. The digits of floats are given, not computed. JSON encodings of models are assumed to be compact, valid JSON.
- Attributes of other types than integer and string, which repeat the same code, and the preallocated blocks that their buffers live in.
- Metadata and the span identification members of JSON lines are given as members, not built from the tag options.
- JsonLineRead.LineRead: the members that identify the span are told by their number and have keys of their own; the name of an embedded JSON encoding is not in the text, and formatted times stay text.
- Console lines and their attributes, Done records, reading of metadata; HTTP, gRPC, context lookup, redaction, seeds and their reactive callbacks.
