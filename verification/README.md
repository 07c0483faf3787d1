# LangShell, modelled and proved

LangShell runs agent code in persistent sessions and lets every external effect through registered
tools only. Two backends execute the code: Monty (Python) and Deno (TypeScript). A facade joins them.
This project models the code around the two engines and proves what it is for.

The engines themselves are parameters. The Python VM is any function from a state and an answer to the
next request, the tools are an oracle, and every order in which futures finish, threads interleave or
clients send is allowed; so the theorems speak about all programs, all tools and all schedules. For the
session stores, what the tools answer in a run and in which order its calls finish is part of the request.

| modules | what they model |
|---|---|
| `MontyDispatcher`, `MontyLoop`, `MontyTranscript`, `MontyFanOut` | the host loop that drives the Python VM and its asynchronous tool calls |
| `MontyRun`, `PythonValidator`, `RunResults` | one run of a Python session, the static check before it, and what both backends make of errors and output |
| `CodecTree`, `CodecHeap`, `CodecGraph`, `CodecSnapshot` | the typed snapshot codec of the TypeScript backend, from heap graphs to tagged JSON and back |
| `DenoTimer`, `DenoCalls`, `DenoRun`, `DenoActor` | the wall-clock guard, the call accounting, one run and the command queue of the TypeScript backend |
| `Sessions`, `Table`, `MontyStore`, `SnapshotGate`, `Facade` | session stores: the serial specification, the table, the interleaved store, snapshots between different tool sets, the facade |
| `Registry`, `Discovery`, `Mounts`, `Utf8`, `Ordering` | tool registry and digest, discovery tools, file mounts, text truncation, sorted listings |

What a run does step by step is written as methods and classes with loops and mutable fields where the
code is; each is proved against a specification function or a step of a transition system, and the
theorems are about those.

Findings, each with the condition under which it happens:

- An object whose `__lang` field is one of the codec's own tags does not survive a snapshot, and nothing else fails to (`CodecTree.RoundTripExactly`; `CodecTree.CollisionExample`).
- One such object can make the snapshot of a whole session unusable: it can be restored exactly when every such object in it has a payload that its tag can take (`CodecSnapshot.RestorableExactly`; `CodecSnapshot.UnrestorableExample`).
- Objects that are merely shared, not cyclic, cannot be snapshotted, because the visited set is never popped (`CodecGraph.EncodesExactly`, `CodecGraph.SharedThrows`; `CodecGraph.SharedExample`).
- The call limit of a Python run holds exactly below the largest 32-bit value, where its counter saturates, or where no tool is registered (`MontyDispatcher.LimitHoldsExactly`; `MontyDispatcher.SaturatedLimitIsVoid`).
- Three error exits of a Python run skip the output limit (`MontyRun.StdoutBoundExactly`; `MontyRun.UnboundedStdoutExample`).
- The comment at crates/langshell-monty/src/lib.rs:1053 says relative imports are unsupported; the code refuses only those that name no module or a blocked one (`PythonValidator.RelativeImportsExactly`; `PythonValidator.RelativeImportExample`).
- Overlapping runs of one Python session lose updates: with an engine that counts its runs, the stored session is the serial one if and only if no two runs of it overlapped (`MontyStore.IsolatedExactly`; `MontyStore.OverlapLosesAnUpdate`).
- A Python run that is dropped before it has put its session back takes the session with it (`MontyStore.SurvivesExactly`; `MontyStore.CancelExample`).
- A TypeScript run can report calls of an earlier run, past its own limit: exactly when a tool is registered and a call was left in flight or the limit is the largest 32-bit value (`DenoCalls.LimitIsKeptInSessions`; `DenoCalls.LateRecordExample`).
- Runs do not check session ids, but destruction does: a session that a run opened under an invalid id is listed and can never be destroyed (`Facade.OrphanExactly`; `Facade.OrphanExample`).
- The discovery tools disagree with the registry as soon as one of their names was taken before (`Discovery.ListToolsExactly`, `Discovery.DescribeExactly`, `Discovery.PolicyExactly`; `Discovery.TakenNameExample`).
- A mount at "/" matches only "/" and paths that start with "//" (`Mounts.MatchesExactly`), and the path of a mount whose host is a single file is always refused (`Mounts.ResolveExactly`, `Mounts.FileMountIsClosed`; `Mounts.FileMountExample`).

## Model

| member | source | states |
|---|---|---|
| MontyDispatcher.RunTool | crates/langshell-monty/src/lib.rs:691-744 | the record of a call carries the tool's name, side effect and the request; an answer is logged as Ok, whether or not the program can take it; a failure is raised in the program and logged, as denied exactly if its code is PERMISSION_DENIED |
| MontyDispatcher.RunConserves | crates/langshell-monty/src/lib.rs:498-689 | in every state of every run, error exits included: asynchronous calls are partitioned among in flight, ready and delivered; the log is exactly the deliveries in order; calls counted = logged + in flight + ready + at most one refused on the exit |
| MontyDispatcher.RunAuthentic | crates/langshell-monty/src/lib.rs:558-632 | what is in the books is, as a multiset, exactly the outcomes of the calls that were started |
| MontyDispatcher.AtMostOnce | crates/langshell-monty/src/lib.rs:498-689 | with distinct call ids, each started call's outcome is in exactly one place, and the VM hears at most one result per id, that of this very call |
| MontyDispatcher.StuckExactly | crates/langshell-monty/src/lib.rs:633-668 | a resolve step ends in the "no host futures are pending" error exactly when nothing requested is in flight or ready |
| MontyDispatcher.ResolveProgress | crates/langshell-monty/src/lib.rs:633-668 | if the VM asks for a non-empty set of issued, undelivered ids, the step succeeds, delivers at least one requested result and only requested ones, and leaves none of them ready |
| MontyDispatcher.StepBound | crates/langshell-monty/src/lib.rs:558-668 | below the saturation point a run starts and logs at most max_external_calls calls and takes at most twice that plus one call and resolve steps |
| MontyDispatcher.SaturatedLimitIsVoid | crates/langshell-monty/src/lib.rs:558-568 | with the limit at the largest u32 there are runs with any number of started calls |
| MontyDispatcher.LimitHoldsExactly | crates/langshell-monty/src/lib.rs:558-568 | no run of any program starts more calls than the limit, if and only if the limit is below the largest u32 or no tool is registered |
| MontyLoop.DrainReadyFor | crates/langshell-monty/src/lib.rs:746-763 | the in-place drain hands over exactly the requested items, logs them in order, and keeps the others in order |
| MontyLoop.AwaitOne | crates/langshell-monty/src/lib.rs:636-655 | whatever future finishes next, the wait ends at the first requested one or when none is left; the others are kept as ready, in arrival order |
| MontyLoop.CallTurn | crates/langshell-monty/src/lib.rs:558-632 | the call arm takes the step of the transition system: counts first, then limit, registry and argument errors, then start or run |
| MontyLoop.ResolveTurn | crates/langshell-monty/src/lib.rs:633-668 | the resolve arm takes a legal step of the transition system |
| MontyLoop.RunReplSnippet | crates/langshell-monty/src/lib.rs:498-689 | the loop follows a run of the transition system in every completion order, and returns its exit, with no more logged calls than the limit |
| MontyTranscript.HeardExactly | crates/langshell-monty/src/lib.rs:498-689 | what any program hears, in every run: for each name looked up the tool registered under it, or nothing exactly if there is none; for each operating-system call its own denial; a promise from an asynchronous tool and the result from a synchronous one; for each wait at least one and only requested results; all results together are exactly the deliveries, in order and under their own ids; and the output is the concatenation of what it printed |
| MontyTranscript.EndsExactly | crates/langshell-monty/src/lib.rs:498-689 | how any run ends: with the value or the error of its last request, or with the limit error exactly at one call too many, else with the unknown-tool error, else with that of the arguments, or with the stuck error when nothing waited for is left; with the program's last state, all its output and all deliveries |
| MontyFanOut.GatherRun | crates/langshell-monty/src/lib.rs:601-668 | every reachable state of a program that starts n calls and gathers them is on course, or has stopped with the one right answer |
| MontyFanOut.GatherStops | crates/langshell-monty/src/lib.rs:601-668 | no schedule needs more than 2n + 1 turns |
| MontyFanOut.RunFanOut | crates/langshell-monty/tests/sdk_async_fanout.rs:24-34 | for every n and every schedule: the outcome of call i at position i, and the log a permutation of the n calls |
| PythonValidator.Head | crates/langshell-monty/src/lib.rs:1036-1037 | the part of a dotted name before its first dot |
| PythonValidator.FindingExactly | crates/langshell-monty/src/lib.rs:1029-1089 | a node is reported exactly when it breaks one of the coded rules |
| PythonValidator.FindingSays | crates/langshell-monty/src/lib.rs:992-1021 | the report is an unknown tool exactly for a call of a suspicious unregistered name, an unsupported feature otherwise, and names what was found, the first blocked name of an import |
| PythonValidator.RelativeImportsExactly | crates/langshell-monty/src/lib.rs:1044-1056 | a relative import is refused exactly when it names no module, or one with a blocked head |
| PythonValidator.RelativeImportExample | crates/langshell-monty/src/lib.rs:1044-1056 | "from .foo import x" is accepted |
| PythonValidator.SilentIsClean | crates/langshell-monty/src/lib.rs:1092-1104 | no report means no node at any depth breaks a rule |
| PythonValidator.ReportIsFirst | crates/langshell-monty/src/lib.rs:983-1105 | the report is that of the first node, in pre-order over paths, that breaks a rule |
| PythonValidator.ReportExactly | crates/langshell-monty/src/lib.rs:983-1105 | there is a report if and only if some node breaks a rule |
| PythonValidator.MoreToolsAcceptMore | crates/langshell-monty/src/lib.rs:1082-1085 | registering more tools never makes acceptable code unacceptable |
| PythonValidator.Visitor.Visit | crates/langshell-monty/src/lib.rs:1028-1090 | the visitor, which writes its error field and stops early, leaves the earlier report or the first one of the tree |
| PythonValidator.Visitor.VisitAliases | crates/langshell-monty/src/lib.rs:1034-1042 | an import statement is reported under its first blocked name |
| PythonValidator.StaticValidationError | crates/langshell-monty/src/lib.rs:983-1105 | the whole check: nothing for code that does not parse, otherwise the first violation in pre-order, and none exactly for clean code |
| MontyRun.RunSession | crates/langshell-monty/src/lib.rs:298-479 | a run ends as one of its exits demands, after exactly the snippets that exit allows, each being a run of the dispatcher; it is Ok exactly when the second snippet gives a value or finds no name `result`, and reports that value or else the first one; otherwise it reports the error of its last event (the check, the first bad input, the failed snippet, the value that could not be converted), with the status of a failed snippet fixed by the error code alone; all answered calls of both are logged |
| RunResults.StatusExactly | crates/langshell-monty/src/lib.rs:927-947 | which codes give which status: resource exhaustion exactly for its four codes, and so on; codes without a status of their own are runtime errors, or validation errors when validating |
| MontyRun.ImmediateRun | crates/langshell-monty/src/lib.rs:314-395 | the engine is started with the request's time limit (or the session's), code and inputs, and then with the code `result` in the REPL that is left |
| MontyRun.BadInputExactly | crates/langshell-monty/src/lib.rs:321-345 | the error about inputs is that of the first one that cannot be converted |
| MontyRun.Validate | crates/langshell-monty/src/lib.rs:92-119 | validation is Ok exactly when check and compiler find nothing; for code the check refuses, every run gives the same status and error and leaves the session alone |
| MontyRun.RefusedCodeNeverRuns | crates/langshell-monty/src/lib.rs:303-312 | code that breaks a rule makes no VM step and no call; code that ran is clean |
| MontyRun.StdoutBoundExactly | crates/langshell-monty/src/lib.rs:347-479 | on every exit the output is a prefix of what both snippets printed; it keeps the limit exactly when the run does not take one of the three uncut exits with too much output; the flag is set exactly when something was cut, and then at most three bytes below the limit are lost |
| MontyRun.UnboundedStdoutExample | crates/langshell-monty/src/lib.rs:356-367 | a value that cannot be reported lets any amount of output through |
| MontyRun.CallBound | crates/langshell-monty/src/lib.rs:332-375 | each snippet has the whole call limit, so a run logs at most twice the limit |
| MontyRun.StaticStatus | crates/langshell-monty/src/lib.rs:927-947 | whatever the static check reports becomes a validation error |
| RunResults.TruncateStdout | crates/langshell-monty/src/lib.rs:1107-1120 | keeps the longest leading part that fits, and says whether it cut |
| CodecTree.RoundTripExactly | crates/langshell-deno/src/lib.rs:821-882 | a saved value is decoded to itself if and only if no object in it carries one of the five tags (and no Map or Set lists a primitive twice, as none does) |
| CodecTree.RestoresExactly | crates/langshell-deno/src/lib.rs:867-882 | a saved value can be decoded at all, to whatever it may be, if and only if every object in it that carries a tag has a payload which that tag can take |
| CodecTree.UndecodableExample | crates/langshell-deno/src/lib.rs:870-870 | a plain object tagged bigint whose text is no number makes the decoder throw |
| CodecTree.CollisionExample | crates/langshell-deno/src/lib.rs:867-882 | a plain object that comes back as a Set |
| CodecTree.WireFormat | crates/langshell-deno/src/lib.rs:821-866 | the JSON of every kind of value, item by item |
| CodecTree.UniquePlaces | crates/langshell-deno/src/lib.rs:874-874 | a decoded Set holds the first of each repeated primitive, in order |
| CodecTree.MergedPlaces | crates/langshell-deno/src/lib.rs:873-873 | a decoded Map holds each key where it came first, with the value that came last |
| CodecTree.UntagDecodable | crates/langshell-deno/src/lib.rs:867-882 | whatever JSON it is given, the decoder only produces well-formed values: Maps and Sets without twins, nothing unsaveable but the `undefined` of Map entries that are too short |
| CodecHeap.TagValue | crates/langshell-deno/src/lib.rs:821-866 | the recursive encoder, which mutates its visited set, terminates on every heap and computes the encoding and the visited set of its specification, of which the theorems below speak |
| CodecGraph.EncodesExactly | crates/langshell-deno/src/lib.rs:821-866 | on every heap graph the encoder succeeds exactly on values that unfold into a finite tree reaching no object twice and no invalid date, and then writes that tree after the coded normalisation |
| CodecGraph.CyclicThrows | crates/langshell-deno/src/lib.rs:828-829 | a value from which a cycle is reachable throws |
| CodecGraph.SharedThrows | crates/langshell-deno/src/lib.rs:828-829 | an object holding one object twice throws although nothing is cyclic |
| CodecGraph.SharedExample | crates/langshell-deno/src/lib.rs:828-829 | the array [x, x] of one empty array throws |
| CodecGraph.AssembleWrites | crates/langshell-deno/src/lib.rs:830-865 | the encoder's own assembly of the parts is the written form of the normalised tree |
| CodecGraph.KeptExactly | crates/langshell-deno/src/lib.rs:824-865 | the normalisation, child by child for every object: an array keeps its length, with null exactly for what cannot be saved; a Set keeps its saveable members and a Map the entries of which both parts are saveable, in order; a record has a field exactly if it is saveable and not called `__proto__`; a primitive is lost exactly if it is undefined, a function or a symbol |
| CodecSnapshot.Realm.SnapshotGlobals | crates/langshell-deno/src/lib.rs:892-907 | the loop over the globals, with a fresh visited set each, yields the snapshot; a global that throws is left out whole |
| CodecSnapshot.SnapshotExactly | crates/langshell-deno/src/lib.rs:892-907 | a snapshot holds exactly the non-baseline, non-reserved globals that unfold without repetition into a saveable tree |
| CodecSnapshot.RestorableExactly | crates/langshell-deno/src/lib.rs:883-907 | a snapshot can be restored if and only if every object in it that carries a tag has a payload which that tag can take |
| CodecSnapshot.UnrestorableExample | crates/langshell-deno/src/lib.rs:883-907 | one global with a bad payload keeps the other, harmless one from being restored |
| CodecSnapshot.SnapshotDecodes | crates/langshell-deno/src/lib.rs:883-907 | a snapshot without tagged objects can always be restored: every entry decodes, and no key is a fixed property of the global object |
| CodecSnapshot.Realm.RestoreGlobals | crates/langshell-deno/src/lib.rs:883-891 | succeeds exactly if every value decodes and no key is a non-configurable global; then exactly the saved globals are defined, each holding the decoded value in new objects, and no old object is touched |
| CodecSnapshot.IdempotentExactly | crates/langshell-deno/src/lib.rs:883-907 | after any restoration a new snapshot is the old one if and only if every entry is again what its decoded form is encoded as |
| CodecSnapshot.SnapshotIsIdempotent | crates/langshell-deno/src/lib.rs:359-416 | without tagged objects: restoring into a fresh session with the same baseline defines exactly the saved globals, and a snapshot of that session is the same again |
| DenoTimer.InvHolds | crates/langshell-deno/src/lib.rs:568-626 | the invariant relating mutex, flags and both threads holds in every interleaving of any number of runs |
| DenoTimer.ReturnIsClean | crates/langshell-deno/src/lib.rs:568-626 | at every return the timer thread is gone and the termination flag is clear; the result is success exactly if the script was fulfilled and the timer never fired, failure exactly if it failed or was rejected and the timer never fired, and a timeout otherwise |
| DenoTimer.SuccessExample | crates/langshell-deno/src/lib.rs:568-626 | a run that returns success |
| DenoTimer.TimeoutExample | crates/langshell-deno/src/lib.rs:568-626 | a run that its timer ends |
| DenoTimer.NoLeak | crates/langshell-deno/src/lib.rs:568-626 | no run starts with a termination pending, and only its own timer can set one |
| DenoTimer.NoLostWakeup | crates/langshell-deno/src/lib.rs:666-673 | while the main thread joins, the timer thread is never asleep, whether the notification found it waiting or not |
| DenoTimer.NotificationIsNeeded | crates/langshell-deno/src/lib.rs:668-671 | there are runs in which leaving out the notification would block both threads for ever |
| DenoTimer.NoDeadlock | crates/langshell-deno/src/lib.rs:568-626 | some thread can always move, even if no sleeper ever wakes up by itself |
| DenoTimer.JoinIsBounded | crates/langshell-deno/src/lib.rs:666-673 | the join ends after at most three steps of the timer thread |
| DenoTimer.MutexIsReleased | crates/langshell-deno/src/lib.rs:572-592 | the timer thread holds the mutex only for a bounded number of its own steps |
| DenoCalls.DenoOpState.PrepareToolCall | crates/langshell-deno/src/lib.rs:920-949 | counts, then refuses for limit or registry, and records the refusal as the run's error |
| DenoCalls.DenoOpState.FinishToolCall | crates/langshell-deno/src/lib.rs:993-1007 | logs the record, and keeps the error of a failed call |
| DenoCalls.DenoOpState.CallToolSync | crates/langshell-deno/src/lib.rs:726-748 | a synchronous call is prepare, refusal of awaited tools, run, finish |
| DenoCalls.DenoOpState.ResetRunState | crates/langshell-deno/src/lib.rs:529-540 | a new run starts with empty books |
| DenoCalls.CallsAreAccountedFor | crates/langshell-deno/src/lib.rs:920-1007 | since a reset, in every interleaving and for every limit: records are the completions in finish order, and the error is set exactly when some call was refused or failed; below the saturation point admitted calls keep the limit |
| DenoCalls.ErrorExactly | crates/langshell-deno/src/lib.rs:920-1007 | the error a run is left with is that of the last call that was refused or failed: the limit, else an unknown tool, else a missing await, else the tool's own |
| DenoCalls.StreamsExactly | crates/langshell-deno/src/lib.rs:529-540 | since a reset the two streams hold exactly what was printed to each, in order |
| DenoCalls.AdmittedBound | crates/langshell-deno/src/lib.rs:920-949 | at every moment the admitted calls are within the limit and within the calls requested |
| DenoCalls.OkRunHasOkRecords | crates/langshell-deno/src/lib.rs:491-500 | an Ok run has only Ok records, even if the script caught every exception |
| DenoCalls.RecordsBound | crates/langshell-deno/src/lib.rs:750-765 | the records exceed the limit by at most the calls that earlier runs left in flight |
| DenoCalls.LimitIsKeptExactly | crates/langshell-deno/src/lib.rs:529-540 | from any state after a reset, every run keeps its records within the limit if and only if nothing is in flight and the counter cannot saturate, or no tool is registered and no more calls than the limit are in flight |
| DenoCalls.LimitIsKeptInSessions | crates/langshell-deno/src/lib.rs:473-540 | in a session, whose registry never changes, the latter means: if and only if no tool is registered, or nothing was left in flight and the counter cannot saturate |
| DenoCalls.LateRecordExample | crates/langshell-deno/src/lib.rs:750-765 | a session in which a run with limit zero reports a call of the run before |
| DenoRun.DenoSession.Run | crates/langshell-deno/src/lib.rs:450-527 | check, transpile, reset, inputs, script, result and report, on the session's own fields |
| DenoRun.ApplyStreams | crates/langshell-deno/src/lib.rs:1350-1365 | both streams are cut to the limit, and the log is added |
| DenoRun.StreamsBound | crates/langshell-deno/src/lib.rs:450-527 | on every exit both streams keep the limit |
| DenoRun.RefusedLeavesNoTrace | crates/langshell-deno/src/lib.rs:451-469 | code that the check or the transpiler refuses leaves the session as it was and makes no call |
| DenoRun.ReportExactly | crates/langshell-deno/src/lib.rs:471-527 | the report of an executed run, over the events of the run: its error is the script's own, else the last complaint of its calls, else that of an unreadable result; it is Ok exactly without any of these, then gives the result, and all its calls are Ok; the status of a failed execution follows from the code; the log is the completions in order; the streams are what was printed to each, cut to the longest part that fits |
| DenoActor.TakeFolds | crates/langshell-deno/src/lib.rs:265-303 | the sessions after k commands are the serial fold over the first k |
| DenoActor.RunIsLinear | crates/langshell-deno/src/lib.rs:229-248 | in every run of the queue: nothing is handled after a shutdown, the queue keeps the order, and the answers are the serial ones |
| DenoActor.ActorIsLinear | crates/langshell-deno/src/lib.rs:70-137 | any client's answer is the serial reply after exactly the commands sent before it, or worker-closed after a shutdown; once the worker is gone every command has its answer |
| DenoActor.AnsweredOnce | crates/langshell-deno/src/lib.rs:119-137 | an answer is never replaced |
| Sessions.Isolation | crates/langshell-monty/src/lib.rs:50-90 | serially, the state of a session depends only on the operations about it |
| Sessions.AnswerIsolation | crates/langshell-monty/src/lib.rs:50-90 | and so does every answer about it |
| Sessions.SerialKeepsKeys | crates/langshell-monty/src/lib.rs:50-90 | every stored session is stored under its own id |
| Sessions.RunExactly | crates/langshell-monty/src/lib.rs:58-90 | a run for another language or for validation only changes nothing; any other executes in the stored session, or in a new one, under the request's limits or else the backend's, with the request's timeout; the answer is the engine's, and the session goes on from there |
| Sessions.CreateAndDestroyExactly | crates/langshell-deno/src/lib.rs:305-316 | creating an existing session changes nothing, a new one has the given limits or else the backend's; destroying takes exactly that session away |
| Sessions.SnapshotExactly | crates/langshell-monty/src/lib.rs:138-168 | a snapshot carries the session's id, limits and dump with the backend's magic, version 2 and digest; a missing session is an error; the store stays |
| Sessions.RestoreExactly | crates/langshell-monty/src/lib.rs:170-214 | for every envelope: restored if and only if magic, version and digest are the backend's and the engine loads it; otherwise the first mismatch gives its error and nothing is stored |
| SnapshotGate.TransferExactly | crates/langshell-monty/src/lib.rs:190-195 | with a collision-free hash, a snapshot taken over one set of tools is restored over another if and only if the names of the tools are the same and the engine loads it |
| Sessions.SnapshotRestores | crates/langshell-monty/src/lib.rs:138-214 | a snapshot restored by its backend under any id, into any store, is the dumped session with its limits |
| Table.SessionTable.CreateSession | crates/langshell-deno/src/lib.rs:305-316 | creating is a serial step: an existing session stays, a failed creation stores nothing |
| Table.SessionTable.RunRequest | crates/langshell-deno/src/lib.rs:318-357 | removing, running and inserting a session amounts to an update in place, as the serial step says |
| Table.SessionTable.Checkout | crates/langshell-monty/src/lib.rs:77-85 | the stored session under the run's limits, or a new one; the entry is gone meanwhile |
| Table.SessionTable.DestroySession | crates/langshell-monty/src/lib.rs:121-123 | destroying is a serial step and tells whether there was a session |
| Table.SessionTable.ListSessions | crates/langshell-monty/src/lib.rs:125-136 | the ids in strictly ascending order, each once |
| Table.SessionTable.SnapshotSession | crates/langshell-monty/src/lib.rs:138-168 | a snapshot changes nothing; a missing session is an error |
| Table.SessionTable.RestoreSession | crates/langshell-monty/src/lib.rs:170-214 | restoring is the serial step of `Sessions.RestoreExactly` |
| Table.SessionTable.Handle | crates/langshell-deno/src/lib.rs:265-303 | every command is one serial step |
| MontyStore.AlwaysKeyed | crates/langshell-monty/src/lib.rs:77-90 | in every interleaving, overlapping or not, stored and checked-out sessions keep their own ids |
| MontyStore.CheckInPutsBack | crates/langshell-monty/src/lib.rs:86-90 | a run puts back exactly one session, its own, under its own key |
| MontyStore.SessionsAreIsolated | crates/langshell-monty/src/lib.rs:50-90 | if operations on one id do not overlap, then whatever happens to other ids every answer about it, and its state, is that of running only that id's operations serially; a cancelled run counts as a destruction |
| MontyStore.IsolatedExactly | crates/langshell-monty/src/lib.rs:77-90 | for an engine that counts, in every interleaving in which the id is only run: the stored session is the serial one, and counts all finished runs, if and only if no run began while another was in flight |
| MontyStore.SurvivesExactly | crates/langshell-monty/src/lib.rs:77-90 | once a run that did not overlap is over, its session is stored if and only if the run was not dropped before its check-in |
| MontyStore.CancelExample | crates/langshell-monty/src/lib.rs:77-90 | a dropped run takes with it the session that an earlier run had stored |
| MontyStore.ListOmitsBusy | crates/langshell-monty/src/lib.rs:125-136 | a listing shows exactly the sessions that are not in flight |
| MontyStore.OverlapLosesAnUpdate | crates/langshell-monty/src/lib.rs:77-90 | overlapping runs of one id fork the session and the last check-in wins |
| Facade.Build | crates/langshell/src/lib.rs:357-389 | succeeds exactly for a non-empty list of backends of distinct languages, and says which of the two is wrong |
| Facade.BuildShell | crates/langshell/src/lib.rs:357-389 | then the facade is valid, with every backend up and empty |
| Facade.MagicsDiffer | crates/langshell/src/lib.rs:132-138 | backends of different languages have different magics |
| Facade.LangShell.RunRequest | crates/langshell/src/lib.rs:21-32 | a run updates the cell of its language and id as the backend does, and no other |
| Facade.LangShell.CreateSession | crates/langshell/src/lib.rs:59-73 | as the backend of the language creates it; bad ids and missing languages change nothing |
| Facade.LangShell.ListSessions | crates/langshell/src/lib.rs:75-85 | extend, sort and dedup give the strictly ascending union over the backends that answer |
| Facade.LangShell.DestroySession | crates/langshell/src/lib.rs:87-97 | removes the id up to the first backend that fails, and tells whether any had it |
| Facade.LangShell.SnapshotSession | crates/langshell/src/lib.rs:99-113 | the first backend that does not answer "not found" decides |
| Facade.LangShell.RestoreSession | crates/langshell/src/lib.rs:126-153 | takes the first backend of the snapshot's magic, else a lone backend, and does what that backend does |
| Facade.RestoreExactly | crates/langshell/src/lib.rs:126-153 | the backend of the magic decides, sets one cell on success and none on failure; a foreign snapshot is refused |
| Facade.IndexOfExactly | crates/langshell/src/lib.rs:155-161 | the first runtime of the language, if any |
| Facade.ListingIsUnion | crates/langshell/src/lib.rs:75-85 | with every backend up, an id is listed exactly when some language has it |
| Facade.DestroyIsTotal | crates/langshell/src/lib.rs:87-97 | with every backend up, a destroyed id is gone from every language and nothing else changes |
| Facade.RestoreIsRouted | crates/langshell/src/lib.rs:99-138 | end to end: any snapshot the facade returned, restored now or later over the same backends, gives the session back to the language that made it, under the chosen id and with its limits, and changes no other cell; or its engine refuses the dump and nothing changes |
| Facade.FirstAnswerExactly | crates/langshell/src/lib.rs:104-113 | the first backend that says anything but "not found" decides, by success or by failure |
| Facade.NoAnswerExactly | crates/langshell/src/lib.rs:104-113 | if none does, the answer is the last "not found", or an error of the facade's own if there is no backend |
| Facade.BackendAnswers | crates/langshell-deno/src/lib.rs:359-370 | a backend that is down fails; one that is up says "not found" of what it does not have and takes a snapshot of what it has |
| Facade.FirstBackendWins | crates/langshell/src/lib.rs:104-111 | for an id in two languages, the backend registered first is snapshotted |
| Facade.DestroyStopsExactly | crates/langshell/src/lib.rs:87-97 | a destruction that meets a backend that is down has taken the id from those before it and from no others, and fails |
| Facade.OrphanExactly | crates/langshell/src/lib.rs:21-32 | a session that a run has opened is listed, and can be destroyed if and only if its id is valid |
| Facade.OrphanExample | crates/langshell/src/lib.rs:21-32 | a run opens "a b", which is then listed and cannot be destroyed |
| Registry.ToolRegistry.Register | crates/langshell-core/src/lib.rs:515-528 | refuses names that are no identifiers, else replaces the tool of that name and no other |
| Registry.ToHex | crates/langshell-core/src/lib.rs:569-577 | two lower-case digits per byte |
| Registry.HexAt | crates/langshell-core/src/lib.rs:569-577 | the digits of byte i are at 2i and 2i + 1, high digit first |
| Registry.HexInjective | crates/langshell-core/src/lib.rs:569-577 | different bytes have different digits |
| Registry.QuotedInjective | crates/langshell-core/src/lib.rs:558-562 | the JSON array of identifiers determines them; none needs escaping (section 7 of RFC 8259) |
| Registry.DigestIdentifiesNames | crates/langshell-monty/src/lib.rs:1135-1137 | two registries have the same digest exactly when they register the same names |
| Registry.DigestIsCanonical | crates/langshell-core/src/lib.rs:515-562 | over all sequences of registrations, order and repetition make no difference |
| Ordering.LessExactly | crates/langshell/src/lib.rs:82-82 | text is ordered by its first difference, and a proper prefix comes first |
| Ordering.ListingIsUnique | crates/langshell-core/src/lib.rs:537-546 | a set of names has one strictly ascending listing |
| Ordering.SortedKeys | crates/langshell-monty/src/lib.rs:125-136 | collecting and sorting the keys yields that listing |
| Ordering.Sort | crates/langshell/src/lib.rs:82-82 | sorted, and a permutation |
| Ordering.Dedup | crates/langshell/src/lib.rs:83-83 | on sorted input: strictly ascending, with the same elements |
| Discovery.RegisterDiscoveryTools | crates/langshell-tools/src/lib.rs:64-128 | each of the three tools captures the registry of its moment, extended as coded |
| Discovery.RegisterBuiltinTools | crates/langshell-tools/src/lib.rs:43-55 | file tools, then HTTP tools, then the discovery tools |
| Discovery.BuiltinsAgree | crates/langshell-tools/src/lib.rs:43-148 | over a registry without the three names: both listings and the domain and answers of `describe_tool` are exactly the final registry, without duplicates |
| Discovery.RegisteredLast | crates/langshell-core/src/lib.rs:515-527 | of several tools of one name the last registered counts |
| Discovery.HostToolsStay | crates/langshell-tools/src/lib.rs:43-55 | the built-in tools leave the host's other tools as they were |
| Discovery.ListToolsExactly | crates/langshell-tools/src/lib.rs:64-148 | `list_tools` agrees with the registry if and only if none of the three names was taken |
| Discovery.DescribeExactly | crates/langshell-tools/src/lib.rs:64-148 | `describe_tool` agrees if and only if no other tool held its name or that of `current_policy` |
| Discovery.PolicyExactly | crates/langshell-tools/src/lib.rs:64-148 | `current_policy` agrees if and only if its own name was free |
| Discovery.TakenNameExample | crates/langshell-tools/src/lib.rs:64-148 | a host tool named `current_policy` is listed twice, and described instead of the one that replaced it |
| Utf8.ScalarBits | crates/langshell-core/src/lib.rs:590-600 | the encoding of each scalar is that of section 3 of RFC 3629 |
| Utf8.BoundaryIsOffset | crates/langshell-core/src/lib.rs:590-600 | a byte boundary is the offset of a scalar (section 3 of RFC 3629) |
| Utf8.OffsetIsBoundary | crates/langshell-core/src/lib.rs:590-600 | and every offset of a scalar is a boundary |
| Utf8.FittingIsLongest | crates/langshell-core/src/lib.rs:590-600 | a prefix fits exactly when it is no longer than the fitting one |
| Utf8.TruncateUtf8 | crates/langshell-core/src/lib.rs:590-600 | what is kept encodes the longest prefix of the text that fits; at most three bytes are lost; the flag is set exactly when something was cut |
| Mounts.NormalizeExactly | crates/langshell-tools/src/lib.rs:344-353 | normalisation yields exactly the normal forms, fixes them and keeps the components |
| Mounts.MatchesExactly | crates/langshell-tools/src/lib.rs:369-372 | a mount matches exactly the paths whose parts start with its own; the root mount only "/" and "//..." |
| Mounts.MatchesNest | crates/langshell-tools/src/lib.rs:366-377 | of two mounts matching a path one lies within the other |
| Mounts.ChooseExactly | crates/langshell-tools/src/lib.rs:367-379 | the chosen mount is the longest match, the last registered among equals, and there is none exactly when nothing matches |
| Mounts.ParentExactly | crates/langshell-tools/src/lib.rs:425-441 | the parent of a missing candidate is found exactly when the entry one step up exists |
| Mounts.ResolveInExactly | crates/langshell-tools/src/lib.rs:410-442 | inside a mount root, resolution succeeds exactly when the place is usable |
| Mounts.ResolveExactly | crates/langshell-tools/src/lib.rs:355-443 | resolution succeeds exactly when the best mount authorizes the path (writes only through a writable one, no parent step), and yields the mount's host root followed by the rest of the path |
| Mounts.FileMountIsClosed | crates/langshell-tools/src/lib.rs:408-431 | the path of a mount whose host is a single file is always refused |
| Mounts.FileMountExample | crates/langshell-tools/src/lib.rs:408-431 | the host file /notes mounted under its own name |

## Left out

- MontyLoop.RunReplSnippet: takes a bound on its turns, because a program may run for ever; the theorems about runs have no bound.
- MontyRun.RunSession: the same bound, for each of its two snippets; when it is reached no answer is given.
- MontyStore.IsolatedExactly: necessity is about an engine that can tell how often it ran; one that ignores its state is isolated whatever overlaps.
- CodecTree.RoundTripExactly: values are null, booleans, finite numbers, strings, bigints, dates, byte arrays, Maps, Sets, arrays and plain objects; negative zero, NaN, getters, prototypes, class instances, sparse arrays and the order of object fields are not modelled.
- CodecTree.Untag: what BigInt, Date and Uint8Array make of payloads that the encoder does not write is a parameter.
- CodecSnapshot.SnapshotExactly: strings with lone surrogates, of which one makes the whole snapshot fail to parse, and nesting deep enough to overflow the script's stack are outside the model.
- Mounts.ResolveExactly: the host has no symbolic links, its paths are absolute, and a trailing slash of the returned path is not represented.
- DenoTimer.JoinIsBounded: bounds the steps of the timer thread; that the operating system schedules it is assumed.
- The Python VM, V8, the Python and TypeScript parsers, CBOR, SHA3 and the engines' text conversions are parameters.
- The static check of TypeScript code, source transpilation, the wrapping of user code and the mapping of script errors to codes are parameters.
- `Table.SessionTable` stands for the session maps of both backends; creating a Monty session cannot fail, which is the case of an engine whose `create` always succeeds.
- Poisoned mutexes, lost threads and out-of-memory conditions are not modelled.
- Error texts are abbreviated, and hints, spans, metrics, durations and the `snapshot_id` of a result are left out.
- `snapshot_session_with_language`, `validate`, session handles and the builder setters of the facade add only easy members.
- HTTP tools, the URL allowlist, the file tools' own reading and writing, and the command line are I/O.
