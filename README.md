# JSONTracingThread, modelled in Dafny

traceprinter runs a user's Java program under the Java Debug Interface and
prints one JSON document describing its execution. The event-handler thread
`JSONTracingThread` receives debugger events and turns them into that trace.
This project models the state machine inside that thread:

- **Step counter and tracked thread.** The first locatable event fixes the one
  thread the trace follows. A later locatable event on another thread is the
  fatal "Assumes one thread!" failure.
- **Bootstrap.** The first locatable event located in `NoopMain.java` while
  the counter is still 0 consumes one step and starts the input commander.
- **Admitting records.** At a reported location, with the counter below 256,
  each converted execution point is appended and counted. A point whose
  stack has at least 10 frames is followed by an "instruction_limit_reached"
  sentinel with message "<exceeded maximum visualizer stack size>". The
  point that brings the counter to 256 is followed by the sentinel with
  message "<ran for maximum execution time limit>". Either sentinel tells the
  debuggee to exit.
- **Single-step request.** After every event the step request held since the
  previous event is released. A new one, bound to the event's thread with
  count filter 1, is armed when the event wants a step.
- **Class preparation.** A prepared type is registered unless its name starts
  with "traceprinter.". It gets a breakpoint per line location unless its
  name starts with "traceprinter" and is not `traceprinter.shoelace.NoopMain`.
- **Draining.** After the queue reports a lost connection, the handler drains
  it, reacting only to death and disconnect events.
- **How a run ends.** A disconnect event, or a drain that meets one, ends
  the main loop and the document is printed. A locatable event on a second
  thread, or the queue failing again while drained, kills the thread
  instead, with nothing printed.
- **Final document.** The run ends by printing either a compile-error
  document at line 1, column 1, or the trace document.

Files:

- `trace.dfy` (module `Trace`): trace records, the two caps, the fold
  `Admitted` that says what admitting a list of records appends, and the
  final document.
- `events.dfy` (module `Events`): the events and event batches, the
  class-prepare name rules, the step rule, the thread tracking of a list of
  events (`TrackedAfter`, `Clash`), and the drain loop as a fold (`Drain`).
- `tracing_thread.dfy` (module `Tracer`): the main loop as two folds, one
  for how it ends (`MainEnd`) and one for the state it leaves (`MainState`,
  built on the per-event `AfterEvent`), and the class `JsonTracingThread`. The class holds the fields
  the thread updates, and its methods follow the Java methods loop for loop;
  the bodies of the two loops of `run` are the methods `HandleBatch` and
  `HandleAndRearm`.

The class invariant `Valid` ties the state together:

- the counter equals the bootstrap step plus the number of execution points;
- the trace is exactly `Admitted` applied to those points;
- the commander and the step request are bound to the tracked thread;
- the request manager holds exactly the one request the main loop holds;
- exit has been requested exactly when the trace holds a sentinel.

Debugger and converter results are inputs:

- A locatable event carries whether its location is reported.
- It carries whether its printed form mentions NoopMain.
- It carries the records the converter yields for it, each reduced to the
  size of its `stack_to_render`, or `None` when the conversion throws.
- The launch result of the commander is an input to `Run`.

Where the code and its documentation disagree, the model follows the code:

- Within one conversion result, records after a sentinel are still
  appended, because `vm.exit(0)` does not break the loop.
- The counter can therefore go past 256 (`Trace.RecordAfterTimeLimit`).
- An exception that `run` does not catch ends the thread without printing
  any document. This covers a second thread and a disconnection while
  draining.

## Model

| member | source | states |
|---|---|---|
| Trace.ChunkHasSentinel | cp/traceprinter/JSONTracingThread.java:187-200 | one record's pass appends a sentinel iff its stack is at the cap of 10 or its step reaches 256 |
| Trace.Chunk | cp/traceprinter/JSONTracingThread.java:185-200 | one record's pass appends the execution point first, then at most two sentinels, and nothing beyond the point iff the stack is below 10 and the step is not the 256th |
| Trace.Admitted | cp/traceprinter/JSONTracingThread.java:184-200 | the records of one event appended in order, each as its `Chunk`, the counter advancing by one per record (its properties are `PointsOfAdmitted`, `AdmittedAppend`, `AdmittedLength`) |
| Trace.PointsOfAdmitted | cp/traceprinter/JSONTracingThread.java:184-186 | removing the sentinels from what is appended gives back the converted records, in order and complete |
| Trace.AdmittedAppend | cp/traceprinter/JSONTracingThread.java:182-200 | admitting records in two events appends the same as admitting them together: the counter carries over |
| Trace.AdmittedLength | cp/traceprinter/JSONTracingThread.java:184-200 | one entry per record, plus one per record at the stack cap, plus one if the counter crosses 256 |
| Trace.SentinelIffLimit | cp/traceprinter/JSONTracingThread.java:187-200 | a sentinel is appended iff some record is at the stack cap or the counter crosses 256, i.e. iff `vm.exit` is called |
| Trace.HasSentinelMeans | cp/traceprinter/JSONTracingThread.java:190-198 | the count-based sentinel test used by the invariant holds iff some entry is a sentinel |
| Trace.TimeLimitOnce | cp/traceprinter/JSONTracingThread.java:176-199 | the time-limit sentinel is appended exactly once if the counter crosses 256 during the records, never otherwise |
| Trace.StackLimitCount | cp/traceprinter/JSONTracingThread.java:189-194 | exactly one stack-limit sentinel per record with a stack of 10 or more frames |
| Trace.StackLimitFollowsDeepPoint | cp/traceprinter/JSONTracingThread.java:185-194 | a stack-limit sentinel stands right after each record at the cap and nowhere else; the first entry is a record |
| Trace.TimeLimitAfterLastStep | cp/traceprinter/JSONTracingThread.java:186-200 | every time-limit sentinel has exactly the steps left below 256 as execution points before it: it comes after the record that reached the cap and before any later record |
| Trace.WithinLimitsNoSentinel | cp/traceprinter/JSONTracingThread.java:182-200 | below both caps only the records themselves are appended |
| Trace.RecordAfterTimeLimit | cp/traceprinter/JSONTracingThread.java:184-200 | two shallow records admitted with one step left give record, time-limit sentinel, record: the loop goes on after a sentinel |
| Trace.FinalDocument | cp/traceprinter/JSONTracingThread.java:138-144 | a failed launch gives a compile error with the launch's message at line 1, column 1; otherwise the trace document holds exactly the output; both carry the user's code |
| Trace.CompileErrorIgnoresRecords | cp/traceprinter/JSONTracingThread.java:139-140 | the compile-error document is the same whatever records were collected |
| Events.UserTypeRule | cp/traceprinter/JSONTracingThread.java:241-251 | a type outside any "traceprinter..." name is registered and gets breakpoints |
| Events.NoopMainRule | cp/traceprinter/JSONTracingThread.java:241-251 | the bootstrap class gets breakpoints but is not registered |
| Events.TracerTypeRule | cp/traceprinter/JSONTracingThread.java:241-245 | any other type of the tracer's package is neither registered nor given breakpoints |
| Events.BarePrefixRule | cp/traceprinter/JSONTracingThread.java:241-245 | a name starting with "traceprinter" but not "traceprinter." is registered yet gets no breakpoints |
| Events.Registers | cp/traceprinter/JSONTracingThread.java:241 | a prepared type is registered iff its name does not start with "traceprinter." |
| Events.InstallsBreakpoints | cp/traceprinter/JSONTracingThread.java:244 | a prepared type gets breakpoints iff its name does not start with "traceprinter" or is the bootstrap class |
| Events.WantsStep | cp/traceprinter/JSONTracingThread.java:116-119 | a new step request follows an event iff it is locatable and its location is reported or it mentions NoopMain |
| Events.Tracked | cp/traceprinter/JSONTracingThread.java:167-168 | a locatable event fixes the tracked thread to its own; other events leave it |
| Events.Clashes | cp/traceprinter/JSONTracingThread.java:170-171 | an event is fatal iff it is locatable and another thread is already tracked |
| Events.Drain | cp/traceprinter/JSONTracingThread.java:217-236 | when draining ends, the last batch consumed holds the disconnect and no earlier batch held one or failed; a crash means some batch failed |
| Events.DrainEndsAtDisconnect | cp/traceprinter/JSONTracingThread.java:219-229 | a batch holding a disconnect event, after batches that neither hold one nor fail, ends draining with that batch |
| Events.DrainCrashesAtFailure | cp/traceprinter/JSONTracingThread.java:219-232 | a failing queue after such clean batches crashes the drain loop, as nothing catches it |
| Events.DrainBlocksWhenClean | cp/traceprinter/JSONTracingThread.java:219-235 | without a disconnect event or a failure draining never ends |
| Events.DrainSkip | cp/traceprinter/JSONTracingThread.java:219-235 | batches without a disconnect or failure only push the end of draining further along |
| Events.Terminations | cp/traceprinter/JSONTracingThread.java:225-229 | the events kept are exactly the death and disconnect events |
| Events.DrainIgnoresOtherEvents | cp/traceprinter/JSONTracingThread.java:223-230 | removing every event other than death and disconnect from every batch does not change how draining ends |
| Events.TrackedAfterAppend | cp/traceprinter/JSONTracingThread.java:167-168 | tracking the thread over two lists of events in turn is tracking it over both |
| Events.ClashAppend | cp/traceprinter/JSONTracingThread.java:167-171 | two lists of events meet a second thread iff the first does or the second does with the thread the first leaves tracked |
| Events.ClashOfPrefix | cp/traceprinter/JSONTracingThread.java:170-171 | a second thread among the first events is a failure of the whole list |
| Events.OneThreadNoClash | cp/traceprinter/JSONTracingThread.java:167-171 | events all on one thread never fail the one-thread check, and leave that thread (or none) tracked |
| Tracer.MainEnd | cp/traceprinter/JSONTracingThread.java:103-137 | the main loop ends with the document only after a batch with a disconnect event or a failing queue, and dies of a second queue failure only after two of them |
| Tracer.MainState | cp/traceprinter/JSONTracingThread.java:103-137 | the state the main loop leaves when it ends with the document: every event set up to the one holding a disconnect event is handled by `AfterEvents`; an interrupted wait changes nothing; a failing queue ends the loop in the state it found, as draining handles no locatable event |
| Tracer.MainEndInterrupted | cp/traceprinter/JSONTracingThread.java:130-132 | an interrupted wait leaves how the loop ends, and the state it ends in, unchanged |
| Tracer.MainEndDisconnected | cp/traceprinter/JSONTracingThread.java:133-136 | a failing queue ends the loop as draining the following batches ends, in the state the failure found |
| Tracer.MainEndEventSet | cp/traceprinter/JSONTracingThread.java:105-129 | an event set kills the loop iff it meets a second thread; otherwise it ends the loop iff it holds a disconnect event, in the state `AfterEvents` gives, and else the loop goes on with the thread and the state the set leaves |
| Tracer.OneThreadRunSurvives | cp/traceprinter/JSONTracingThread.java:165-172 | a debuggee whose events are all on one thread never dies of "Assumes one thread!" |
| Tracer.IsBootstrap | cp/traceprinter/JSONTracingThread.java:175 | the bootstrap runs iff a locatable event is located in NoopMain.java while the counter is 0 |
| Tracer.AfterEvent | cp/traceprinter/JSONTracingThread.java:165-206 | the state one event leaves when it does not fail: a locatable event tracks its thread, runs the bootstrap when due, and appends `Admitted` of its records, requesting exit iff one is deep or the counter crosses 256; any other event leaves the state alone |
| Tracer.AfterEvents | cp/traceprinter/JSONTracingThread.java:108-128 | the state a list of events leaves, handled in order by `AfterEvent` |
| Tracer.AfterEventsAppend | cp/traceprinter/JSONTracingThread.java:108-128 | handling two lists of events in turn leaves the same state as handling both |
| Tracer.AfterEventsGrows | cp/traceprinter/JSONTracingThread.java:108-128 | handling events never shortens the trace nor lowers the counter, and tracks the thread `TrackedAfter` gives |
| Tracer.MainStateGrows | cp/traceprinter/JSONTracingThread.java:103-137 | over a whole run the trace only grows and the counter never drops |
| Tracer.Without | cp/traceprinter/JSONTracingThread.java:113 | deleting a request leaves exactly the other requests |
| Tracer.AdmittedStacks | cp/traceprinter/JSONTracingThread.java:182-184 | records are admitted only for a locatable event at a reported location while the counter is below 256 |
| Tracer.JsonTracingThread.constructor | cp/traceprinter/JSONTracingThread.java:38-55 | connected, counter 0, no thread, empty trace, no request, no exit; the invariant holds |
| Tracer.JsonTracingThread.VmDisconnectEvent | cp/traceprinter/JSONTracingThread.java:262-264 | a disconnect event clears `connected` |
| Tracer.JsonTracingThread.ClassPrepareEvent | cp/traceprinter/JSONTracingThread.java:238-256 | registers the type iff `Registers`; appends one breakpoint per line iff `InstallsBreakpoints` and line information exists, none otherwise |
| Tracer.JsonTracingThread.AppendRecord | cp/traceprinter/JSONTracingThread.java:185-200 | appends the record and its sentinels, counts one step, and requests exit iff the stack is at the cap or the counter reaches 256 |
| Tracer.JsonTracingThread.AppendConverted | cp/traceprinter/JSONTracingThread.java:184-201 | the loop appends `Admitted` of the records, counts one step per record, and requests exit iff a record is deep or the counter crosses 256 |
| Tracer.JsonTracingThread.AdmitConverted | cp/traceprinter/JSONTracingThread.java:182-206 | admitting records keeps the invariant; the records join the execution points |
| Tracer.JsonTracingThread.Bootstrap | cp/traceprinter/JSONTracingThread.java:175-179 | at counter 0 the bootstrap moves the counter to 1 and binds the commander to the tracked thread, keeping the invariant |
| Tracer.JsonTracingThread.AdmitEvent | cp/traceprinter/JSONTracingThread.java:182-206 | appends exactly what `AdmittedStacks` allows; a conversion that throws appends nothing |
| Tracer.JsonTracingThread.LocatableEvent | cp/traceprinter/JSONTracingThread.java:165-206 | succeeds iff no other thread is tracked, and then fixes the thread, runs the bootstrap at most once (counter 0 only), and admits the records; a failure changes nothing |
| Tracer.JsonTracingThread.HandleEvent | cp/traceprinter/JSONTracingThread.java:156-209 | dispatches by kind; fails iff a locatable event is on a second thread, and otherwise tracks the event's thread; never shortens the trace or lowers the counter; a tracked thread and a started commander stay |
| Tracer.JsonTracingThread.ReleaseAndRearm | cp/traceprinter/JSONTracingThread.java:109-127 | the old request is deleted; a new one on the event's thread with count filter 1 is held iff the event wants a step, and the manager holds exactly that one |
| Tracer.JsonTracingThread.HandleAndRearm | cp/traceprinter/JSONTracingThread.java:108-127 | fails iff the event is on a second thread; otherwise the thread is tracked, a disconnect event clears `connected`, the request held is the one the event calls for, and thread, counter, commander, trace and exit flag are `AfterEvent` of the old ones; a prepared type is registered and given breakpoints as `ClassPrepareEvent` says |
| Tracer.JsonTracingThread.HandleDisconnectedException | cp/traceprinter/JSONTracingThread.java:217-236 | the nested loops end as the fold `Drain` says; `connected` is cleared iff a disconnect was drained |
| Tracer.JsonTracingThread.HandleEventSet | cp/traceprinter/JSONTracingThread.java:106-128 | fails iff the set meets a second thread (`Clash`), the failure never swallowed; otherwise the thread is tracked on, `connected` is cleared iff the set holds a disconnect event, the request held is the one the last event called for, and the state is `AfterEvents` of the old one |
| Tracer.JsonTracingThread.HandleBatch | cp/traceprinter/JSONTracingThread.java:104-136 | one pass of the main loop: it dies or waits exactly when `MainEnd` says the run does at this batch, and otherwise leaves the rest of the run to end as `MainEnd` and `MainState` of the remaining batches say, or ends it disconnected in the state `MainState` gives |
| Tracer.JsonTracingThread.Run | cp/traceprinter/JSONTracingThread.java:99-152 | the run ends as `MainEnd` of the batches says: it prints only once disconnected, and then prints `FinalDocument` of the trace, which is the one `MainState` of the batches gives; it dies of a second thread or a second queue failure; the invariant holds and the trace only grows |
| Tracer.JsonTracingThread.TraceLimits | cp/traceprinter/JSONTracingThread.java:45-200 | in every reachable state the time-limit sentinel occurs once iff the counter has reached 256, right after the last step; one stack-limit sentinel follows each deep record; at most one step request exists |

## Left out

- JDI itself is not part of this model: the virtual machine, the event queue, the request manager, `eventSet.resume()` and `vm.exit(0)`. Exit is the flag `exitRequested`; enabling and disabling a request are not modelled. A request keeps only its thread and count filter, not its size and depth constants.
- `setEventRequests` (lines 69-97) is left out. It only configures library request objects with the four exclusion globs.
- The converter `JDI2JSON` is not part of this model: `convertExecutionPoint`, `reportEventsAtLocation`, `staticListable` and the JSON builders. The reportable flag and the stack sizes of the converted records are inputs carried by each event. The registry `staticListable` is stood in for by the class field `registered`, the list of type names a class preparation adds to.
- A converted record without a `stack_to_render` array would throw after being appended and counted. The model assumes every record has one.
- A `RuntimeException` inside the conversion is modelled only when it is thrown before any record is appended (`converted: None`). Its logging is left out.
- `ev.toString().contains("NoopMain")` is the flag `mentionsNoopMain` of a locatable event. Other events never carry it: their printed form names a thread, not a class.
- `VMCommander` start-up and the threads it runs are left out. The commander is reduced to the thread it is bound to. Its launch result is an input to `Run`, assumed present at shutdown, although `vmc` can be null at line 139.
- Printing the document (UTF-8 stream and fallback) and logging an `InterruptedException` are I/O. `Run` returns the document instead.
- The `vmDied` flag is set but never read; a death event changes nothing in the model.
- A `VMDisconnectedException` is modelled only as thrown by `queue.remove()`, as a batch of its own. Other JDI calls that could throw it are left out.
- The event queue is a finite list of batches. When it runs out while still connected, the real thread would block; the model returns `Waiting`.
- Tracer.JsonTracingThread.HandleEventSet: after a failure it states only the invariant, that the trace only grows and that the thread stays, not which events before the failing one were handled, since the thread then dies. `HandleBatch` and `Run` likewise state only the invariant and growth for a run that dies or is left waiting on an empty queue.
- The `break` after draining is not a statement of its own: draining to the end clears `connected`, which ends the loop at the same point.
- The sentinel records are `Sentinel(StackSize)` and `Sentinel(ExecutionTime)`; their JSON text (`exception_msg` from `ExceptionMsg`, `event` "instruction_limit_reached") is documented, not built, since the JSON builders are left out.
