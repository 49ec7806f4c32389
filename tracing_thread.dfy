/** The event-handler thread: the state it keeps while the debuggee runs, the
    handling of one event, the release and re-arming of the single-step
    request after each event, the drain loop after a lost connection, and the
    main loop that ends by printing one document. */
module Tracer {
  import opened Trace
  import opened Events

  /** A single-step request (smallest step, stepping into calls) bound to a
      thread and limited by a count filter. */
  datatype StepRequest = StepRequest(thread: ThreadId, countFilter: nat)

  /** A breakpoint request on one line of a prepared type. */
  datatype Breakpoint = Breakpoint(typeName: string, line: nat)

  /** The exceptions that nothing in the thread catches: a second thread, and
      the queue failing again while it is being drained. */
  datatype Fault = OneThreadViolated | DisconnectedWhileDraining

  /** How a run ends: one document printed, the thread dead of an uncaught
      exception, or still waiting on the queue when the given batches end. */
  datatype RunOutcome = Printed(doc: Document) | Died(fault: Fault) | Waiting

  /** How the main loop ends, apart from the document it prints. */
  datatype LoopEnd = Finished | Failed(fault: Fault) | Starved

  function Ending(outcome: RunOutcome): LoopEnd
  {
    match outcome
    case Printed(_) => Finished
    case Died(fault) => Failed(fault)
    case Waiting => Starved
  }

  /** The request the main loop holds after handling an event. */
  function RequestAfter(ev: Event): Option<StepRequest>
  {
    if WantsStep(ev) then Some(StepRequest(ev.thread, 1)) else None
  }

  /** The main loop as a fold over the batches it receives while connected,
      the thread `t` being tracked: an event set with a second thread kills
      it; an event set with a disconnect event ends it; a failing queue hands
      over to the drain loop, which ends it, kills it or waits; it waits
      when the batches run out. */
  function MainEnd(t: Option<ThreadId>, bs: seq<Batch>): (r: LoopEnd)
    ensures r == Finished ==> exists j :: 0 <= j < |bs| && (bs[j].Disconnected? || HasDisconnect(bs[j]))
    ensures r == Failed(DisconnectedWhileDraining) ==>
              exists j, j' :: 0 <= j < j' < |bs| && bs[j].Disconnected? && bs[j'].Disconnected?
    decreases |bs|
  {
    if bs == [] then Starved
    else match bs[0]
      case Interrupted => MainEnd(t, bs[1..])
      case Disconnected =>
        (match Drain(bs[1..])
         case Drained(_) => Finished
         case Crashed => Failed(DisconnectedWhileDraining)
         case Blocked => Starved)
      case EventSet(evs) =>
        if Clash(t, evs) then Failed(OneThreadViolated)
        else if VMDisconnect in evs then Finished
        else MainEnd(TrackedAfter(t, evs), bs[1..])
  }

  /** The part of the thread's state that handling events changes, besides
      the connection, the step request and the class-prepare effects. */
  datatype Snapshot = Snapshot(thread: Option<ThreadId>, steps: nat, commander: Option<ThreadId>,
                               output: seq<Record>, exitRequested: bool)

  /** The state after one event handled without failure: a locatable event
      fixes the thread, runs the bootstrap when it is due, and admits its
      records; any other event leaves this state alone. */
  function AfterEvent(s: Snapshot, ev: Event): Snapshot
  {
    if !ev.Locatable? then s
    else
      var boot := IsBootstrap(ev, s.steps);
      var n := s.steps + (if boot then 1 else 0);
      var stacks := AdmittedStacks(ev, n);
      Snapshot(Some(ev.thread), n + |stacks|, if boot then Some(ev.thread) else s.commander,
               s.output + Admitted(n, stacks),
               s.exitRequested || DeepCount(stacks) > 0 || n < MAX_STEPS <= n + |stacks|)
  }

  /** The state after a list of events handled in order. */
  function AfterEvents(s: Snapshot, evs: seq<Event>): Snapshot
    decreases |evs|
  {
    if evs == [] then s else AfterEvents(AfterEvent(s, evs[0]), evs[1..])
  }

  lemma {:induction false} AfterEventsAppend(s: Snapshot, p: seq<Event>, q: seq<Event>)
    ensures AfterEvents(s, p + q) == AfterEvents(AfterEvents(s, p), q)
    decreases |p|
  {
    if p == [] {
      assert p + q == q;
    } else {
      assert (p + q)[0] == p[0];
      assert (p + q)[1..] == p[1..] + q;
      AfterEventsAppend(AfterEvent(s, p[0]), p[1..], q);
    }
  }

  lemma AfterEventsSnoc(s: Snapshot, evs: seq<Event>, k: nat)
    requires k < |evs|
    ensures AfterEvents(s, evs[..k + 1]) == AfterEvent(AfterEvents(s, evs[..k]), evs[k])
  {
    assert evs[..k + 1] == evs[..k] + [evs[k]];
    AfterEventsAppend(s, evs[..k], [evs[k]]);
    assert [evs[k]][1..] == [];
  }

  /** Handling events never shortens the trace nor lowers the counter, and
      the thread tracked is the one `TrackedAfter` gives. */
  lemma {:induction false} AfterEventsGrows(s: Snapshot, evs: seq<Event>)
    ensures s.output <= AfterEvents(s, evs).output
    ensures s.steps <= AfterEvents(s, evs).steps
    ensures AfterEvents(s, evs).thread == TrackedAfter(s.thread, evs)
    decreases |evs|
  {
    if evs != [] {
      AfterEventsGrows(AfterEvent(s, evs[0]), evs[1..]);
    }
  }

  /** The state the main loop leaves when it ends with the document, as a
      fold over the batches in step with `MainEnd`. */
  function MainState(s: Snapshot, bs: seq<Batch>): Snapshot
    decreases |bs|
  {
    if bs == [] then s
    else match bs[0]
      case Interrupted => MainState(s, bs[1..])
      case Disconnected => s
      case EventSet(evs) =>
        if VMDisconnect in evs then AfterEvents(s, evs)
        else MainState(AfterEvents(s, evs), bs[1..])
  }

  /** Over a whole run the trace only grows and the counter never drops. */
  lemma {:induction false} MainStateGrows(s: Snapshot, bs: seq<Batch>)
    ensures s.output <= MainState(s, bs).output
    ensures s.steps <= MainState(s, bs).steps
    decreases |bs|
  {
    if bs != [] {
      match bs[0]
      case Interrupted =>
        MainStateGrows(s, bs[1..]);
      case Disconnected =>
      case EventSet(evs) =>
        AfterEventsGrows(s, evs);
        MainStateGrows(AfterEvents(s, evs), bs[1..]);
    }
  }

  /** The main loop reaching batch `i`: an interrupted wait changes nothing. */
  lemma MainEndInterrupted(t: Option<ThreadId>, s: Snapshot, bs: seq<Batch>, i: nat)
    requires i < |bs| && bs[i].Interrupted?
    ensures MainEnd(t, bs[i..]) == MainEnd(t, bs[i + 1..])
    ensures MainState(s, bs[i..]) == MainState(s, bs[i + 1..])
  {
    assert bs[i..][1..] == bs[i + 1..];
  }

  /** A failing queue hands the rest of the batches to the drain loop. */
  lemma MainEndDisconnected(t: Option<ThreadId>, s: Snapshot, bs: seq<Batch>, i: nat)
    requires i < |bs| && bs[i].Disconnected?
    ensures MainState(s, bs[i..]) == s
    ensures MainEnd(t, bs[i..]) == match Drain(bs[i + 1..])
                                   case Drained(_) => Finished
                                   case Crashed => Failed(DisconnectedWhileDraining)
                                   case Blocked => Starved
  {
    assert bs[i..][1..] == bs[i + 1..];
  }

  /** An event set without a second thread goes on with the thread it leaves
      tracked, unless it holds a disconnect event. */
  lemma MainEndEventSet(t: Option<ThreadId>, s: Snapshot, bs: seq<Batch>, i: nat)
    requires i < |bs| && bs[i].EventSet?
    ensures VMDisconnect in bs[i].events ==> MainState(s, bs[i..]) == AfterEvents(s, bs[i].events)
    ensures VMDisconnect !in bs[i].events ==>
              MainState(s, bs[i..]) == MainState(AfterEvents(s, bs[i].events), bs[i + 1..])
    ensures Clash(t, bs[i].events) ==> MainEnd(t, bs[i..]) == Failed(OneThreadViolated)
    ensures !Clash(t, bs[i].events) && VMDisconnect in bs[i].events ==> MainEnd(t, bs[i..]) == Finished
    ensures !Clash(t, bs[i].events) && VMDisconnect !in bs[i].events ==>
              MainEnd(t, bs[i..]) == MainEnd(TrackedAfter(t, bs[i].events), bs[i + 1..])
  {
    assert bs[i..][0] == bs[i];
    assert bs[i..][1..] == bs[i + 1..];
  }

  /** Whether every locatable event of the batches is on thread `th`. */
  ghost predicate OnOneThread(bs: seq<Batch>, th: ThreadId)
  {
    forall j, i :: 0 <= j < |bs| && bs[j].EventSet? && 0 <= i < |bs[j].events| && bs[j].events[i].Locatable?
      ==> bs[j].events[i].thread == th
  }

  /** A debuggee whose events all happen on one thread never dies of the
      "Assumes one thread!" failure. */
  lemma {:induction false} OneThreadRunSurvives(t: Option<ThreadId>, th: ThreadId, bs: seq<Batch>)
    requires t == None || t == Some(th)
    requires OnOneThread(bs, th)
    ensures MainEnd(t, bs) != Failed(OneThreadViolated)
    decreases |bs|
  {
    if bs != [] {
      assert OnOneThread(bs[1..], th) by {
        forall j, i | 0 <= j < |bs[1..]| && bs[1..][j].EventSet? && 0 <= i < |bs[1..][j].events| && bs[1..][j].events[i].Locatable?
          ensures bs[1..][j].events[i].thread == th
        {
          assert bs[1..][j] == bs[j + 1];
        }
      }
      match bs[0]
      case Interrupted =>
        OneThreadRunSurvives(t, th, bs[1..]);
      case Disconnected =>
      case EventSet(evs) =>
        assert forall i :: 0 <= i < |evs| && evs[i].Locatable? ==> evs[i].thread == th by {
          assert bs[0] == EventSet(evs);
        }
        OneThreadNoClash(t, th, evs);
        OneThreadRunSurvives(TrackedAfter(t, evs), th, bs[1..]);
    }
  }

  /** One breakpoint per line location, in order. */
  function BreakpointsAt(typeName: string, lines: seq<nat>): seq<Breakpoint>
  {
    seq(|lines|, i requires 0 <= i < |lines| => Breakpoint(typeName, lines[i]))
  }

  /** The breakpoints a class-prepare event installs. */
  function PreparedBreakpoints(typeName: string, lineLocations: LineTable): seq<Breakpoint>
  {
    if InstallsBreakpoints(typeName) && lineLocations.Some?
    then BreakpointsAt(typeName, lineLocations.value)
    else []
  }

  /** The request manager's list of step requests once one is deleted. */
  function Without(rs: seq<StepRequest>, r: StepRequest): (out: seq<StepRequest>)
    ensures forall x :: x in out <==> x in rs && x != r
  {
    if rs == [] then []
    else (if rs[0] == r then [] else [rs[0]]) + Without(rs[1..], r)
  }

  /** Whether a locatable event hits the bootstrap: its source is NoopMain.java
      and no step has been counted yet. */
  predicate IsBootstrap(ev: Event, steps: nat)
  {
    ev.Locatable? && ev.sourceName == Some(NOOP_MAIN_SOURCE) && steps == 0
  }

  /** The stack sizes of the records admitted for an event, the counter
      standing at `steps` after the bootstrap check: all converted records
      when the event is locatable, its location is reported and the counter
      is below the cap; none otherwise, and none when the conversion throws. */
  function AdmittedStacks(ev: Event, steps: nat): (stacks: seq<nat>)
    ensures stacks != [] ==> ev.Locatable? && steps < MAX_STEPS && ev.reportable
  {
    if ev.Locatable? && steps < MAX_STEPS && ev.reportable && ev.converted.Some?
    then ev.converted.value
    else []
  }

  class JsonTracingThread {
    const usercode: string
    /** Cleared by a disconnect event. */
    var connected: bool
    var steps: nat
    /** The one thread the trace follows, fixed by the first locatable event. */
    var theThread: Option<ThreadId>
    /** The trace array, only ever appended to. */
    var output: seq<Record>
    /** The thread the input-feeding commander was started on, once started. */
    var commander: Option<ThreadId>
    /** The step request the main loop holds between two events. */
    var request: Option<StepRequest>
    /** The step requests the request manager holds. */
    var stepRequests: seq<StepRequest>
    /** The converter's registry of prepared types. */
    var registered: seq<string>
    /** The breakpoint requests installed. */
    var breakpoints: seq<Breakpoint>
    /** Whether the debuggee has been told to exit. */
    var exitRequested: bool
    /** The stack sizes of the execution points in the trace, in order. */
    ghost var points: seq<nat>

    /** The fields that handling events changes, as one value. */
    function State(): Snapshot
      reads this
    {
      Snapshot(theThread, steps, commander, output, exitRequested)
    }

    /** The step the bootstrap consumed, if it happened. */
    ghost function Base(): nat
      reads this
    {
      if commander.Some? then 1 else 0
    }

    /** The object invariant: the counter is the bootstrap step plus one per
        execution point in the trace; the trace is what admitting those
        points appends; the commander and the step request are bound to the
        tracked thread; the manager holds exactly the request the loop holds;
        and an exit was requested exactly when a sentinel was appended. */
    ghost predicate Valid()
      reads this
    {
      steps == Base() + |points|
      && output == Admitted(Base(), points)
      && (commander.Some? ==> theThread == commander)
      && (request.Some? ==> theThread.Some? && request.value == StepRequest(theThread.value, 1))
      && stepRequests == (if request.Some? then [request.value] else [])
      && (exitRequested <==> HasSentinel(output))
    }

    constructor (usercode: string)
      ensures Valid()
      ensures this.usercode == usercode && connected && steps == 0
      ensures theThread == None && output == [] && commander == None
      ensures request == None && stepRequests == []
      ensures registered == [] && breakpoints == [] && !exitRequested
    {
      this.usercode := usercode;
      connected := true;
      steps := 0;
      theThread := None;
      output := [];
      commander := None;
      request := None;
      stepRequests := [];
      registered := [];
      breakpoints := [];
      exitRequested := false;
      points := [];
    }

    method VmDisconnectEvent()
      modifies this`connected
      ensures !connected
    {
      connected := false;
    }

    /** Registers the prepared type and installs its breakpoints, as the
        name-prefix rules decide; a type without line information gets none. */
    method ClassPrepareEvent(typeName: string, lineLocations: LineTable)
      modifies this`registered, this`breakpoints
      ensures registered == old(registered) + (if Registers(typeName) then [typeName] else [])
      ensures breakpoints == old(breakpoints) + PreparedBreakpoints(typeName, lineLocations)
    {
      if !(TRACER_PACKAGE <= typeName) {
        registered := registered + [typeName];
      }
      if TRACER_PREFIX <= typeName && typeName != NOOP_MAIN {
        return;
      }
      match lineLocations
      case None =>
        // no line information: reported, not fatal
      case Some(lines) =>
        for k := 0 to |lines|
          invariant registered == old(registered) + (if Registers(typeName) then [typeName] else [])
          invariant breakpoints == old(breakpoints) + BreakpointsAt(typeName, lines[..k])
        {
          assert lines[..k + 1] == lines[..k] + [lines[k]];
          breakpoints := breakpoints + [Breakpoint(typeName, lines[k])];
        }
        assert lines[..|lines|] == lines;
    }

    /** Appends one converted record, followed by the sentinels its stack
        size and the new counter call for; the debuggee is told to exit when
        the record is at the stack cap or the counter reaches the step cap. */
    method AppendRecord(stackSize: nat)
      modifies this`output, this`steps, this`exitRequested
      ensures output == old(output) + Chunk(old(steps) + 1, stackSize)
      ensures steps == old(steps) + 1
      ensures exitRequested == (old(exitRequested) || stackSize >= MAX_STACK_SIZE || steps == MAX_STEPS)
    {
      output := output + [Point(stackSize)];
      steps := steps + 1;
      if stackSize >= MAX_STACK_SIZE {
        output := output + [StackLimit];
        exitRequested := true;
      }
      if steps == MAX_STEPS {
        output := output + [TimeLimit];
        exitRequested := true;
      }
    }

    /** Appends the converted records in order. */
    method AppendConverted(stacks: seq<nat>)
      modifies this`output, this`steps, this`exitRequested
      ensures output == old(output) + Admitted(old(steps), stacks)
      ensures steps == old(steps) + |stacks|
      ensures exitRequested == (old(exitRequested) || DeepCount(stacks) > 0 || old(steps) < MAX_STEPS <= steps)
    {
      for k := 0 to |stacks|
        invariant output == old(output) + Admitted(old(steps), stacks[..k])
        invariant steps == old(steps) + k
        invariant exitRequested == (old(exitRequested) || DeepCount(stacks[..k]) > 0 || old(steps) < MAX_STEPS <= steps)
      {
        AdmittedSnoc(old(steps), stacks, k);
        DeepCountSnoc(stacks[..k], stacks[k]);
        assert stacks[..k + 1] == stacks[..k] + [stacks[k]];
        AppendRecord(stacks[k]);
      }
      assert stacks[..|stacks|] == stacks;
    }

    /** The admission of converted records keeps the object invariant, the
        records' stack sizes joining the execution points. */
    method AdmitConverted(stacks: seq<nat>)
      requires Valid()
      modifies this`output, this`steps, this`exitRequested, this`points
      ensures Valid()
      ensures points == old(points) + stacks
      ensures output == old(output) + Admitted(old(steps), stacks)
      ensures steps == old(steps) + |stacks|
      ensures exitRequested == (old(exitRequested) || DeepCount(stacks) > 0 || old(steps) < MAX_STEPS <= steps)
    {
      AppendConverted(stacks);
      points := points + stacks;
      AdmittedAppend(Base(), old(points), stacks);
      HasSentinelAppend(old(output), Admitted(old(steps), stacks));
      SentinelIffLimit(old(steps), stacks);
    }

    /** Handles one event: dispatches on its kind, then treats a locatable
        event. A locatable event on a thread other than the tracked one is the
        fatal "Assumes one thread!" failure: the result is false and nothing
        has changed. */
    method HandleEvent(ev: Event) returns (ok: bool)
      requires Valid()
      modifies this
      ensures Valid()
      ensures ok <==> !Clashes(old(theThread), ev)
      ensures ok ==> theThread == Tracked(old(theThread), ev)
      ensures !ok ==> unchanged(this)
      ensures !ev.Locatable? ==>
                theThread == old(theThread) && commander == old(commander)
                && steps == old(steps) && output == old(output) && exitRequested == old(exitRequested)
      ensures connected == (old(connected) && !ev.VMDisconnect?)
      ensures registered == old(registered) + (if ev.ClassPrepare? && Registers(ev.typeName) then [ev.typeName] else [])
      ensures breakpoints == old(breakpoints) + (if ev.ClassPrepare? then PreparedBreakpoints(ev.typeName, ev.lineLocations) else [])
      ensures request == old(request) && stepRequests == old(stepRequests)
      ensures ok && ev.Locatable? ==> LocatableHandled(ev, old(steps), old(commander), old(output), old(exitRequested))
      ensures old(output) <= output && old(steps) <= steps
      ensures old(theThread).Some? ==> theThread == old(theThread)
      ensures old(commander).Some? ==> commander == old(commander)
    {
      ok := true;
      match ev
      case ClassPrepare(typeName, lineLocations) =>
        ClassPrepareEvent(typeName, lineLocations);
      case VMDeath =>
        // only sets a flag that is never read
      case VMDisconnect =>
        VmDisconnectEvent();
      case ThreadDeath(_) =>
      case Locatable(_, _, _, _, _) =>
        ok := LocatableEvent(ev);
    }

    /** The state after a locatable event on the tracked thread: the thread is
        fixed; the bootstrap, when hit, consumes one step and starts the
        commander on that thread; then the admitted records are appended. */
    ghost predicate LocatableHandled(ev: Event, steps0: nat, commander0: Option<ThreadId>,
                                     output0: seq<Record>, exit0: bool)
      reads this
      requires ev.Locatable?
    {
      var s := steps0 + (if IsBootstrap(ev, steps0) then 1 else 0);
      var stacks := AdmittedStacks(ev, s);
      theThread == Some(ev.thread)
      && commander == (if IsBootstrap(ev, steps0) then Some(ev.thread) else commander0)
      && steps == s + |stacks|
      && output == output0 + Admitted(s, stacks)
      && exitRequested == (exit0 || DeepCount(stacks) > 0 || s < MAX_STEPS <= s + |stacks|)
    }

    method LocatableEvent(ev: Event) returns (ok: bool)
      requires Valid() && ev.Locatable?
      modifies this`theThread, this`steps, this`commander, this`output, this`exitRequested, this`points
      ensures Valid()
      ensures ok <==> !(old(theThread).Some? && old(theThread).value != ev.thread)
      ensures !ok ==> unchanged(this)
      ensures ok ==> LocatableHandled(ev, old(steps), old(commander), old(output), old(exitRequested))
    {
      if theThread == None {
        theThread := Some(ev.thread);
      } else if theThread.value != ev.thread {
        return false;
      }
      ok := true;
      if ev.sourceName == Some(NOOP_MAIN_SOURCE) && steps == 0 {
        Bootstrap();
      }
      AdmitEvent(ev);
    }

    /** The bootstrap breakpoint in NoopMain: it consumes the first step and
        starts the commander on the tracked thread. */
    method Bootstrap()
      requires Valid() && steps == 0 && theThread.Some?
      modifies this`steps, this`commander
      ensures Valid()
      ensures steps == 1 && commander == theThread
    {
      steps := steps + 1;
      commander := Some(theThread.value);
    }

    /** Appends the records converted for a locatable event, when its location
        is reported and the counter is below the step cap; a conversion that
        throws appends nothing. */
    method AdmitEvent(ev: Event)
      requires Valid() && ev.Locatable?
      modifies this`output, this`steps, this`exitRequested, this`points
      ensures Valid()
      ensures steps == old(steps) + |AdmittedStacks(ev, old(steps))|
      ensures output == old(output) + Admitted(old(steps), AdmittedStacks(ev, old(steps)))
      ensures exitRequested == (old(exitRequested) || DeepCount(AdmittedStacks(ev, old(steps))) > 0
                                || old(steps) < MAX_STEPS <= steps)
    {
      if steps < MAX_STEPS && ev.reportable {
        match ev.converted
        case None =>
          // the conversion threw: logged, nothing appended
          assert Admitted(steps, []) == [];
        case Some(stacks) =>
          AdmitConverted(stacks);
      } else {
        assert Admitted(steps, []) == [];
      }
    }

    /** After an event, releases the step request held since the previous
        event (disabled, then deleted from the manager) and arms a new one,
        bound to the event's thread with count filter 1, when the event wants
        a step. The manager never holds more than one. */
    method ReleaseAndRearm(ev: Event)
      requires Valid()
      requires ev.Locatable? ==> theThread == Some(ev.thread)
      modifies this`request, this`stepRequests
      ensures Valid()
      ensures request == RequestAfter(ev)
    {
      if request.Some? {
        stepRequests := Without(stepRequests, request.value);
        request := None;
        if stepRequests != [] {
          assert stepRequests[0] in stepRequests;
        }
      }
      if WantsStep(ev) {
        var r := StepRequest(ev.thread, 1);
        stepRequests := stepRequests + [r];
        request := Some(r);
      }
    }

    /** Drains the queue after the connection was found lost, reacting only to
        death and disconnect events, until disconnected. */
    method HandleDisconnectedException(bs: seq<Batch>) returns (r: DrainResult)
      requires connected
      modifies this`connected
      ensures r == Drain(bs)
      ensures connected <==> !r.Drained?
    {
      var i := 0;
      while connected
        invariant 0 <= i <= |bs|
        invariant connected ==> forall j :: 0 <= j < i ==> !bs[j].Disconnected? && !HasDisconnect(bs[j])
        invariant !connected ==>
                    0 < i && HasDisconnect(bs[i - 1])
                    && forall j :: 0 <= j < i - 1 ==> !bs[j].Disconnected? && !HasDisconnect(bs[j])
        decreases |bs| - i
      {
        if i == |bs| {
          // the queue never yields again
          DrainSkip(bs, i);
          return Blocked;
        }
        match bs[i] {
        case Disconnected =>
          // thrown again by the queue, and not caught here
          DrainSkip(bs, i);
          return Crashed;
        case Interrupted =>
        case EventSet(evs) =>
          var k := 0;
          while k < |evs|
            invariant 0 <= k <= |evs|
            invariant connected <==> VMDisconnect !in evs[..k]
          {
            assert evs[..k + 1] == evs[..k] + [evs[k]];
            if evs[k].VMDeath? {
              // only sets a flag that is never read
            } else if evs[k].VMDisconnect? {
              VmDisconnectEvent();
            }
            k := k + 1;
          }
          assert evs[..k] == evs;
        }
        i := i + 1;
      }
      DrainSkip(bs, i - 1);
      r := Drained(i);
    }

    /** One pass of the loop over an event set: the event is handled, then
        the step request released and re-armed. */
    method HandleAndRearm(ev: Event) returns (ok: bool)
      requires Valid()
      modifies this
      ensures Valid()
      ensures ok <==> !Clashes(old(theThread), ev)
      ensures ok ==> theThread == Tracked(old(theThread), ev)
      ensures ok ==> connected == (old(connected) && !ev.VMDisconnect?)
      ensures ok ==> request == RequestAfter(ev)
      ensures ok ==> State() == AfterEvent(old(State()), ev)
      ensures registered == old(registered) + (if ev.ClassPrepare? && Registers(ev.typeName) then [ev.typeName] else [])
      ensures breakpoints == old(breakpoints) + (if ev.ClassPrepare? then PreparedBreakpoints(ev.typeName, ev.lineLocations) else [])
      ensures old(output) <= output && old(steps) <= steps
      ensures old(theThread).Some? ==> theThread == old(theThread)
      ensures old(commander).Some? ==> commander == old(commander)
    {
      ok := HandleEvent(ev);
      if ok {
        ReleaseAndRearm(ev);
      }
    }

    /** Handles the events of one set in order, releasing and re-arming the
        step request after each; stops at the first event on a second thread,
        whose failure nothing catches. Otherwise the thread is tracked on,
        a disconnect event in the set clears `connected`, and the request
        held is the one the last event called for. */
    method HandleEventSet(evs: seq<Event>) returns (ok: bool)
      requires Valid()
      modifies this
      ensures Valid()
      ensures ok <==> !Clash(old(theThread), evs)
      ensures ok ==> theThread == TrackedAfter(old(theThread), evs)
      ensures ok ==> connected == (old(connected) && VMDisconnect !in evs)
      ensures ok ==> request == if evs == [] then old(request) else RequestAfter(evs[|evs| - 1])
      ensures ok ==> State() == AfterEvents(old(State()), evs)
      ensures old(output) <= output && old(steps) <= steps
      ensures old(theThread).Some? ==> theThread == old(theThread)
      ensures old(commander).Some? ==> commander == old(commander)
    {
      ok := true;
      for k := 0 to |evs|
        invariant Valid()
        invariant !Clash(old(theThread), evs[..k])
        invariant theThread == TrackedAfter(old(theThread), evs[..k])
        invariant connected == (old(connected) && VMDisconnect !in evs[..k])
        invariant request == if k == 0 then old(request) else RequestAfter(evs[k - 1])
        invariant State() == AfterEvents(old(State()), evs[..k])
        invariant old(output) <= output && old(steps) <= steps
        invariant old(theThread).Some? ==> theThread == old(theThread)
        invariant old(commander).Some? ==> commander == old(commander)
      {
        ClashSnoc(old(theThread), evs, k);
        AfterEventsSnoc(old(State()), evs, k);
        assert evs[..k + 1] == evs[..k] + [evs[k]];
        ok := HandleAndRearm(evs[k]);
        if !ok {
          ClashOfPrefix(old(theThread), evs, k + 1);
          return;
        }
      }
      assert evs[..|evs|] == evs;
    }

    /** One pass of the main loop, on batch `i`: an interrupted wait is
        ignored; an event set is handled; a failing queue is drained. The
        result is the outcome when the thread dies or waits for ever;
        otherwise the loop goes on while still connected. */
    method HandleBatch(batches: seq<Batch>, i: nat) returns (stop: Option<RunOutcome>)
      requires Valid() && connected && i < |batches|
      modifies this
      ensures Valid()
      ensures old(output) <= output && old(steps) <= steps
      ensures old(theThread).Some? ==> theThread == old(theThread)
      ensures old(commander).Some? ==> commander == old(commander)
      ensures stop.Some? ==> !stop.value.Printed?
                             && Ending(stop.value) == MainEnd(old(theThread), batches[i..])
      ensures stop.None? && connected ==> MainEnd(old(theThread), batches[i..]) == MainEnd(theThread, batches[i + 1..])
      ensures stop.None? && !connected ==> MainEnd(old(theThread), batches[i..]) == Finished
      ensures stop.None? && connected ==> MainState(old(State()), batches[i..]) == MainState(State(), batches[i + 1..])
      ensures stop.None? && !connected ==> MainState(old(State()), batches[i..]) == State()
      ensures stop.None? && batches[i].EventSet? ==>
                var evs := batches[i].events;
                theThread == TrackedAfter(old(theThread), evs)
                && connected == (VMDisconnect !in evs)
                && request == if evs == [] then old(request) else RequestAfter(evs[|evs| - 1])
      ensures !batches[i].EventSet? ==>
                theThread == old(theThread) && request == old(request)
                && output == old(output) && steps == old(steps)
      ensures stop.None? && batches[i].Disconnected? ==> !connected
    {
      stop := None;
      match batches[i] {
      case Interrupted =>
        // logged and ignored
        MainEndInterrupted(theThread, State(), batches, i);
      case Disconnected =>
        MainEndDisconnected(theThread, State(), batches, i);
        var r := HandleDisconnectedException(batches[i + 1..]);
        if r.Crashed? {
          stop := Some(Died(DisconnectedWhileDraining));
        } else if r.Blocked? {
          stop := Some(Waiting);
        }
      case EventSet(evs) =>
        MainEndEventSet(theThread, State(), batches, i);
        var ok := HandleEventSet(evs);
        if !ok {
          stop := Some(Died(OneThreadViolated));
        }
        // the batch is resumed
      }
    }

    /** The main loop: handles every event of every batch in order, releasing
        and re-arming the step request after each, until disconnected; on a
        lost connection drains the queue first. It then prints the compile
        error or the trace. It ends as the fold `MainEnd` says: a second
        thread or a second failure of the queue kills it, and it prints only
        once disconnected. */
    method Run(batches: seq<Batch>, launch: LaunchResult) returns (outcome: RunOutcome)
      requires Valid()
      modifies this
      ensures Valid()
      ensures old(output) <= output && old(steps) <= steps
      ensures old(theThread).Some? ==> theThread == old(theThread)
      ensures old(commander).Some? ==> commander == old(commander)
      ensures old(connected) ==> Ending(outcome) == MainEnd(old(theThread), batches)
      ensures !old(connected) ==> outcome.Printed?
      ensures outcome.Printed? ==> !connected && outcome.doc == FinalDocument(usercode, launch, output)
      ensures outcome.Printed? && old(connected) ==> State() == MainState(old(State()), batches)
    {
      var i := 0;
      while connected
        invariant Valid() && 0 <= i <= |batches|
        invariant old(output) <= output && old(steps) <= steps
        invariant old(theThread).Some? ==> theThread == old(theThread)
        invariant old(commander).Some? ==> commander == old(commander)
        invariant connected ==> old(connected) && MainEnd(old(theThread), batches) == MainEnd(theThread, batches[i..])
        invariant !connected ==> !old(connected) || MainEnd(old(theThread), batches) == Finished
        invariant connected ==> MainState(old(State()), batches) == MainState(State(), batches[i..])
        invariant !connected && old(connected) ==> MainState(old(State()), batches) == State()
        decreases |batches| - i
      {
        if i == |batches| {
          // the queue never yields again
          return Waiting;
        }
        var stop := HandleBatch(batches, i);
        if stop.Some? {
          return stop.value;
        }
        // after a drain `connected` is false, which ends the loop as the
        // source's break does
        i := i + 1;
      }
      outcome := Printed(FinalDocument(usercode, launch, output));
    }

    /** What the invariant gives for the whole trace: the time-limit sentinel
        occurs once if the counter has reached the cap and never otherwise,
        and right after the step that reached it; one stack-limit sentinel
        follows each record at the stack cap and none stands elsewhere; the
        manager holds at most one step request. */
    lemma TraceLimits()
      requires Valid()
      ensures multiset(output)[TimeLimit] == if steps >= MAX_STEPS then 1 else 0
      ensures Points(output) == points
      ensures TimeLimitPlaced(Base(), output)
      ensures multiset(output)[StackLimit] == DeepCount(points)
      ensures StackSentinelsPlaced(output)
      ensures |stepRequests| <= 1
    {
      var p := points;
      PointsOfAdmitted(Base(), p);
      TimeLimitOnce(Base(), p);
      TimeLimitAfterLastStep(Base(), p);
      StackLimitCount(Base(), p);
      StackLimitFollowsDeepPoint(Base(), p);
    }
  }
}
