/** The debugger events the handler receives, the batches they arrive in, and
    the per-event decisions that depend on an event alone: which prepared
    types are registered and get breakpoints, when a single-step request is
    wanted, and how the drain loop after a lost connection ends. */
module Events {

  datatype Option<T> = None | Some(value: T)

  /** Identity of a thread of the debuggee. */
  type ThreadId = nat

  /** The line numbers of a type's line locations, or None when the type has
      no line-number information. */
  type LineTable = Option<seq<nat>>

  /** A debugger event, with what the event handler asks of it.

      A Locatable event (breakpoint, single step, method entry or exit,
      exception) carries the thread it happened on; the name of the source
      file of its location (None when that is absent); whether the converter
      reports events at that location; whether the event's printed form
      mentions NoopMain; and the records the converter produces for it, each
      reduced to the size of its stack_to_render (None when the conversion
      throws). */
  datatype Event =
    | ClassPrepare(typeName: string, lineLocations: LineTable)
    | VMDeath
    | VMDisconnect
    | ThreadDeath(thread: ThreadId)
    | Locatable(thread: ThreadId, sourceName: Option<string>, reportable: bool,
                mentionsNoopMain: bool, converted: Option<seq<nat>>)

  /** What one wait on the event queue yields: a set of events, an
      interrupted wait, or the exception that says the debuggee is gone. */
  datatype Batch =
    | EventSet(events: seq<Event>)
    | Interrupted
    | Disconnected

  /** The tracer's own package, and the bootstrap class inside it. */
  const TRACER_PACKAGE: string := "traceprinter."
  const TRACER_PREFIX: string := "traceprinter"
  const NOOP_MAIN: string := "traceprinter.shoelace.NoopMain"
  const NOOP_MAIN_SOURCE: string := "NoopMain.java"

  /** A prepared type is handed to the converter's static registry unless it
      belongs to the tracer's package. */
  predicate Registers(typeName: string)
  {
    !(TRACER_PACKAGE <= typeName)
  }

  /** Breakpoints go on a prepared type's lines unless its name starts with
      "traceprinter" and it is not the bootstrap class. */
  predicate InstallsBreakpoints(typeName: string)
  {
    !(TRACER_PREFIX <= typeName) || typeName == NOOP_MAIN
  }

  lemma PackageStartsWithPrefix(typeName: string)
    requires TRACER_PACKAGE <= typeName
    ensures TRACER_PREFIX <= typeName
  {
    assert TRACER_PREFIX == TRACER_PACKAGE[..|TRACER_PREFIX|];
    assert TRACER_PREFIX == typeName[..|TRACER_PREFIX|];
  }

  /** A user type (outside anything named "traceprinter...") is registered
      and gets breakpoints. */
  lemma UserTypeRule(typeName: string)
    requires !(TRACER_PREFIX <= typeName)
    ensures Registers(typeName) && InstallsBreakpoints(typeName)
  {
    if TRACER_PACKAGE <= typeName {
      PackageStartsWithPrefix(typeName);
    }
  }

  /** The bootstrap class gets breakpoints but is not registered. */
  lemma NoopMainRule()
    ensures !Registers(NOOP_MAIN) && InstallsBreakpoints(NOOP_MAIN)
  {
    assert TRACER_PACKAGE == NOOP_MAIN[..|TRACER_PACKAGE|];
  }

  /** Every other type of the tracer's package gets neither. */
  lemma TracerTypeRule(typeName: string)
    requires TRACER_PACKAGE <= typeName && typeName != NOOP_MAIN
    ensures !Registers(typeName) && !InstallsBreakpoints(typeName)
  {
    PackageStartsWithPrefix(typeName);
  }

  /** A name that starts with "traceprinter" but not "traceprinter." (such
      as "traceprinterX") is registered yet gets no breakpoints: the two
      tests use different prefixes. */
  lemma BarePrefixRule(typeName: string)
    requires TRACER_PREFIX <= typeName && !(TRACER_PACKAGE <= typeName)
    ensures Registers(typeName) && !InstallsBreakpoints(typeName)
  {
    if typeName == NOOP_MAIN {
      NoopMainRule();
    }
  }

  /** After an event has been handled, a single-step request is wanted when
      the event is locatable and either its location is reported or it
      mentions NoopMain. */
  predicate WantsStep(ev: Event)
  {
    ev.Locatable? && (ev.reportable || ev.mentionsNoopMain)
  }

  /** The tracked thread once an event has been handled without failure: a
      locatable event fixes it to the event's thread. */
  function Tracked(t: Option<ThreadId>, ev: Event): Option<ThreadId>
  {
    if ev.Locatable? then Some(ev.thread) else t
  }

  /** Whether an event is the fatal "Assumes one thread!" case: a locatable
      event on a thread other than the tracked one. */
  predicate Clashes(t: Option<ThreadId>, ev: Event)
  {
    ev.Locatable? && t.Some? && t.value != ev.thread
  }

  /** The tracked thread after a list of events handled in order. */
  function TrackedAfter(t: Option<ThreadId>, evs: seq<Event>): Option<ThreadId>
    decreases |evs|
  {
    if evs == [] then t else TrackedAfter(Tracked(t, evs[0]), evs[1..])
  }

  /** Whether handling a list of events in order meets a second thread. */
  predicate Clash(t: Option<ThreadId>, evs: seq<Event>)
    decreases |evs|
  {
    evs != [] && (Clashes(t, evs[0]) || Clash(Tracked(t, evs[0]), evs[1..]))
  }

  /** Handling two lists of events one after the other tracks the thread as
      handling them together does. */
  lemma {:induction false} TrackedAfterAppend(t: Option<ThreadId>, p: seq<Event>, q: seq<Event>)
    ensures TrackedAfter(t, p + q) == TrackedAfter(TrackedAfter(t, p), q)
    decreases |p|
  {
    if p == [] {
      assert p + q == q;
    } else {
      assert (p + q)[0] == p[0];
      assert (p + q)[1..] == p[1..] + q;
      TrackedAfterAppend(Tracked(t, p[0]), p[1..], q);
    }
  }

  /** Two lists of events meet a second thread exactly when the first does, or
      the second does with the thread the first leaves tracked. */
  lemma {:induction false} ClashAppend(t: Option<ThreadId>, p: seq<Event>, q: seq<Event>)
    ensures Clash(t, p + q) <==> Clash(t, p) || Clash(TrackedAfter(t, p), q)
    decreases |p|
  {
    if p == [] {
      assert p + q == q;
    } else {
      assert (p + q)[0] == p[0];
      assert (p + q)[1..] == p[1..] + q;
      ClashAppend(Tracked(t, p[0]), p[1..], q);
    }
  }

  /** One event more: the thread and the clash test move on by that event. */
  lemma ClashSnoc(t: Option<ThreadId>, evs: seq<Event>, k: nat)
    requires k < |evs|
    ensures TrackedAfter(t, evs[..k + 1]) == Tracked(TrackedAfter(t, evs[..k]), evs[k])
    ensures Clash(t, evs[..k + 1]) <==> Clash(t, evs[..k]) || Clashes(TrackedAfter(t, evs[..k]), evs[k])
  {
    assert evs[..k + 1] == evs[..k] + [evs[k]];
    TrackedAfterAppend(t, evs[..k], [evs[k]]);
    ClashAppend(t, evs[..k], [evs[k]]);
    assert [evs[k]][1..] == [];
  }

  /** A clash among the first events is a clash of the whole list. */
  lemma ClashOfPrefix(t: Option<ThreadId>, evs: seq<Event>, k: nat)
    requires k <= |evs| && Clash(t, evs[..k])
    ensures Clash(t, evs)
  {
    assert evs == evs[..k] + evs[k..];
    ClashAppend(t, evs[..k], evs[k..]);
  }

  /** Events on one thread only never clash, whatever thread is tracked
      first, as long as it is that thread or none. */
  lemma {:induction false} OneThreadNoClash(t: Option<ThreadId>, th: ThreadId, evs: seq<Event>)
    requires t == None || t == Some(th)
    requires forall i :: 0 <= i < |evs| && evs[i].Locatable? ==> evs[i].thread == th
    ensures !Clash(t, evs)
    ensures TrackedAfter(t, evs) == None || TrackedAfter(t, evs) == Some(th)
    decreases |evs|
  {
    if evs != [] {
      OneThreadNoClash(Tracked(t, evs[0]), th, evs[1..]);
    }
  }

  /** The events the drain loop reacts to. */
  predicate IsTermination(ev: Event)
  {
    ev.VMDeath? || ev.VMDisconnect?
  }

  /** How the drain loop ends: it has consumed `consumed` batches, the last
      of them holding the disconnect event; it waits forever on a queue that
      the given batches do not end; or the queue throws again, which nothing
      catches. */
  datatype DrainResult = Drained(consumed: nat) | Blocked | Crashed

  /** The same ending, seen from `k` batches earlier. */
  function Shift(k: nat, r: DrainResult): DrainResult
  {
    if r.Drained? then Drained(r.consumed + k) else r
  }

  predicate HasDisconnect(b: Batch)
  {
    b.EventSet? && VMDisconnect in b.events
  }

  /** The drain loop as a fold over the batches it receives while still
      connected. */
  function Drain(bs: seq<Batch>): (r: DrainResult)
    ensures r.Drained? ==> 0 < r.consumed <= |bs| && HasDisconnect(bs[r.consumed - 1])
    ensures r.Drained? ==>
              forall j :: 0 <= j < r.consumed - 1 ==> !bs[j].Disconnected? && !HasDisconnect(bs[j])
    ensures r.Crashed? ==> exists j :: 0 <= j < |bs| && bs[j].Disconnected?
    decreases |bs|
  {
    if bs == [] then Blocked
    else match bs[0]
      case Disconnected => Crashed
      case Interrupted => Shift(1, Drain(bs[1..]))
      case EventSet(evs) =>
        if VMDisconnect in evs then Drained(1) else Shift(1, Drain(bs[1..]))
  }

  /** Batches that neither hold a disconnect event nor fail only move the
      ending of the drain loop further along. */
  lemma {:induction false} DrainSkip(bs: seq<Batch>, i: nat)
    requires i <= |bs|
    requires forall j :: 0 <= j < i ==> !bs[j].Disconnected? && !HasDisconnect(bs[j])
    ensures Drain(bs) == Shift(i, Drain(bs[i..]))
    decreases i
  {
    if i == 0 {
      assert bs[i..] == bs;
    } else {
      assert bs[1..][i - 1..] == bs[i..];
      DrainSkip(bs[1..], i - 1);
    }
  }

  /** A disconnect event after batches that neither hold one nor fail ends
      draining with that batch. */
  lemma DrainEndsAtDisconnect(bs: seq<Batch>, i: nat)
    requires i < |bs| && HasDisconnect(bs[i])
    requires forall j :: 0 <= j < i ==> !bs[j].Disconnected? && !HasDisconnect(bs[j])
    ensures Drain(bs) == Drained(i + 1)
  {
    DrainSkip(bs, i);
  }

  /** A failing queue after batches that neither hold a disconnect nor fail
      crashes the drain loop. */
  lemma DrainCrashesAtFailure(bs: seq<Batch>, i: nat)
    requires i < |bs| && bs[i].Disconnected?
    requires forall j :: 0 <= j < i ==> !bs[j].Disconnected? && !HasDisconnect(bs[j])
    ensures Drain(bs) == Crashed
  {
    DrainSkip(bs, i);
  }

  /** Without a disconnect event or a failure the drain loop waits for ever. */
  lemma DrainBlocksWhenClean(bs: seq<Batch>)
    requires forall j :: 0 <= j < |bs| ==> !bs[j].Disconnected? && !HasDisconnect(bs[j])
    ensures Drain(bs) == Blocked
  {
    DrainSkip(bs, |bs|);
  }

  /** The termination events of a list, in order. */
  function Terminations(evs: seq<Event>): (ts: seq<Event>)
    ensures forall e :: e in ts <==> e in evs && IsTermination(e)
  {
    if evs == [] then []
    else (if IsTermination(evs[0]) then [evs[0]] else []) + Terminations(evs[1..])
  }

  function TerminationsOnly(b: Batch): Batch
  {
    if b.EventSet? then EventSet(Terminations(b.events)) else b
  }

  /** The drain loop reacts to nothing but death and disconnect events:
      removing every other event from every batch does not change how it
      ends. */
  lemma {:induction false} DrainIgnoresOtherEvents(bs: seq<Batch>)
    ensures Drain(bs) == Drain(seq(|bs|, i requires 0 <= i < |bs| => TerminationsOnly(bs[i])))
    decreases |bs|
  {
    var fs := seq(|bs|, i requires 0 <= i < |bs| => TerminationsOnly(bs[i]));
    if bs != [] {
      var rest := seq(|bs| - 1, i requires 0 <= i < |bs| - 1 => TerminationsOnly(bs[1..][i]));
      assert fs[1..] == rest;
      assert fs[0] == TerminationsOnly(bs[0]);
      DrainIgnoresOtherEvents(bs[1..]);
    }
  }
}
