/** The trace the event handler collects: converted execution points, the two
    resource caps with their "instruction_limit_reached" sentinels, and the one
    document printed at shutdown. */
module Trace {

  /** Cap on the step counter. */
  const MAX_STEPS: nat := 256
  /** Cap on the size of a record's stack_to_render. */
  const MAX_STACK_SIZE: nat := 10

  /** The event field of every sentinel, whichever limit it reports. */
  const LIMIT_EVENT: string := "instruction_limit_reached"
  const STACK_LIMIT_MSG: string := "<exceeded maximum visualizer stack size>"
  const TIME_LIMIT_MSG: string := "<ran for maximum execution time limit>"

  /** The two limits a sentinel can report. */
  datatype Limit = StackSize | ExecutionTime

  /** One entry of the trace array. A converted execution point is reduced to
      the size of its stack_to_render; a sentinel is the object whose
      exception_msg is `ExceptionMsg(limit)` and whose event is LIMIT_EVENT. */
  datatype Record =
    | Point(stackSize: nat)
    | Sentinel(limit: Limit)

  /** The exception_msg field of a sentinel. */
  function ExceptionMsg(limit: Limit): string
  {
    match limit
    case StackSize => STACK_LIMIT_MSG
    case ExecutionTime => TIME_LIMIT_MSG
  }

  const StackLimit: Record := Sentinel(StackSize)
  const TimeLimit: Record := Sentinel(ExecutionTime)

  /** What one pass of the conversion loop appends for a record whose stack
      has `stackSize` frames, `stepsAfter` being the step counter once it has
      been incremented for that record. The stack check comes first. */
  function Chunk(stepsAfter: nat, stackSize: nat): (c: seq<Record>)
    ensures 1 <= |c| <= 3 && c[0] == Point(stackSize)
    ensures |c| == 1 <==> stackSize < MAX_STACK_SIZE && stepsAfter != MAX_STEPS
  {
    [Point(stackSize)]
    + (if stackSize >= MAX_STACK_SIZE then [StackLimit] else [])
    + (if stepsAfter == MAX_STEPS then [TimeLimit] else [])
  }

  /** Everything appended to the output while converted records with the given
      stack sizes are admitted one by one, the counter standing at `from`
      before the first of them. */
  function Admitted(from: nat, stacks: seq<nat>): (out: seq<Record>)
    decreases |stacks|
  {
    if stacks == [] then []
    else Chunk(from + 1, stacks[0]) + Admitted(from + 1, stacks[1..])
  }

  /** The stack sizes of the execution points of a trace, in order, sentinels
      left out. */
  function Points(out: seq<Record>): (ps: seq<nat>)
    ensures |ps| <= |out|
  {
    if out == [] then []
    else (if out[0].Point? then [out[0].stackSize] else []) + Points(out[1..])
  }

  /** Whether a trace holds a sentinel: fewer execution points than entries. */
  predicate HasSentinel(out: seq<Record>)
  {
    |Points(out)| < |out|
  }

  /** A stack-limit sentinel stands exactly after each execution point whose
      stack is at the cap, and nowhere else. */
  ghost predicate StackSentinelsPlaced(out: seq<Record>)
  {
    forall j :: 0 <= j < |out| ==>
      (out[j] == StackLimit <==> 0 < j && out[j - 1].Point? && out[j - 1].stackSize >= MAX_STACK_SIZE)
  }

  /** Every time-limit sentinel has, before it, execution points for exactly
      the steps that were left below the cap. */
  ghost predicate TimeLimitPlaced(from: nat, out: seq<Record>)
  {
    forall j :: 0 <= j < |out| && out[j] == TimeLimit ==> from + |Points(out[..j])| == MAX_STEPS
  }

  /** How many of the stack sizes are at the cap. */
  function DeepCount(stacks: seq<nat>): (n: nat)
    ensures n <= |stacks|
  {
    if stacks == [] then 0
    else (if stacks[0] >= MAX_STACK_SIZE then 1 else 0) + DeepCount(stacks[1..])
  }

  lemma {:induction false} PointsAppend(a: seq<Record>, b: seq<Record>)
    ensures Points(a + b) == Points(a) + Points(b)
    decreases |a|
  {
    if a == [] {
      assert a + b == b;
    } else {
      assert (a + b)[0] == a[0];
      assert (a + b)[1..] == a[1..] + b;
      PointsAppend(a[1..], b);
    }
  }

  lemma HasSentinelAppend(a: seq<Record>, b: seq<Record>)
    ensures HasSentinel(a + b) <==> HasSentinel(a) || HasSentinel(b)
  {
    PointsAppend(a, b);
  }

  /** HasSentinel says that some entry is a sentinel. */
  lemma {:induction false} HasSentinelMeans(out: seq<Record>)
    ensures HasSentinel(out) <==> exists j :: 0 <= j < |out| && out[j].Sentinel?
    decreases |out|
  {
    if out != [] {
      HasSentinelMeans(out[1..]);
      if out[0].Sentinel? {
        assert out[0].Sentinel?;
      } else if exists j :: 0 <= j < |out[1..]| && out[1..][j].Sentinel? {
        var j :| 0 <= j < |out[1..]| && out[1..][j].Sentinel?;
        assert out[j + 1].Sentinel?;
      } else {
        forall j | 0 <= j < |out| ensures !out[j].Sentinel? {
          if j > 0 { assert out[j] == out[1..][j - 1]; }
        }
      }
    }
  }

  /** A chunk holds one execution point, followed by sentinels only. */
  lemma PointsOfChunkPrefix(k: nat, x: nat, t: nat)
    requires 0 < t <= |Chunk(k, x)|
    ensures Points(Chunk(k, x)[..t]) == [x]
  {
    var c := Chunk(k, x)[..t];
    assert c[0] == Point(x);
    if t == 1 {
      assert c[1..] == [];
    } else if t == 2 {
      assert c[1..] == [c[1]];
      assert Points(c[1..][1..]) == [];
    } else {
      assert c[1..] == [c[1], c[2]];
      assert c[1..][1..] == [c[2]];
      assert Points(c[1..][1..][1..]) == [];
    }
  }

  /** A chunk holds a sentinel exactly when its record is at the stack cap or
      its step reaches the step cap. */
  lemma ChunkHasSentinel(k: nat, x: nat)
    ensures HasSentinel(Chunk(k, x)) <==> x >= MAX_STACK_SIZE || k == MAX_STEPS
  {
    var c := Chunk(k, x);
    PointsOfChunkPrefix(k, x, |c|);
    assert c[..|c|] == c;
  }

  /** Dropping the sentinels from what the loop appended gives back exactly the
      converted records, in order. */
  lemma {:induction false} PointsOfAdmitted(from: nat, stacks: seq<nat>)
    ensures Points(Admitted(from, stacks)) == stacks
    decreases |stacks|
  {
    if stacks != [] {
      var c := Chunk(from + 1, stacks[0]);
      PointsOfAdmitted(from + 1, stacks[1..]);
      PointsAppend(c, Admitted(from + 1, stacks[1..]));
      PointsOfChunkPrefix(from + 1, stacks[0], |c|);
      assert c[..|c|] == c;
      assert [stacks[0]] + stacks[1..] == stacks;
    }
  }

  /** Admitting records in two runs of the loop appends the same as admitting
      them in one: the counter carries over. */
  lemma {:induction false} AdmittedAppend(from: nat, p: seq<nat>, q: seq<nat>)
    ensures Admitted(from, p + q) == Admitted(from, p) + Admitted(from + |p|, q)
    decreases |p|
  {
    if p == [] {
      assert p + q == q;
    } else {
      assert (p + q)[0] == p[0];
      assert (p + q)[1..] == p[1..] + q;
      AdmittedAppend(from + 1, p[1..], q);
    }
  }

  /** Admitting one more record appends its chunk. */
  lemma AdmittedSnoc(from: nat, stacks: seq<nat>, k: nat)
    requires k < |stacks|
    ensures Admitted(from, stacks[..k + 1]) == Admitted(from, stacks[..k]) + Chunk(from + k + 1, stacks[k])
  {
    assert stacks[..k + 1] == stacks[..k] + [stacks[k]];
    AdmittedAppend(from, stacks[..k], [stacks[k]]);
    assert [stacks[k]][1..] == [];
  }

  lemma {:induction false} DeepCountSnoc(s: seq<nat>, x: nat)
    ensures DeepCount(s + [x]) == DeepCount(s) + (if x >= MAX_STACK_SIZE then 1 else 0)
    decreases |s|
  {
    if s == [] {
      assert (s + [x])[1..] == [];
    } else {
      assert (s + [x])[1..] == s[1..] + [x];
      DeepCountSnoc(s[1..], x);
    }
  }

  /** One entry per record, one stack-limit sentinel per record at the stack
      cap, and one time-limit sentinel if the counter crosses the step cap. */
  lemma {:induction false} AdmittedLength(from: nat, stacks: seq<nat>)
    ensures |Admitted(from, stacks)|
            == |stacks| + DeepCount(stacks) + (if from < MAX_STEPS <= from + |stacks| then 1 else 0)
    decreases |stacks|
  {
    if stacks != [] {
      AdmittedLength(from + 1, stacks[1..]);
    }
  }

  /** A sentinel is appended exactly when some record is at the stack cap or
      the counter crosses the step cap: exactly when the debuggee is told to
      exit. */
  lemma SentinelIffLimit(from: nat, stacks: seq<nat>)
    ensures HasSentinel(Admitted(from, stacks))
            <==> DeepCount(stacks) > 0 || from < MAX_STEPS <= from + |stacks|
  {
    AdmittedLength(from, stacks);
    PointsOfAdmitted(from, stacks);
  }

  /** The time-limit sentinel is appended exactly once if the counter crosses
      the cap during these records, and never otherwise. */
  lemma {:induction false} TimeLimitOnce(from: nat, stacks: seq<nat>)
    ensures multiset(Admitted(from, stacks))[TimeLimit]
            == if from < MAX_STEPS <= from + |stacks| then 1 else 0
    decreases |stacks|
  {
    if stacks == [] {
      assert Admitted(from, stacks) == [];
    } else {
      var c, rest := Chunk(from + 1, stacks[0]), Admitted(from + 1, stacks[1..]);
      TimeLimitOnce(from + 1, stacks[1..]);
      assert Admitted(from, stacks) == c + rest;
      assert multiset(c + rest)[TimeLimit] == multiset(c)[TimeLimit] + multiset(rest)[TimeLimit];
      assert multiset(c)[TimeLimit] == if from + 1 == MAX_STEPS then 1 else 0;
    }
  }

  /** One stack-limit sentinel per record whose stack is at the cap. */
  lemma {:induction false} StackLimitCount(from: nat, stacks: seq<nat>)
    ensures multiset(Admitted(from, stacks))[StackLimit] == DeepCount(stacks)
    decreases |stacks|
  {
    if stacks == [] {
      assert Admitted(from, stacks) == [];
    } else {
      var c, rest := Chunk(from + 1, stacks[0]), Admitted(from + 1, stacks[1..]);
      StackLimitCount(from + 1, stacks[1..]);
      assert Admitted(from, stacks) == c + rest;
      assert multiset(c + rest)[StackLimit] == multiset(c)[StackLimit] + multiset(rest)[StackLimit];
      assert multiset(c)[StackLimit] == if stacks[0] >= MAX_STACK_SIZE then 1 else 0;
    }
  }

  /** Each record at the stack cap is immediately followed by the stack-limit
      sentinel, and that sentinel appears nowhere else. */
  lemma {:induction false} StackLimitFollowsDeepPoint(from: nat, stacks: seq<nat>)
    ensures StackSentinelsPlaced(Admitted(from, stacks))
    ensures Admitted(from, stacks) != [] ==> Admitted(from, stacks)[0].Point?
    decreases |stacks|
  {
    if stacks != [] {
      var c, rest := Chunk(from + 1, stacks[0]), Admitted(from + 1, stacks[1..]);
      var out := c + rest;
      assert out == Admitted(from, stacks);
      StackLimitFollowsDeepPoint(from + 1, stacks[1..]);
      assert StackSentinelsPlaced(rest);
      assert !(c[|c| - 1].Point? && c[|c| - 1].stackSize >= MAX_STACK_SIZE);
      forall j | 0 <= j < |out|
        ensures out[j] == StackLimit <==> 0 < j && out[j - 1].Point? && out[j - 1].stackSize >= MAX_STACK_SIZE
      {
        if j < |c| {
          assert out[j] == c[j];
          if 0 < j { assert out[j - 1] == c[j - 1]; }
        } else if j == |c| {
          assert out[j] == rest[0];
          assert out[j - 1] == c[|c| - 1];
        } else {
          assert out[j] == rest[j - |c|];
          assert out[j - 1] == rest[j - |c| - 1];
        }
      }
    }
  }

  /** The time-limit sentinel stands right after the record that brought the
      counter to the cap: the execution points before it number exactly the
      steps that were left. */
  lemma {:induction false} TimeLimitAfterLastStep(from: nat, stacks: seq<nat>)
    ensures TimeLimitPlaced(from, Admitted(from, stacks))
    decreases |stacks|
  {
    if stacks != [] {
      var c, rest := Chunk(from + 1, stacks[0]), Admitted(from + 1, stacks[1..]);
      var out := c + rest;
      assert out == Admitted(from, stacks);
      TimeLimitAfterLastStep(from + 1, stacks[1..]);
      assert TimeLimitPlaced(from + 1, rest);
      forall j | 0 <= j < |out| && out[j] == TimeLimit
        ensures from + |Points(out[..j])| == MAX_STEPS
      {
        if j < |c| {
          assert c[j] == TimeLimit;
          assert out[..j] == c[..j];
          assert from + 1 == MAX_STEPS && j != 0;
          PointsOfChunkPrefix(from + 1, stacks[0], j);
        } else {
          var t := j - |c|;
          assert rest[t] == TimeLimit;
          assert out[..j] == c + rest[..t];
          PointsAppend(c, rest[..t]);
          PointsOfChunkPrefix(from + 1, stacks[0], |c|);
          assert c[..|c|] == c;
        }
      }
    }
  }

  /** Below both caps nothing but the converted records is appended. */
  lemma {:induction false} WithinLimitsNoSentinel(from: nat, stacks: seq<nat>)
    requires from + |stacks| < MAX_STEPS
    requires forall i :: 0 <= i < |stacks| ==> stacks[i] < MAX_STACK_SIZE
    ensures !HasSentinel(Admitted(from, stacks))
    ensures |Admitted(from, stacks)| == |stacks|
    decreases |stacks|
  {
    if stacks != [] {
      WithinLimitsNoSentinel(from + 1, stacks[1..]);
      ChunkHasSentinel(from + 1, stacks[0]);
      HasSentinelAppend(Chunk(from + 1, stacks[0]), Admitted(from + 1, stacks[1..]));
      PointsOfAdmitted(from, stacks);
    }
  }

  /** Within one conversion result the loop does not stop at a sentinel: two
      shallow records admitted with one step left give a record after the
      time-limit sentinel, and a counter of 257. */
  lemma RecordAfterTimeLimit()
    ensures Admitted(MAX_STEPS - 1, [0, 0]) == [Point(0), TimeLimit, Point(0)]
  {
    assert [0, 0][1..] == [0];
    assert [0][1..] == [];
  }

  /** The launch result, read once at shutdown. */
  datatype LaunchResult = LaunchResult(success: bool, errorMessage: string)

  /** The single document printed at the end of a run. */
  datatype Document =
    | CompileError(usercode: string, message: string, line: int, column: int)
    | TraceDocument(usercode: string, trace: seq<Record>)

  /** A failed launch reports a compile error at line 1, column 1 whatever was
      collected; otherwise the whole trace is printed with the user's code. */
  function FinalDocument(usercode: string, launch: LaunchResult, output: seq<Record>): (d: Document)
    ensures d.usercode == usercode
    ensures d.CompileError? <==> !launch.success
    ensures d.CompileError? ==> d.message == launch.errorMessage && d.line == 1 && d.column == 1
    ensures d.TraceDocument? ==> d.trace == output
  {
    if !launch.success then CompileError(usercode, launch.errorMessage, 1, 1)
    else TraceDocument(usercode, output)
  }

  /** A compile-error document does not depend on the collected records. */
  lemma CompileErrorIgnoresRecords(usercode: string, launch: LaunchResult, a: seq<Record>, b: seq<Record>)
    requires !launch.success
    ensures FinalDocument(usercode, launch, a) == FinalDocument(usercode, launch, b)
  {
  }
}
