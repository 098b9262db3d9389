/**
  bootstrap and bootstrap_legacy: the same exec/exit tracer over a ring buffer and over a perf
  buffer. Each handler is atomic; what it reads from the task, and whether the ring buffer has
  room, are inputs of the event. A sample carries the fields its handler fills in.
 */
module Bootstrap {
  import opened Bpf

  const MAX_ENTRIES: nat := 8192

  datatype Event =
    | Exec(pid: nat, now: u64, ppid: nat, comm: string, filename: string, room: bool)
    | Exit(pid: nat, now: u64, ppid: nat, comm: string, tid: nat, status: nat, room: bool)

  datatype Sample =
    | ExecSample(pid: nat, ppid: nat, comm: string, filename: string)
    | ExitSample(pid: nat, ppid: nat, comm: string, duration: u64, code: nat)

  datatype Probe = Probe(start: map<nat, u64>, out: seq<Sample>)

  /** (exit_code >> 8) & 0xff. */
  function ExitCode(status: nat): nat {
    status / 256 % 256
  }

  /** The second byte of the status: what the process passed to `exit`, whatever stands above and below it. */
  lemma ExitCodeIsSecondByte(high: nat, code: nat, low: nat)
    requires code < 256 && low < 256
    ensures ExitCode(65536 * high + 256 * code + low) == code
  {
    var shifted := 256 * high + code;
    assert (256 * shifted + low) / 256 == shifted;
    assert shifted % 256 == code;
  }

  /** bootstrap: samples are reserved in the ring buffer, and lost when it has no room. */
  class RingProbe {
    const minDuration: u64
    var execStart: map<nat, u64>
    var rb: seq<Sample>

    function State(): Probe
      reads this
    {
      Probe(execStart, rb)
    }

    constructor (minDuration: u64)
      ensures this.minDuration == minDuration && State() == LOADED
    {
      this.minDuration, execStart, rb := minDuration, map[], [];
    }

    method HandleExec(e: Event)
      requires e.Exec?
      modifies this
      ensures State() == RingStep(minDuration, old(State()), e)
    {
      execStart := Put(execStart, MAX_ENTRIES, e.pid, e.now);
      if minDuration != 0 {
        return;
      }
      if !e.room {
        return;
      }
      rb := rb + [ExecSample(e.pid, e.ppid, e.comm, e.filename)];
    }

    method HandleExit(e: Event)
      requires e.Exit?
      modifies this
      ensures State() == RingStep(minDuration, old(State()), e)
    {
      if e.pid != e.tid {
        return;
      }
      var duration := 0;
      if e.pid in execStart {
        duration := SubU64(e.now, execStart[e.pid]);
      } else if minDuration != 0 {
        return;
      }
      execStart := execStart - {e.pid};
      if minDuration != 0 && duration < minDuration {
        return;
      }
      if !e.room {
        return;
      }
      rb := rb + [ExitSample(e.pid, e.ppid, e.comm, duration, ExitCode(e.status))];
    }
  }

  /** bootstrap_legacy: samples are built on the stack and sent to the perf buffer. */
  class PerfProbe {
    const minDuration: u64
    var execStart: map<nat, u64>
    var perfBuffer: seq<Sample>

    function State(): Probe
      reads this
    {
      Probe(execStart, perfBuffer)
    }

    constructor (minDuration: u64)
      ensures this.minDuration == minDuration && State() == LOADED
    {
      this.minDuration, execStart, perfBuffer := minDuration, map[], [];
    }

    method HandleExec(e: Event)
      requires e.Exec?
      modifies this
      ensures State() == PerfStep(minDuration, old(State()), e)
    {
      execStart := Put(execStart, MAX_ENTRIES, e.pid, e.now);
      if minDuration != 0 {
        return;
      }
      perfBuffer := perfBuffer + [ExecSample(e.pid, e.ppid, e.comm, e.filename)];
    }

    method HandleExit(e: Event)
      requires e.Exit?
      modifies this
      ensures State() == PerfStep(minDuration, old(State()), e)
    {
      if e.pid != e.tid {
        return;
      }
      var duration := 0;
      if e.pid in execStart {
        duration := SubU64(e.now, execStart[e.pid]);
      } else if minDuration != 0 {
        return;
      }
      execStart := execStart - {e.pid};
      if minDuration != 0 && duration < minDuration {
        return;
      }
      perfBuffer := perfBuffer + [ExitSample(e.pid, e.ppid, e.comm, duration, ExitCode(e.status))];
    }
  }

  /** The sample that an event calls for. */
  function Sampled(min: u64, start: map<nat, u64>, e: Event): Option<Sample> {
    match e
    case Exec(pid, _, ppid, comm, filename, _) =>
      if min == 0 then Some(ExecSample(pid, ppid, comm, filename)) else None
    case Exit(pid, now, ppid, comm, tid, status, _) =>
      if pid != tid || (min != 0 && pid !in start) then None else
        var duration := if pid in start then SubU64(now, start[pid]) else 0;
        if min != 0 && duration < min then None
        else Some(ExitSample(pid, ppid, comm, duration, ExitCode(status)))
  }

  function StartAfter(start: map<nat, u64>, e: Event): map<nat, u64> {
    match e
    case Exec(pid, now, _, _, _, _) => Put(start, MAX_ENTRIES, pid, now)
    case Exit(pid, _, _, _, tid, _, _) => if pid == tid then start - {pid} else start
  }

  function PerfStep(min: u64, s: Probe, e: Event): Probe {
    Probe(StartAfter(s.start, e),
          match Sampled(min, s.start, e)
          case None => s.out
          case Some(x) => s.out + [x])
  }

  function RingStep(min: u64, s: Probe, e: Event): Probe {
    Probe(StartAfter(s.start, e),
          match Sampled(min, s.start, e)
          case None => s.out
          case Some(x) => if e.room then s.out + [x] else s.out)
  }

  const LOADED := Probe(map[], [])

  function Perf(min: u64, tr: Trace<Event>): Probe {
    match tr
    case Start => LOADED
    case Then(before, e) => PerfStep(min, Perf(min, before), e)
  }

  function Ring(min: u64, tr: Trace<Event>): Probe {
    match tr
    case Start => LOADED
    case Then(before, e) => RingStep(min, Ring(min, before), e)
  }

  // ---- The two machines ----

  lemma {:induction false} SameStart(min: u64, tr: Trace<Event>)
    ensures Ring(min, tr).start == Perf(min, tr).start
  {
    match tr {
      case Start =>
      case Then(before, e) => SameStart(min, before);
    }
  }

  /** Every event that called for a sample found room in the ring buffer. */
  predicate NoneDropped(min: u64, tr: Trace<Event>) {
    match tr
    case Start => true
    case Then(before, e) =>
      NoneDropped(min, before) && (Sampled(min, Perf(min, before).start, e).Some? ==> e.room)
  }

  /**
    On every trace the two machines remember the same exec times, the ring buffer's samples are a
    subsequence of the perf buffer's, and they are equal exactly when no reservation failed.
   */
  lemma {:induction false} RingRefinesPerf(min: u64, tr: Trace<Event>)
    ensures Ring(min, tr).start == Perf(min, tr).start
    ensures Subsequence(Ring(min, tr).out, Perf(min, tr).out)
    ensures |Ring(min, tr).out| <= |Perf(min, tr).out|
    ensures |Ring(min, tr).out| == |Perf(min, tr).out| <==> NoneDropped(min, tr)
    ensures Ring(min, tr).out == Perf(min, tr).out <==> NoneDropped(min, tr)
  {
    SameStart(min, tr);
    match tr {
      case Start =>
      case Then(before, e) =>
        RingRefinesPerf(min, before);
        var x := Sampled(min, Perf(min, before).start, e);
        if x.Some? {
          SubsequenceSnoc(Ring(min, before).out, Perf(min, before).out, x.value);
        }
    }
  }

  // ---- The history ----

  predicate Monotone(tr: Trace<Event>) {
    match tr
    case Start => true
    case Then(Start, e) => true
    case Then(before, e) => Monotone(before) && before.event.now <= e.now
  }

  /** The time of the latest exec of `pid` that no exit of the process has consumed. */
  function LastExec(tr: Trace<Event>, pid: nat): Option<u64> {
    match tr
    case Start => None
    case Then(before, Exec(p, now, _, _, _, _)) => if p == pid then Some(now) else LastExec(before, pid)
    case Then(before, Exit(p, _, _, _, tid, _, _)) => if p == pid && tid == pid then None else LastExec(before, pid)
  }

  lemma {:induction false} LastExecInPast(tr: Trace<Event>, pid: nat)
    requires Monotone(tr)
    ensures LastExec(tr, pid).Some? ==> tr.Then? && LastExec(tr, pid).value <= tr.event.now
  {
    match tr {
      case Start =>
      case Then(before, e) => LastExecInPast(before, pid);
    }
  }

  /** A remembered time is that of the latest unconsumed exec, in every run, even when the map is full. */
  lemma {:induction false} StartIsLastExec(min: u64, tr: Trace<Event>, pid: nat)
    ensures pid in Perf(min, tr).start ==> LastExec(tr, pid) == Some(Perf(min, tr).start[pid])
  {
    match tr {
      case Start =>
      case Then(before, e) => StartIsLastExec(min, before, pid);
    }
  }

  /** Some exit of the trace ended a process that ran for `x.duration` since its latest exec. */
  predicate Measured(tr: Trace<Event>, x: Sample) {
    x.ExitSample? && tr.Then? &&
    (Measured(tr.before, x) ||
     var e := tr.event;
     var t := LastExec(tr.before, x.pid);
     e.Exit? && e.pid == e.tid == x.pid && t.Some? && t.value + x.duration == e.now && x.code == ExitCode(e.status))
  }

  /**
    With a minimum duration, every sample of either machine is an exit that meets the minimum, and
    whose duration is measured from an exec not since consumed by an exit.
   */
  lemma {:induction false} EveryExitIsMeasured(min: u64, tr: Trace<Event>)
    requires min > 0 && Monotone(tr)
    ensures forall i | 0 <= i < |Perf(min, tr).out| ::
              var x := Perf(min, tr).out[i]; x.ExitSample? && min <= x.duration && Measured(tr, x)
  {
    match tr {
      case Start =>
      case Then(before, e) =>
        EveryExitIsMeasured(min, before);
        StartIsLastExec(min, before, e.pid);
        LastExecInPast(before, e.pid);
        var out, out' := Perf(min, before).out, Perf(min, tr).out;
        forall i | 0 <= i < |out'| ensures out'[i].ExitSample? && min <= out'[i].duration && Measured(tr, out'[i]) {
          if i < |out| {
            assert Measured(before, out[i]);
          }
        }
    }
  }

  function Pids(tr: Trace<Event>): set<nat> {
    match tr
    case Start => {}
    case Then(before, e) => Pids(before) + {e.pid}
  }

  lemma {:induction false} StartPids(min: u64, tr: Trace<Event>)
    ensures Perf(min, tr).start.Keys <= Pids(tr)
  {
    match tr {
      case Start =>
      case Then(before, e) => StartPids(min, before);
    }
  }

  /** With no more processes than map entries, exactly the unconsumed execs are remembered. */
  lemma {:induction false} EveryExecIsRemembered(min: u64, tr: Trace<Event>, pid: nat)
    requires |Pids(tr)| <= 8192
    ensures pid in Perf(min, tr).start <==> LastExec(tr, pid).Some?
  {
    match tr {
      case Start =>
      case Then(before, e) =>
        SubsetSize(Pids(before), Pids(tr));
        EveryExecIsRemembered(min, before, pid);
        StartPids(min, before);
        PutFits(Perf(min, before).start, MAX_ENTRIES, e.pid, e.now, Pids(tr));
    }
  }

  /** The samples that the history calls for. */
  function Expected(min: u64, tr: Trace<Event>): seq<Sample> {
    match tr
    case Start => []
    case Then(before, Exec(pid, _, ppid, comm, filename, _)) =>
      if min == 0 then Expected(min, before) + [ExecSample(pid, ppid, comm, filename)] else Expected(min, before)
    case Then(before, Exit(pid, now, ppid, comm, tid, status, _)) =>
      var t := LastExec(before, pid);
      var lived := if t.Some? && t.value <= now then now - t.value else 0;
      if pid == tid && (min == 0 || (t.Some? && min <= lived))
      then Expected(min, before) + [ExitSample(pid, ppid, comm, lived, ExitCode(status))]
      else Expected(min, before)
  }

  /** With no more processes than map entries, the perf buffer receives exactly those samples. */
  lemma {:induction false} SamplesAreExpected(min: u64, tr: Trace<Event>)
    requires |Pids(tr)| <= 8192 && Monotone(tr)
    ensures Perf(min, tr).out == Expected(min, tr)
  {
    match tr {
      case Start =>
      case Then(before, e) =>
        SubsetSize(Pids(before), Pids(tr));
        SamplesAreExpected(min, before);
        EveryExecIsRemembered(min, before, e.pid);
        StartIsLastExec(min, before, e.pid);
        LastExecInPast(before, e.pid);
    }
  }
}
