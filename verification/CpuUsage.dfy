/**
  cpu_usage: on-CPU time per PID and per core, from `sched_switch`.

  The environment is a machine with one current task per core. A trace is legal when every
  switch names the task really running on its core, a nonzero PID runs on at most one core,
  and the clock is monotone. PID 0 is the idle task.
 */
module CpuUsage {
  import opened Bpf

  const MAX_PIDS: nat := 10240
  const MAX_CORES: nat := 256

  datatype Switch = Switch(cpu: nat, prev: nat, next: nat, now: u64)

  datatype Probe = Probe(start: map<nat, u64>, time: map<nat, u64>, busy: seq<u64>)

  /** The maps of the kernel side and the one handler that updates them. */
  class CpuUsageProbe {
    var cpuStart: map<nat, u64>
    var cpuTime: map<nat, u64>
    var cpuBusy: seq<u64>

    function State(): Probe
      reads this
    {
      Probe(cpuStart, cpuTime, cpuBusy)
    }

    constructor ()
      ensures State() == Loaded()
    {
      cpuStart, cpuTime, cpuBusy := map[], map[], seq(MAX_CORES, _ => 0);
    }

    method HandleSchedSwitch(e: Switch)
      modifies this
      ensures State() == OnSwitch(old(State()), e)
    {
      if e.prev > 0 {
        if e.prev in cpuStart {
          var delta := SubU64(e.now, cpuStart[e.prev]);
          if e.prev in cpuTime {
            cpuTime := cpuTime[e.prev := AddU64(cpuTime[e.prev], delta)];
          } else {
            cpuTime := Put(cpuTime, MAX_PIDS, e.prev, delta);
          }
          if e.cpu < |cpuBusy| {
            cpuBusy := cpuBusy[e.cpu := AddU64(cpuBusy[e.cpu], delta)];
          }
        }
        cpuStart := cpuStart - {e.prev};
      }
      if e.next > 0 {
        cpuStart := Put(cpuStart, MAX_PIDS, e.next, e.now);
      }
    }
  }

  function Loaded(): Probe {
    Probe(map[], map[], seq(MAX_CORES, _ => 0))
  }

  /** The on-CPU time that a switch charges to the task it switches out. */
  function Charge(s: Probe, e: Switch): Option<u64> {
    if e.prev > 0 && e.prev in s.start then Some(SubU64(e.now, s.start[e.prev])) else None
  }

  function OnSwitch(s: Probe, e: Switch): Probe {
    var left := if e.prev > 0 then s.start - {e.prev} else s.start;
    var start := if e.next > 0 then Put(left, MAX_PIDS, e.next, e.now) else left;
    match Charge(s, e)
    case None => s.(start := start)
    case Some(d) => Probe(start, Bump(s.time, MAX_PIDS, e.prev, d), AddAt(s.busy, e.cpu, d))
  }

  function Run(tr: Trace<Switch>): Probe {
    match tr
    case Start => Loaded()
    case Then(before, e) => OnSwitch(Run(before), e)
  }

  // ---- The environment: what really ran, defined without any map of the tool ----

  /** The tasks on each core, and the clock, when the handler was attached. */
  datatype Machine = Machine(boot: seq<nat>, attach: u64)

  /** The task currently on each core. */
  function Tasks(m: Machine, tr: Trace<Switch>): (r: seq<nat>)
    ensures |r| == |m.boot|
  {
    match tr
    case Start => m.boot
    case Then(before, e) =>
      var ts := Tasks(m, before);
      if e.cpu < |ts| then ts[e.cpu := e.next] else ts
  }

  /** When the core last switched, if it did since the handler was attached. */
  function LastSwitch(tr: Trace<Switch>, c: nat): Option<u64> {
    match tr
    case Start => None
    case Then(before, e) => if e.cpu == c then Some(e.now) else LastSwitch(before, c)
  }

  function Clock(m: Machine, tr: Trace<Switch>): u64 {
    match tr
    case Start => m.attach
    case Then(_, e) => e.now
  }

  ghost predicate Exclusive(tasks: seq<nat>) {
    forall c, d | 0 <= c < d < |tasks| && tasks[c] > 0 :: tasks[c] != tasks[d]
  }

  ghost predicate Legal(m: Machine, tr: Trace<Switch>) {
    && Exclusive(Tasks(m, tr))
    && match tr
       case Start => true
       case Then(before, e) =>
         && Legal(m, before)
         && e.cpu < |m.boot|
         && e.prev == Tasks(m, before)[e.cpu]
         && Clock(m, before) <= e.now
  }

  /** The length of the on-CPU interval that a switch closes, when its beginning was observed. */
  function Closed(before: Trace<Switch>, e: Switch): nat {
    var last := LastSwitch(before, e.cpu);
    if e.prev > 0 && last.Some? && last.value <= e.now then e.now - last.value else 0
  }

  /** The observed non-idle time on core `c`. */
  function BusyTime(tr: Trace<Switch>, c: nat): nat {
    match tr
    case Start => 0
    case Then(before, e) => BusyTime(before, c) + if e.cpu == c then Closed(before, e) else 0
  }

  /** The observed time PID `p` spent on any core. */
  function OnCpuTime(tr: Trace<Switch>, p: nat): nat {
    match tr
    case Start => 0
    case Then(before, e) => OnCpuTime(before, p) + if e.prev == p then Closed(before, e) else 0
  }

  /** Some observed on-CPU interval of `p` has ended. */
  predicate Accounted(tr: Trace<Switch>, p: nat) {
    match tr
    case Start => false
    case Then(before, e) =>
      Accounted(before, p) || (e.prev == p && p > 0 && LastSwitch(before, e.cpu).Some?)
  }

  // ---- cpu_start is exactly the observed part of the run ----

  ghost predicate TracksRunning(m: Machine, tr: Trace<Switch>, start: map<nat, u64>) {
    var tasks := Tasks(m, tr);
    && (forall c | 0 <= c < |tasks| && tasks[c] > 0 ::
          && (tasks[c] in start <==> LastSwitch(tr, c).Some?)
          && (tasks[c] in start ==> Some(start[tasks[c]]) == LastSwitch(tr, c)))
    && (forall p | p in start :: p > 0 && p in tasks)
  }

  lemma {:induction false} Pigeonhole(keys: set<nat>, tasks: seq<nat>)
    requires forall p | p in keys :: p in tasks
    ensures |keys| <= |tasks|
  {
    if tasks != [] {
      var n := |tasks| - 1;
      var rest := keys - {tasks[n]};
      forall p | p in rest ensures p in tasks[..n] {
        var i :| 0 <= i < |tasks| && tasks[i] == p;
        assert tasks[..n][i] == p;
      }
      Pigeonhole(rest, tasks[..n]);
      assert keys <= rest + {tasks[n]};
    }
  }

  /** What a switch makes of `cpu_start` when its insert does not fail. */
  function StartAfter(start: map<nat, u64>, e: Switch): map<nat, u64> {
    var left := start - {e.prev};
    if e.next > 0 then left[e.next := e.now] else left
  }

  lemma StartAfterTracks(m: Machine, before: Trace<Switch>, e: Switch, start: map<nat, u64>)
    requires Legal(m, Then(before, e)) && TracksRunning(m, before, start)
    ensures TracksRunning(m, Then(before, e), StartAfter(start, e))
  {
    var tasks, tasks' := Tasks(m, before), Tasks(m, Then(before, e));
    var start' := StartAfter(start, e);
    assert tasks[e.cpu] == e.prev && tasks' == tasks[e.cpu := e.next];
    forall p | p in start' ensures p > 0 && p in tasks' {
      if p == e.next {
        assert tasks'[e.cpu] == p;
      } else {
        var c :| 0 <= c < |tasks| && tasks[c] == p;
        assert tasks'[c] == p;
      }
    }
    forall c | 0 <= c < |tasks'| && tasks'[c] > 0
      ensures tasks'[c] in start' <==> LastSwitch(Then(before, e), c).Some?
      ensures tasks'[c] in start' ==> Some(start'[tasks'[c]]) == LastSwitch(Then(before, e), c)
    {
      if c != e.cpu {
        assert tasks[c] == tasks'[c] && tasks[c] != tasks[e.cpu] && tasks'[c] != tasks'[e.cpu];
      }
    }
  }

  /** The switched-out task makes room: fewer entries are left than there are cores. */
  lemma SwitchMakesRoom(m: Machine, before: Trace<Switch>, e: Switch, start: map<nat, u64>)
    requires Legal(m, Then(before, e)) && TracksRunning(m, before, start)
    ensures |start - {e.prev}| < |m.boot|
  {
    RoomAt(start, Tasks(m, before), e.cpu);
  }

  lemma RoomAt(start: map<nat, u64>, tasks: seq<nat>, c: nat)
    requires c < |tasks| && forall p | p in start :: p in tasks
    ensures |start - {tasks[c]}| < |tasks|
  {
    var left := (start - {tasks[c]}).Keys;
    Pigeonhole(left + {tasks[c]}, tasks);
    assert |start - {tasks[c]}| == |left|;
  }

  lemma RoomMeansStartAfter(s: Probe, e: Switch)
    requires 0 !in s.start && |s.start - {e.prev}| < MAX_PIDS
    ensures OnSwitch(s, e).start == StartAfter(s.start, e)
  {
    if e.prev == 0 {
      assert s.start - {e.prev} == s.start;
    }
  }

  /** No insert into `cpu_start` ever fails. */
  lemma InsertSucceeds(m: Machine, before: Trace<Switch>, e: Switch)
    requires Legal(m, Then(before, e)) && |m.boot| <= 10240
    requires TracksRunning(m, before, Run(before).start)
    ensures Run(Then(before, e)).start == StartAfter(Run(before).start, e)
  {
    SwitchMakesRoom(m, before, e, Run(before).start);
    RoomMeansStartAfter(Run(before), e);
  }

  /**
    `cpu_start` holds exactly the running tasks whose switch-in was observed, each with its true
    switch-in time, and at most one entry per core.
   */
  lemma {:induction false} StartTracksRunning(m: Machine, tr: Trace<Switch>)
    requires Legal(m, tr) && |m.boot| <= 10240
    ensures TracksRunning(m, tr, Run(tr).start)
    ensures tr.Then? ==> Run(tr).start == StartAfter(Run(tr.before).start, tr.event)
    ensures |Run(tr).start| <= |m.boot|
  {
    match tr {
      case Start =>
      case Then(before, e) =>
        StartTracksRunning(m, before);
        InsertSucceeds(m, before, e);
        StartAfterTracks(m, before, e, Run(before).start);
    }
    Pigeonhole(Run(tr).start.Keys, Tasks(m, tr));
  }

  /** The handler's `delta` is the true length of the interval that the switch closes. */
  lemma DeltaIsClosed(m: Machine, before: Trace<Switch>, e: Switch)
    requires Legal(m, Then(before, e)) && |m.boot| <= 10240
    ensures e.prev > 0 ==> (e.prev in Run(before).start <==> LastSwitch(before, e.cpu).Some?)
    ensures e.prev > 0 && e.prev in Run(before).start ==>
              SubU64(e.now, Run(before).start[e.prev]) == Closed(before, e) < U64
    ensures e.prev == 0 || e.prev !in Run(before).start ==> Closed(before, e) == 0
  {
    StartTracksRunning(m, before);
    assert Tasks(m, before)[e.cpu] == e.prev;
    LastSwitchBounds(m, before, e.cpu);
  }

  lemma {:induction false} LastSwitchBounds(m: Machine, tr: Trace<Switch>, c: nat)
    requires Legal(m, tr)
    ensures m.attach <= Clock(m, tr)
    ensures LastSwitch(tr, c).Some? ==> m.attach <= LastSwitch(tr, c).value <= Clock(m, tr) < U64
  {
    match tr {
      case Start =>
      case Then(before, e) => LastSwitchBounds(m, before, c);
    }
  }

  // ---- cpu_busy ----

  /** A core is never busy for longer than the time since attachment. */
  lemma {:induction false} BusyAtMostElapsed(m: Machine, tr: Trace<Switch>, c: nat)
    requires Legal(m, tr)
    ensures BusyTime(tr, c) <= (match LastSwitch(tr, c) case Some(t) => t - m.attach case None => 0)
    ensures BusyTime(tr, c) <= Clock(m, tr) - m.attach
  {
    LastSwitchBounds(m, tr, c);
    match tr {
      case Start =>
      case Then(before, e) =>
        BusyAtMostElapsed(m, before, c);
        LastSwitchBounds(m, before, c);
    }
  }

  /**
    `cpu_busy[c]` is exactly the observed non-idle time on core `c`, at most the elapsed time:
    the u64 never wraps.
   */
  lemma {:induction false} BusyIsExact(m: Machine, tr: Trace<Switch>, c: nat)
    requires Legal(m, tr) && |m.boot| <= 10240 && c < MAX_CORES
    ensures |Run(tr).busy| == MAX_CORES
    ensures Run(tr).busy[c] == BusyTime(tr, c) <= Clock(m, tr) - m.attach
  {
    BusyAtMostElapsed(m, tr, c);
    match tr {
      case Start =>
      case Then(before, e) =>
        BusyIsExact(m, before, c);
        DeltaIsClosed(m, before, e);
    }
  }

  // ---- cpu_time ----

  /** A PID's time is at most the elapsed time, not counting an interval still open. */
  lemma {:induction false} OnCpuAtMostElapsed(m: Machine, tr: Trace<Switch>, p: nat)
    requires Legal(m, tr) && |m.boot| <= 10240 && p > 0
    ensures OnCpuTime(tr, p) <= Clock(m, tr) - m.attach
    ensures p in Run(tr).start ==> OnCpuTime(tr, p) <= Run(tr).start[p] - m.attach
  {
    match tr {
      case Start =>
      case Then(before, e) =>
        OnCpuAtMostElapsed(m, before, p);
        StartTracksRunning(m, tr);
        DeltaIsClosed(m, before, e);
        LastSwitchBounds(m, tr, e.cpu);
    }
  }

  /**
    Every PID in `cpu_time` has exactly its observed on-CPU time; a PID with an accounted interval
    is missing only when the map is full. Key 0 is never there.
   */
  lemma {:induction false} TimeIsExact(m: Machine, tr: Trace<Switch>, p: nat)
    requires Legal(m, tr) && |m.boot| <= 10240
    ensures 0 !in Run(tr).time && |Run(tr).time| <= MAX_PIDS
    ensures p in Run(tr).time ==> Accounted(tr, p) && Run(tr).time[p] == OnCpuTime(tr, p) <= Clock(m, tr) - m.attach
    ensures p !in Run(tr).time && Accounted(tr, p) ==> |Run(tr).time| == MAX_PIDS
    ensures !Accounted(tr, p) && p > 0 ==> OnCpuTime(tr, p) == 0
  {
    match tr {
      case Start =>
      case Then(before, e) =>
        TimeIsExact(m, before, p);
        DeltaIsClosed(m, before, e);
        if p > 0 {
          OnCpuAtMostElapsed(m, tr, p);
        }
        LastSwitchBounds(m, tr, e.cpu);
    }
  }

  /** `cpu_time` only grows along a run. */
  lemma TimeMonotone(m: Machine, tr: Trace<Switch>, p: nat)
    requires tr.Then? && Legal(m, tr) && |m.boot| <= 10240
    requires p in Run(tr.before).time
    ensures p in Run(tr).time && Run(tr.before).time[p] <= Run(tr).time[p]
  {
    TimeIsExact(m, tr, p);
    TimeIsExact(m, tr.before, p);
  }

  /**
    Conservation: the per-core and the per-PID books agree. On a machine whose cores all have a
    `cpu_busy` slot, the sum of all PIDs' time is the sum of all cores' busy time, as long as
    `cpu_time` is not full; it is never more.
   */
  lemma {:induction false} BooksBalance(m: Machine, tr: Trace<Switch>)
    requires Legal(m, tr) && |m.boot| <= MAX_CORES
    ensures |Run(tr).busy| == MAX_CORES
    ensures Total(Run(tr).time) <= Sum(Run(tr).busy)
    ensures |Run(tr).time| < MAX_PIDS ==> Total(Run(tr).time) == Sum(Run(tr).busy)
  {
    match tr {
      case Start =>
        ZeroSum(MAX_CORES);
      case Then(before, e) =>
        BooksBalance(m, before);
        DeltaIsClosed(m, before, e);
        if e.prev > 0 && e.prev in Run(before).start {
          BusyStep(m, before, e);
          TimeStep(m, before, e);
        }
    }
  }

  lemma BusyStep(m: Machine, before: Trace<Switch>, e: Switch)
    requires Legal(m, Then(before, e)) && |m.boot| <= MAX_CORES
    requires e.prev > 0 && e.prev in Run(before).start
    ensures Sum(Run(Then(before, e)).busy) == Sum(Run(before).busy) + Closed(before, e)
  {
    DeltaIsClosed(m, before, e);
    BusyIsExact(m, before, e.cpu);
    BusyAtMostElapsed(m, Then(before, e), e.cpu);
    SumAddAt(Run(before).busy, e.cpu, Closed(before, e));
  }

  lemma TimeStep(m: Machine, before: Trace<Switch>, e: Switch)
    requires Legal(m, Then(before, e)) && |m.boot| <= MAX_CORES
    requires e.prev > 0 && e.prev in Run(before).start
    ensures Total(Run(Then(before, e)).time) <= Total(Run(before).time) + Closed(before, e)
    ensures |Run(before).time| < MAX_PIDS ==>
              Total(Run(Then(before, e)).time) == Total(Run(before).time) + Closed(before, e)
  {
    var time, time' := Run(before).time, Run(Then(before, e)).time;
    DeltaIsClosed(m, before, e);
    TimeIsExact(m, before, e.prev);
    TimeIsExact(m, Then(before, e), e.prev);
    if e.prev in time' {
      TotalUpdate(time, e.prev, time'[e.prev]);
    }
  }

  lemma {:induction false} ZeroSum(n: nat)
    ensures Sum(seq(n, _ => 0)) == 0
  {
    if n > 0 {
      ZeroSum(n - 1);
      assert seq(n, _ => 0)[..n - 1] == seq(n - 1, _ => 0);
    }
  }
}
