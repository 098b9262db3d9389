/**
  cpu_usage, user-space side: once per second it walks `cpu_time` from key 0, prints each PID's
  growth since the previous poll in whole microseconds, and does the same per core in whole
  milliseconds. Division truncates, so every poll may lose a fraction of a unit.
 */
module CpuUsagePoll {
  import opened Bpf
  import opened Walks
  import Kernel = CpuUsage

  const MAX_PIDS: nat := 65536
  const MAX_CPUS: nat := 256
  const NS_PER_US: nat := 1000
  const NS_PER_MS: nat := 1000000

  /** The previous values and the lines printed so far, each a key and a positive amount. */
  datatype Poll = Poll(prev: seq<u64>, lines: seq<(nat, nat)>)

  function Delta(cur: u64, prev: u64, unit: nat): nat
    requires unit > 0
  {
    Growth(cur, prev) / unit
  }

  function Visit(s: Poll, e: (nat, u64), unit: nat): Poll
    requires unit > 0
  {
    if e.0 >= |s.prev| then s else
      var d := Delta(e.1, s.prev[e.0], unit);
      Poll(s.prev[e.0 := e.1], if d > 0 then s.lines + [(e.0, d)] else s.lines)
  }

  /** The loop body as a visit of a walk. */
  function Visitor(unit: nat): (Poll, (nat, u64)) -> Poll
    requires unit > 0
  {
    (s, e) => Visit(s, e, unit)
  }

  lemma {:induction false} VisitKeepsSize(s: Poll, es: seq<(nat, u64)>, unit: nat)
    requires unit > 0
    ensures |VisitAll(Visitor(unit), s, es).prev| == |s.prev|
  {
    if es != [] {
      VisitKeepsSize(s, es[..|es| - 1], unit);
    }
  }

  /** A key with a slot has grown by a whole unit since its snapshot. */
  predicate Grown(prev: seq<u64>, key: nat, total: u64, unit: nat) {
    key < |prev| && total >= prev[key] + unit
  }

  /** The body of both loops: one line exactly when a whole unit was gained, and the snapshot brought up to date. */
  method PrintGrowth(key: nat, total: u64, prev: array<u64>, unit: nat, before: seq<(nat, nat)>)
    returns (lines: seq<(nat, nat)>)
    requires unit > 0
    modifies prev
    ensures Poll(prev[..], lines) == Visit(Poll(old(prev[..]), before), (key, total), unit)
    ensures Grown(old(prev[..]), key, total, unit) ==> lines == before + [(key, (total - old(prev[..])[key]) / unit)]
    ensures !Grown(old(prev[..]), key, total, unit) ==> lines == before
    ensures prev[..] == if key < prev.Length then old(prev[..])[key := total] else old(prev[..])
  {
    lines := before;
    if key < prev.Length {
      var delta := if total > prev[key] then (total - prev[key]) / unit else 0;
      if delta > 0 {
        lines := lines + [(key, delta)];
      }
      WholeUnits(total, prev[key], unit);
      prev[key] := total;
    }
  }

  /** The truncated growth is positive exactly when it is at least one unit. */
  lemma WholeUnits(cur: u64, prev: u64, unit: nat)
    requires unit > 0
    ensures Delta(cur, prev, unit) > 0 <==> cur >= prev + unit
    ensures cur >= prev ==> Delta(cur, prev, unit) == (cur - prev) / unit
  {
  }

  /** The per-PID loop: a read-only walk from key 0. */
  method PollPids(t: Table<nat, u64>, prev: array<u64>) returns (lines: seq<(nat, nat)>)
    requires t.Valid()
    modifies prev
    ensures Poll(prev[..], lines)
            == VisitAll(Visitor(NS_PER_US), Poll(old(prev[..]), []), t.entries[Ahead(t.entries, Some(0))..])
  {
    ghost var s, es := Poll(prev[..], []), t.entries;
    ghost var start := Ahead(es, Some(0));
    ghost var n := start;
    lines := [];
    var pid := 0;
    var next := t.GetNextKey(Some(pid));
    while next.Some?
      invariant start <= n <= |es| && Ahead(es, Some(pid)) == n
      invariant next == NextKey(es, Some(pid))
      invariant Poll(prev[..], lines) == VisitAll(Visitor(NS_PER_US), s, es[start..n])
      decreases |es| - n
    {
      RemoveAt(es, n);
      VisitOneMore(Visitor(NS_PER_US), s, es, start, n);
      pid := next.value;
      var total := t.Lookup(pid);
      if total.Some? {
        lines := PrintGrowth(pid, total.value, prev, NS_PER_US, lines);
      }
      n := n + 1;
      next := t.GetNextKey(Some(pid));
    }
    assert es[start..n] == es[start..];
  }

  /** The array map as a list of all its slots. */
  function Slots(busy: seq<u64>): seq<(nat, u64)> {
    seq(|busy|, i requires 0 <= i < |busy| => (i, busy[i]))
  }

  /** The per-core loop. */
  method PollCores(busy: seq<u64>, prev: array<u64>) returns (lines: seq<(nat, nat)>)
    requires |busy| == prev.Length == MAX_CPUS
    modifies prev
    ensures Poll(prev[..], lines) == VisitAll(Visitor(NS_PER_MS), Poll(old(prev[..]), []), Slots(busy))
  {
    ghost var s := Poll(prev[..], []);
    lines := [];
    for cpu := 0 to MAX_CPUS
      invariant Poll(prev[..], lines) == VisitAll(Visitor(NS_PER_MS), s, Slots(busy)[..cpu])
    {
      assert Slots(busy)[..cpu + 1][..cpu] == Slots(busy)[..cpu];
      lines := PrintGrowth(cpu, busy[cpu], prev, NS_PER_MS, lines);
    }
    assert Slots(busy)[..MAX_CPUS] == Slots(busy);
  }

  /** The amounts printed for key `k`, in order. */
  function AmountsOf(lines: seq<(nat, nat)>, k: nat): seq<nat> {
    if lines == [] then [] else
      var n := |lines| - 1;
      AmountsOf(lines[..n], k) + if lines[n].0 == k then [lines[n].1] else []
  }

  /** Their sum. */
  function Printed(lines: seq<(nat, nat)>, k: nat): nat {
    Sum(AmountsOf(lines, k))
  }

  lemma AmountsSnoc(lines: seq<(nat, nat)>, l: (nat, nat), k: nat)
    ensures AmountsOf(lines + [l], k) == AmountsOf(lines, k) + if l.0 == k then [l.1] else []
  {
    assert (lines + [l])[..|lines|] == lines;
  }

  lemma {:induction false} AmountsConcat(a: seq<(nat, nat)>, b: seq<(nat, nat)>, k: nat)
    ensures AmountsOf(a + b, k) == AmountsOf(a, k) + AmountsOf(b, k)
    decreases |b|
  {
    if b == [] {
      assert a + b == a;
    } else {
      var n := |b| - 1;
      AmountsConcat(a, b[..n], k);
      assert (a + b)[..|a + b| - 1] == a + b[..n];
    }
  }

  /** The part of a poll's state that concerns key `k`. */
  ghost predicate SameFor(a: Poll, b: Poll, k: nat) {
    && |a.prev| == |b.prev| && (k < |a.prev| ==> a.prev[k] == b.prev[k])
    && AmountsOf(a.lines, k) == AmountsOf(b.lines, k)
  }

  ghost function Same(k: nat): (Poll, Poll) -> bool {
    (a, b) => SameFor(a, b, k)
  }

  lemma VisitIsLocal(a: Poll, b: Poll, e: (nat, u64), unit: nat, k: nat)
    requires unit > 0 && SameFor(a, b, k)
    ensures e.0 == k ==> SameFor(Visit(a, e, unit), Visit(b, e, unit), k)
    ensures e.0 != k ==> SameFor(Visit(a, e, unit), b, k)
  {
    if e.0 < |a.prev| {
      AmountsSnoc(a.lines, (e.0, Delta(e.1, a.prev[e.0], unit)), k);
      AmountsSnoc(b.lines, (e.0, Delta(e.1, b.prev[e.0], unit)), k);
    }
  }

  lemma VisitorIsLocal(unit: nat, k: nat)
    requires unit > 0
    ensures Local(Visitor(unit), Same(k), k)
  {
    forall a: Poll, b: Poll, e: (nat, u64) | Same(k)(a, b)
      ensures e.0 == k ==> Same(k)(Visitor(unit)(a, e), Visitor(unit)(b, e))
      ensures e.0 != k ==> Same(k)(Visitor(unit)(a, e), b)
    {
      VisitIsLocal(a, b, e, unit, k);
    }
  }

  /** The amounts that one poll should print for a key: its growth in whole units, if there is one. */
  function Gain(prev: u64, cur: u64, unit: nat): seq<nat>
    requires unit > 0
  {
    if cur >= prev + unit then [(cur - prev) / unit] else []
  }

  /** After a poll a listed key with a slot is up to date, and its gain was printed, once. */
  lemma VisitListed(s: Poll, es: seq<(nat, u64)>, unit: nat, i: nat)
    requires unit > 0 && DistinctKeys(es) && i < |es| && es[i].0 < |s.prev|
    ensures (var r, k := VisitAll(Visitor(unit), s, es), es[i].0;
      && |r.prev| == |s.prev| && r.prev[k] == es[i].1
      && AmountsOf(r.lines, k) == AmountsOf(s.lines, k) + Gain(s.prev[k], es[i].1, unit))
  {
    var k := es[i].0;
    VisitKeepsSize(s, es, unit);
    VisitorIsLocal(unit, k);
    VisitListedOnce(Visitor(unit), Same(k), s, es, i);
    VisitGains(s, es[i], unit);
  }

  lemma VisitGains(s: Poll, e: (nat, u64), unit: nat)
    requires unit > 0 && e.0 < |s.prev|
    ensures Visit(s, e, unit).prev[e.0] == e.1
    ensures AmountsOf(Visit(s, e, unit).lines, e.0) == AmountsOf(s.lines, e.0) + Gain(s.prev[e.0], e.1, unit)
  {
    WholeUnits(e.1, s.prev[e.0], unit);
    AmountsSnoc(s.lines, (e.0, Delta(e.1, s.prev[e.0], unit)), e.0);
  }

  /** For a key that is not listed, or has no slot, nothing is printed. */
  lemma {:induction false} VisitOther(s: Poll, es: seq<(nat, u64)>, unit: nat, k: nat)
    requires unit > 0 && (k < |s.prev| ==> forall i | 0 <= i < |es| :: es[i].0 != k)
    ensures SameFor(VisitAll(Visitor(unit), s, es), s, k)
  {
    if es != [] {
      var n := |es| - 1;
      VisitOther(s, es[..n], unit, k);
      var r := VisitAll(Visitor(unit), s, es[..n]);
      if es[n].0 < |s.prev| {
        AmountsSnoc(r.lines, (es[n].0, Delta(es[n].1, r.prev[es[n].0], unit)), k);
      }
    }
  }

  /** What a poll prints does not depend on what was printed before, and is added to it. */
  lemma {:induction false} VisitAppends(s: Poll, es: seq<(nat, u64)>, unit: nat)
    requires unit > 0
    ensures (var r, r' := VisitAll(Visitor(unit), s, es), VisitAll(Visitor(unit), s.(lines := []), es);
      r.prev == r'.prev && r.lines == s.lines + r'.lines)
  {
    if es != [] {
      VisitAppends(s, es[..|es| - 1], unit);
    }
  }

  /** Every printed amount is positive, and every printed key has a slot. */
  lemma {:induction false} LinesArePositive(s: Poll, es: seq<(nat, u64)>, unit: nat)
    requires unit > 0 && forall i | 0 <= i < |s.lines| :: s.lines[i].1 > 0 && s.lines[i].0 < |s.prev|
    ensures (var r := VisitAll(Visitor(unit), s, es);
      |r.prev| == |s.prev| && forall i | 0 <= i < |r.lines| :: r.lines[i].1 > 0 && r.lines[i].0 < |s.prev|)
  {
    if es != [] {
      LinesArePositive(s, es[..|es| - 1], unit);
    }
  }

  lemma DeltaTruncates(cur: u64, prev: u64, unit: nat)
    requires unit > 0 && prev <= cur
    ensures unit * Delta(cur, prev, unit) <= cur - prev <= unit * Delta(cur, prev, unit) + unit - 1
  {
  }

  // ---- Whole runs: switches interleaved with polls ----

  datatype Op = Sched(e: Kernel.Switch) | PollNow(entries: seq<(nat, u64)>)

  function SchedOf(ops: Trace<Op>): Trace<Kernel.Switch> {
    match ops
    case Start => Start
    case Then(before, Sched(e)) => Then(SchedOf(before), e)
    case Then(before, PollNow(_)) => SchedOf(before)
  }

  /** Every poll walks some listing, in any order, of the map as it is. */
  ghost predicate Legal(m: Kernel.Machine, ops: Trace<Op>) {
    && Kernel.Legal(m, SchedOf(ops))
    && match ops
       case Start => true
       case Then(before, op) =>
         && Legal(m, before)
         && (op.PollNow? ==> Lists(op.entries, Kernel.Run(SchedOf(before)).time))
  }

  function Polls(ops: Trace<Op>): nat {
    match ops
    case Start => 0
    case Then(before, op) => Polls(before) + if op.PollNow? then 1 else 0
  }

  function PidPoll(ops: Trace<Op>): (r: Poll)
    ensures |r.prev| == MAX_PIDS
  {
    match ops
    case Start => Poll(seq(MAX_PIDS, _ => 0), [])
    case Then(before, Sched(_)) => PidPoll(before)
    case Then(before, PollNow(es)) =>
      VisitKeepsSize(PidPoll(before), es[Ahead(es, Some(0))..], NS_PER_US);
      VisitAll(Visitor(NS_PER_US), PidPoll(before), es[Ahead(es, Some(0))..])
  }

  function CorePoll(ops: Trace<Op>): (r: Poll)
    ensures |r.prev| == MAX_CPUS
  {
    match ops
    case Start => Poll(seq(MAX_CPUS, _ => 0), [])
    case Then(before, Sched(_)) => CorePoll(before)
    case Then(before, PollNow(_)) =>
      var slots := Slots(Kernel.Run(SchedOf(before)).busy);
      VisitKeepsSize(CorePoll(before), slots, NS_PER_MS);
      VisitAll(Visitor(NS_PER_MS), CorePoll(before), slots)
  }

  /** The switches up to the last poll. */
  function UpToLastPoll(ops: Trace<Op>): Trace<Kernel.Switch> {
    match ops
    case Start => Start
    case Then(before, Sched(_)) => UpToLastPoll(before)
    case Then(before, PollNow(_)) => SchedOf(before)
  }

  /** The lines that a poll prints, as `PollPids` and `PollCores` return them. */
  function PidLines(before: Trace<Op>, es: seq<(nat, u64)>): seq<(nat, nat)> {
    VisitAll(Visitor(NS_PER_US), PidPoll(before).(lines := []), es[Ahead(es, Some(0))..]).lines
  }

  function CoreLines(before: Trace<Op>): seq<(nat, nat)> {
    VisitAll(Visitor(NS_PER_MS), CorePoll(before).(lines := []), Slots(Kernel.Run(SchedOf(before)).busy)).lines
  }

  lemma PollTruncates(sum: nat, prev: u64, cur: u64, unit: nat, polls: nat)
    requires unit > 0 && prev <= cur
    requires unit * sum <= prev <= unit * sum + (unit - 1) * polls
    ensures var sum' := sum + Delta(cur, prev, unit);
            unit * sum' <= cur <= unit * sum' + (unit - 1) * (polls + 1)
  {
    var d := Delta(cur, prev, unit);
    DeltaTruncates(cur, prev, unit);
    assert unit * (sum + d) == unit * sum + unit * d;
    assert (unit - 1) * (polls + 1) == (unit - 1) * polls + (unit - 1);
  }

  lemma PidPollStep(m: Kernel.Machine, before: Trace<Op>, es: seq<(nat, u64)>, p: nat)
    requires Legal(m, Then(before, PollNow(es))) && |m.boot| <= 10240
    ensures (var s, r, cur := PidPoll(before), PidPoll(Then(before, PollNow(es))), Value(Kernel.Run(SchedOf(before)).time, p);
      && r.lines == s.lines + PidLines(before, es)
      && (p >= MAX_PIDS ==> AmountsOf(PidLines(before, es), p) == [])
      && (p < MAX_PIDS && s.prev[p] <= cur ==>
            r.prev[p] == cur && AmountsOf(PidLines(before, es), p) == Gain(s.prev[p], cur, NS_PER_US)))
  {
    var time := Kernel.Run(SchedOf(before)).time;
    Kernel.TimeIsExact(m, SchedOf(before), p);
    WalkFromZero(es, time);
    assert es[0..] == es;
    VisitAppends(PidPoll(before), es, NS_PER_US);
    var s := PidPoll(before).(lines := []);
    if p in time && p < MAX_PIDS {
      var i :| 0 <= i < |es| && es[i].0 == p;
      VisitListed(s, es, NS_PER_US, i);
    } else {
      VisitOther(s, es, NS_PER_US, p);
    }
  }

  /** The snapshot of a PID is its time at the last poll, which its time now has not fallen below. */
  lemma {:induction false} SnapshotIsLastPolled(m: Kernel.Machine, ops: Trace<Op>, p: nat)
    requires Legal(m, ops) && |m.boot| <= 10240 && p < MAX_PIDS
    ensures PidPoll(ops).prev[p] == Value(Kernel.Run(UpToLastPoll(ops)).time, p) <= Value(Kernel.Run(SchedOf(ops)).time, p)
  {
    match ops {
      case Start =>
      case Then(before, Sched(e)) =>
        SnapshotIsLastPolled(m, before, p);
        if p in Kernel.Run(SchedOf(before)).time {
          Kernel.TimeMonotone(m, SchedOf(ops), p);
        }
      case Then(before, PollNow(es)) =>
        SnapshotIsLastPolled(m, before, p);
        PidPollStep(m, before, es, p);
    }
  }

  /**
    What one poll of any run prints for a PID, whatever the order of the walk: its growth since the
    last poll in whole microseconds, once, if it is below 65536 and gained at least one; otherwise nothing.
   */
  lemma PidLinesAreExact(m: Kernel.Machine, before: Trace<Op>, es: seq<(nat, u64)>, p: nat)
    requires Legal(m, Then(before, PollNow(es))) && |m.boot| <= 10240
    ensures (var cur, last := Value(Kernel.Run(SchedOf(before)).time, p), Value(Kernel.Run(UpToLastPoll(before)).time, p);
      AmountsOf(PidLines(before, es), p) == if p < 65536 then Gain(last, cur, 1000) else [])
  {
    PidPollStep(m, before, es, p);
    if p < MAX_PIDS {
      SnapshotIsLastPolled(m, before, p);
    }
  }

  /** Likewise for a core: its busy time since the last poll in whole milliseconds, once, if there is at least one. */
  lemma CoreLinesAreExact(m: Kernel.Machine, before: Trace<Op>, es: seq<(nat, u64)>, c: nat)
    requires Legal(m, Then(before, PollNow(es))) && |m.boot| <= 10240
    ensures c >= 256 ==> AmountsOf(CoreLines(before), c) == []
    ensures c < 256 ==>
              && Kernel.BusyTime(UpToLastPoll(before), c) <= Kernel.BusyTime(SchedOf(before), c) < U64
              && AmountsOf(CoreLines(before), c)
                 == Gain(Kernel.BusyTime(UpToLastPoll(before), c), Kernel.BusyTime(SchedOf(before), c), 1000000)
  {
    CorePollStep(m, before, es, c);
    if c < MAX_CPUS {
      CoreSnapshotIsLastPolled(m, before, c);
    }
  }

  /** No poll prints a zero. */
  lemma PollLinesArePositive(before: Trace<Op>, es: seq<(nat, u64)>)
    ensures forall i | 0 <= i < |PidLines(before, es)| :: PidLines(before, es)[i].1 > 0
    ensures forall i | 0 <= i < |CoreLines(before)| :: CoreLines(before)[i].1 > 0
  {
    LinesArePositive(PidPoll(before).(lines := []), es[Ahead(es, Some(0))..], NS_PER_US);
    LinesArePositive(CorePoll(before).(lines := []), Slots(Kernel.Run(SchedOf(before)).busy), NS_PER_MS);
  }

  lemma CorePollStep(m: Kernel.Machine, before: Trace<Op>, es: seq<(nat, u64)>, c: nat)
    requires Legal(m, Then(before, PollNow(es))) && |m.boot| <= 10240
    ensures (var s, r := CorePoll(before), CorePoll(Then(before, PollNow(es)));
      && r.lines == s.lines + CoreLines(before)
      && (c >= MAX_CPUS ==> AmountsOf(CoreLines(before), c) == [])
      && (c < MAX_CPUS ==>
            && r.prev[c] == Kernel.BusyTime(SchedOf(before), c)
            && AmountsOf(CoreLines(before), c) == Gain(s.prev[c], r.prev[c], NS_PER_MS)))
  {
    var slots := Slots(Kernel.Run(SchedOf(before)).busy);
    VisitAppends(CorePoll(before), slots, NS_PER_MS);
    if c < MAX_CPUS {
      Kernel.BusyIsExact(m, SchedOf(before), c);
      VisitListed(CorePoll(before).(lines := []), slots, NS_PER_MS, c);
    } else {
      VisitOther(CorePoll(before).(lines := []), slots, NS_PER_MS, c);
    }
  }

  lemma {:induction false} CoreSnapshotIsLastPolled(m: Kernel.Machine, ops: Trace<Op>, c: nat)
    requires Legal(m, ops) && |m.boot| <= 10240 && c < MAX_CPUS
    ensures CorePoll(ops).prev[c] == Kernel.BusyTime(UpToLastPoll(ops), c) <= Kernel.BusyTime(SchedOf(ops), c)
  {
    match ops {
      case Start =>
      case Then(before, Sched(_)) => CoreSnapshotIsLastPolled(m, before, c);
      case Then(before, PollNow(es)) => CorePollStep(m, before, es, c);
    }
  }

  lemma PollPrints(lines: seq<(nat, nat)>, more: seq<(nat, nat)>, k: nat, prev: u64, cur: u64, unit: nat, polls: nat)
    requires unit > 0 && prev <= cur && AmountsOf(more, k) == Gain(prev, cur, unit)
    requires unit * Printed(lines, k) <= prev <= unit * Printed(lines, k) + (unit - 1) * polls
    ensures unit * Printed(lines + more, k) <= cur <= unit * Printed(lines + more, k) + (unit - 1) * (polls + 1)
  {
    AmountsConcat(lines, more, k);
    SumConcat(AmountsOf(lines, k), AmountsOf(more, k));
    WholeUnits(cur, prev, unit);
    SumSnoc([], Delta(cur, prev, unit));
    assert [] + [Delta(cur, prev, unit)] == [Delta(cur, prev, unit)];
    PollTruncates(Printed(lines, k), prev, cur, unit, polls);
  }

  /**
    End to end for CPU time: after any run with `n` polls, 1000 times the microseconds printed for
    a PID below 65536 is at most its last polled nanoseconds, and falls short by at most 999 per poll.
    At a poll that is the map's current value, for every PID: the walk from key 0 misses none.
   */
  lemma {:induction false} PrintedMicroseconds(m: Kernel.Machine, ops: Trace<Op>, p: nat)
    requires Legal(m, ops) && |m.boot| <= 10240 && p < MAX_PIDS
    ensures (var sum, last := Printed(PidPoll(ops).lines, p), Value(Kernel.Run(UpToLastPoll(ops)).time, p);
      1000 * sum <= last <= 1000 * sum + 999 * Polls(ops))
  {
    SnapshotIsLastPolled(m, ops, p);
    match ops {
      case Start =>
      case Then(before, Sched(e)) => PrintedMicroseconds(m, before, p);
      case Then(before, PollNow(es)) =>
        PrintedMicroseconds(m, before, p);
        SnapshotIsLastPolled(m, before, p);
        PidPollStep(m, before, es, p);
        PollPrints(PidPoll(before).lines, PidLines(before, es), p, PidPoll(before).prev[p],
                   PidPoll(ops).prev[p], NS_PER_US, Polls(before));
    }
  }

  /** End to end for cores: the same bound for the milliseconds printed for a core, against its true busy time. */
  lemma {:induction false} PrintedMilliseconds(m: Kernel.Machine, ops: Trace<Op>, c: nat)
    requires Legal(m, ops) && |m.boot| <= 10240 && c < MAX_CPUS
    ensures (var sum, last := Printed(CorePoll(ops).lines, c), Kernel.BusyTime(UpToLastPoll(ops), c);
      1000000 * sum <= last <= 1000000 * sum + 999999 * Polls(ops))
  {
    CoreSnapshotIsLastPolled(m, ops, c);
    match ops {
      case Start =>
      case Then(before, Sched(e)) => PrintedMilliseconds(m, before, c);
      case Then(before, PollNow(es)) =>
        PrintedMilliseconds(m, before, c);
        CoreSnapshotIsLastPolled(m, before, c);
        CorePollStep(m, before, es, c);
        PollPrints(CorePoll(before).lines, CoreLines(before), c, CorePoll(before).prev[c],
                   CorePoll(ops).prev[c], NS_PER_MS, Polls(before));
    }
  }
}
