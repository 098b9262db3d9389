/**
  disk_io_sched: block I/O completion latency. An issue stores a timestamp under (PID << 32) | CPU;
  a completion with a stored timestamp adds the difference to a total, a count, a maximum and the
  per-PID maps, unless it exceeds ten seconds. The statistics do not assume a monotone clock: a
  timestamp from the future wraps to a huge difference and meets the same cutoff. A request has an
  identity of its own here, which the tool does not see, so that what the tool records can be
  compared with what really happened.
 */
module DiskIoSched {
  import opened Bpf
  import S = StartStop

  const MAX_ENTRIES: nat := 10240
  const STATS_SIZE: nat := 8
  /** Ten seconds in nanoseconds. */
  const CUTOFF: nat := 10_000_000_000
  /** The largest count for which the total provably fits in a u64. */
  const SAFE_COUNT: nat := 1844674407

  datatype Event =
    | Issue(rq: nat, pid: u32, cpu: u32, now: u64)
    | Complete(rq: nat, pid: u32, cpu: u32, now: u64)

  datatype Probe = Probe(issue: map<u64, u64>, stats: seq<u64>, latency: map<nat, u64>, count: map<nat, u64>)

  /** (PID << 32) | CPU. */
  function Key(pid: u32, cpu: u32): (k: u64) {
    pid * 0x1_0000_0000 + cpu
  }

  lemma KeyIsInjective(p: u32, c: u32, p': u32, c': u32)
    ensures Key(p, c) == Key(p', c') <==> p == p' && c == c'
  {
  }

  function SetMax(a: seq<u64>, i: nat, d: u64): (r: seq<u64>)
    ensures |r| == |a|
  {
    if i < |a| && d > a[i] then a[i := d] else a
  }

  /** The maps of the kernel side. */
  class DiskIoSchedProbe {
    var rqIssueTs: map<u64, u64>
    var ioLatencyStats: seq<u64>
    var pidIoLatency: map<nat, u64>
    var pidIoCount: map<nat, u64>

    function State(): Probe
      reads this
    {
      Probe(rqIssueTs, ioLatencyStats, pidIoLatency, pidIoCount)
    }

    constructor ()
      ensures State() == Loaded()
    {
      rqIssueTs, ioLatencyStats, pidIoLatency, pidIoCount := map[], seq(STATS_SIZE, _ => 0), map[], map[];
    }

    method HandleRqIssue(pid: u32, cpu: u32, ts: u64)
      modifies this
      ensures State() == OnIssue(old(State()), pid, cpu, ts)
    {
      rqIssueTs := Put(rqIssueTs, MAX_ENTRIES, Key(pid, cpu), ts);
    }

    method HandleRqComplete(pid: u32, cpu: u32, now: u64)
      modifies this
      ensures State() == OnComplete(old(State()), pid, cpu, now)
    {
      var key := Key(pid, cpu);
      if key !in rqIssueTs {
        return;
      }
      var delta := SubU64(now, rqIssueTs[key]);
      if delta > CUTOFF {
        rqIssueTs := rqIssueTs - {key};
        return;
      }
      ioLatencyStats := AddAt(ioLatencyStats, 0, delta);
      ioLatencyStats := AddAt(ioLatencyStats, 1, 1);
      if 2 < |ioLatencyStats| {
        if delta > ioLatencyStats[2] {
          ioLatencyStats := ioLatencyStats[2 := delta];
        }
      }
      assert ioLatencyStats == SetMax(AddAt(AddAt(old(ioLatencyStats), 0, delta), 1, 1), 2, delta);
      if pid in pidIoLatency {
        pidIoLatency := pidIoLatency[pid := AddU64(pidIoLatency[pid], delta)];
      } else {
        pidIoLatency := Put(pidIoLatency, MAX_ENTRIES, pid, delta);
      }
      if pid in pidIoCount {
        pidIoCount := pidIoCount[pid := AddU64(pidIoCount[pid], 1)];
      } else {
        pidIoCount := Put(pidIoCount, MAX_ENTRIES, pid, 1);
      }
      rqIssueTs := rqIssueTs - {key};
    }
  }

  function Loaded(): Probe {
    Probe(map[], seq(STATS_SIZE, _ => 0), map[], map[])
  }

  function OnIssue(s: Probe, pid: u32, cpu: u32, now: u64): Probe {
    s.(issue := Put(s.issue, MAX_ENTRIES, Key(pid, cpu), now))
  }

  /** The latency that a completion accounts for, if any. */
  function Latency(s: Probe, pid: u32, cpu: u32, now: u64): (r: Option<u64>)
    ensures r.Some? ==> r.value <= CUTOFF
  {
    var key := Key(pid, cpu);
    if key !in s.issue then None else
      var delta := SubU64(now, s.issue[key]);
      if delta > CUTOFF then None else Some(delta)
  }

  function OnComplete(s: Probe, pid: u32, cpu: u32, now: u64): Probe {
    var rest := s.issue - {Key(pid, cpu)};
    match Latency(s, pid, cpu, now)
    case None => s.(issue := rest)
    case Some(d) =>
      Probe(rest, SetMax(AddAt(AddAt(s.stats, 0, d), 1, 1), 2, d),
            Bump(s.latency, MAX_ENTRIES, pid, d), Bump(s.count, MAX_ENTRIES, pid, 1))
  }

  function Run(tr: Trace<Event>): Probe {
    match tr
    case Start => Loaded()
    case Then(before, Issue(_, pid, cpu, now)) => OnIssue(Run(before), pid, cpu, now)
    case Then(before, Complete(_, pid, cpu, now)) => OnComplete(Run(before), pid, cpu, now)
  }

  /** The latency that the last event of a trace accounts for, if any. */
  function Accepted(before: Trace<Event>, e: Event): (r: Option<u64>)
    ensures r.Some? ==> r.value <= CUTOFF
  {
    if e.Complete? then Latency(Run(before), e.pid, e.cpu, e.now) else None
  }

  /** All accepted latencies, in order. */
  function Latencies(tr: Trace<Event>): seq<nat> {
    match tr
    case Start => []
    case Then(before, e) =>
      match Accepted(before, e)
      case None => Latencies(before)
      case Some(d) => Latencies(before) + [d]
  }

  /** The accepted latencies of one PID. */
  function LatenciesOf(tr: Trace<Event>, p: nat): seq<nat> {
    match tr
    case Start => []
    case Then(before, e) =>
      if Accepted(before, e).Some? && e.pid == p
      then LatenciesOf(before, p) + [Accepted(before, e).value]
      else LatenciesOf(before, p)
  }

  function Max(s: seq<nat>): nat {
    if s == [] then 0 else
      var m := Max(s[..|s| - 1]);
      if s[|s| - 1] > m then s[|s| - 1] else m
  }

  lemma {:induction false} MaxProperties(s: seq<nat>)
    ensures forall i | 0 <= i < |s| :: s[i] <= Max(s)
    ensures Max(s) <= Sum(s) <= |s| * Max(s)
    ensures s != [] ==> Max(s) in s
  {
    if s != [] {
      var n, m := |s| - 1, Max(s[..|s| - 1]);
      MaxProperties(s[..n]);
      assert forall i | 0 <= i < n :: s[i] == s[..n][i];
      ScaleUp(n, m, Max(s));
      assert (n + 1) * Max(s) == n * Max(s) + Max(s);
    }
  }

  lemma ScaleUp(n: nat, a: nat, b: nat)
    requires a <= b
    ensures n * a <= n * b
  {
  }

  lemma {:induction false} LatenciesMeetCutoff(tr: Trace<Event>)
    ensures forall i | 0 <= i < |Latencies(tr)| :: Latencies(tr)[i] <= CUTOFF
  {
    match tr {
      case Start =>
      case Then(before, e) => LatenciesMeetCutoff(before);
    }
  }

  /** In every run the three statistics are the total (modulo 2^64), the number (modulo 2^64) and the maximum of the accepted latencies. */
  lemma {:induction false} StatsSummarise(tr: Trace<Event>)
    ensures |Run(tr).stats| == STATS_SIZE
    ensures Run(tr).stats[0] == Wrap(Sum(Latencies(tr)))
    ensures Run(tr).stats[1] == Wrap(|Latencies(tr)|)
    ensures Run(tr).stats[2] == Max(Latencies(tr))
  {
    match tr {
      case Start =>
      case Then(before, e) =>
        StatsSummarise(before);
        if Accepted(before, e).Some? {
          StatsAfter(Run(before).stats, Latencies(before), Accepted(before, e).value);
        }
    }
  }

  /** The other slots are never used. */
  lemma {:induction false} OtherStatsStayZero(tr: Trace<Event>)
    ensures |Run(tr).stats| == STATS_SIZE && forall i | 3 <= i < STATS_SIZE :: Run(tr).stats[i] == 0
  {
    match tr {
      case Start =>
      case Then(before, e) => OtherStatsStayZero(before);
    }
  }

  lemma StatsAfter(stats: seq<u64>, ls: seq<nat>, d: u64)
    requires |stats| == STATS_SIZE
    requires stats[0] == Wrap(Sum(ls)) && stats[1] == Wrap(|ls|) && stats[2] == Max(ls)
    ensures var stats' := SetMax(AddAt(AddAt(stats, 0, d), 1, 1), 2, d);
            stats'[0] == Wrap(Sum(ls + [d])) && stats'[1] == Wrap(|ls + [d]|) && stats'[2] == Max(ls + [d])
  {
    SumSnoc(ls, d);
    WrapAdd(Sum(ls), d, Sum(ls + [d]));
    WrapAdd(|ls|, 1, |ls + [d]|);
    assert (ls + [d])[..|ls|] == ls;
  }

  /**
    max <= total <= count * max and max <= 10^10 for the recorded statistics, and the total is the
    true sum, as long as at most 1844674407 completions were accepted. The bound on the maximum
    holds in every run.
   */
  lemma StatsAreConsistent(tr: Trace<Event>)
    ensures |Run(tr).stats| == STATS_SIZE && Run(tr).stats[2] <= 10_000_000_000
    ensures |Latencies(tr)| <= 1844674407 ==>
              var total, count, max := Run(tr).stats[0], Run(tr).stats[1], Run(tr).stats[2];
              total == Sum(Latencies(tr)) && count == |Latencies(tr)| && max <= total <= |Latencies(tr)| * max
  {
    var ls := Latencies(tr);
    StatsSummarise(tr);
    LatenciesMeetCutoff(tr);
    NoWrap(ls);
    if |ls| <= SAFE_COUNT {
      MaxProperties(ls);
    }
  }

  /** The total is exact if and only if the accepted latencies add up to less than 2^64. */
  lemma TotalIsExactIff(tr: Trace<Event>)
    ensures |Run(tr).stats| == STATS_SIZE
    ensures Run(tr).stats[0] == Sum(Latencies(tr)) <==> Sum(Latencies(tr)) < U64
  {
    StatsSummarise(tr);
  }

  lemma NoWrap(ls: seq<nat>)
    requires forall i | 0 <= i < |ls| :: ls[i] <= CUTOFF
    ensures Max(ls) <= CUTOFF
    ensures |ls| <= SAFE_COUNT ==> Sum(ls) < U64 && |ls| < U64
  {
    MaxProperties(ls);
    ScaleUp(|ls|, Max(ls), CUTOFF);
  }

  // ---- Issue and completion paired by the history ----

  /** The trace as the timestamp map sees it. */
  function Marks(tr: Trace<Event>): Trace<S.Event> {
    match tr
    case Start => Start
    case Then(before, Issue(_, pid, cpu, now)) => Then(Marks(before), S.Begin(Key(pid, cpu), now))
    case Then(before, Complete(_, pid, cpu, now)) => Then(Marks(before), S.End(Key(pid, cpu), now))
  }

  /** Both handlers do to their map what the accumulator does to its own. */
  lemma StepStores(s: Probe, acc: S.State, pid: u32, cpu: u32, now: u64)
    requires s.issue == acc.start
    ensures OnIssue(s, pid, cpu, now).issue == S.OnBegin(acc, Key(pid, cpu), now).start
    ensures OnComplete(s, pid, cpu, now).issue == S.OnEnd(acc, Key(pid, cpu), now).start
  {
  }

  lemma {:induction false} IssueIsStart(tr: Trace<Event>)
    ensures Run(tr).issue == S.Run(Marks(tr)).start
  {
    match tr {
      case Start =>
      case Then(before, e) =>
        IssueIsStart(before);
        StepStores(Run(before), S.Run(Marks(before)), e.pid, e.cpu, e.now);
    }
  }

  /** The latest issue by this PID on this CPU, if nothing was completed there since. */
  function Pending(tr: Trace<Event>, pid: u32, cpu: u32): Option<u64> {
    match tr
    case Start => None
    case Then(before, e) =>
      if e.pid != pid || e.cpu != cpu then Pending(before, pid, cpu) else if e.Issue? then Some(e.now) else None
  }

  lemma {:induction false} PendingIsOpen(tr: Trace<Event>, pid: u32, cpu: u32)
    ensures Pending(tr, pid, cpu) == S.Open(Marks(tr), Key(pid, cpu))
  {
    match tr {
      case Start =>
      case Then(before, e) =>
        PendingIsOpen(before, pid, cpu);
        KeyIsInjective(e.pid, e.cpu, pid, cpu);
    }
  }

  /** The latency that the history calls for. */
  function Expected(before: Trace<Event>, e: Event): Option<u64> {
    if e.Issue? then None else
    match Pending(before, e.pid, e.cpu)
    case None => None
    case Some(t) => if SubU64(e.now, t) > 10_000_000_000 then None else Some(SubU64(e.now, t))
  }

  /** In every run, even when the map is full, an accepted latency runs from the latest pending issue under its PID and CPU. */
  lemma AcceptedIsSincePending(before: Trace<Event>, e: Event)
    ensures Accepted(before, e).Some? ==> Accepted(before, e) == Expected(before, e)
  {
    IssueIsStart(before);
    PendingIsOpen(before, e.pid, e.cpu);
    S.StartIsOpen(Marks(before), Key(e.pid, e.cpu));
  }

  function ExpectedLatencies(tr: Trace<Event>): seq<nat> {
    match tr
    case Start => []
    case Then(before, e) =>
      match Expected(before, e)
      case None => ExpectedLatencies(before)
      case Some(d) => ExpectedLatencies(before) + [d]
  }

  /** While never more issues are pending than the map has entries, exactly the latencies of the history are accepted. */
  lemma {:induction false} LatenciesAreExpected(tr: Trace<Event>)
    requires S.Roomy(Marks(tr))
    ensures Latencies(tr) == ExpectedLatencies(tr)
  {
    match tr {
      case Start =>
      case Then(before, e) =>
        LatenciesAreExpected(before);
        AcceptedIsExpected(before, e);
    }
  }

  lemma AcceptedIsExpected(before: Trace<Event>, e: Event)
    requires S.Roomy(Marks(before))
    ensures Accepted(before, e) == Expected(before, e)
  {
    IssueIsStart(before);
    PendingIsOpen(before, e.pid, e.cpu);
    S.StartIsOpen(Marks(before), Key(e.pid, e.cpu));
    S.OpenIsStored(Marks(before), Key(e.pid, e.cpu));
  }

  /** So the statistics are the sum, the number and the maximum of the latencies of the history. */
  lemma StatsAreHistory(tr: Trace<Event>)
    requires S.Roomy(Marks(tr))
    ensures |Run(tr).stats| == STATS_SIZE
    ensures Run(tr).stats[0] == Wrap(Sum(ExpectedLatencies(tr)))
    ensures Run(tr).stats[1] == Wrap(|ExpectedLatencies(tr)|)
    ensures Run(tr).stats[2] == Max(ExpectedLatencies(tr))
  {
    LatenciesAreExpected(tr);
    StatsSummarise(tr);
  }

  datatype Origin = Origin(pid: u32, cpu: u32, now: u64)

  /** Where and when request `rq` was last issued. */
  function IssueOf(tr: Trace<Event>, rq: nat): Option<Origin> {
    match tr
    case Start => None
    case Then(before, e) =>
      if e.Issue? && e.rq == rq then Some(Origin(e.pid, e.cpu, e.now)) else IssueOf(before, rq)
  }

  lemma {:induction false} IssueInPast(t0: u64, tr: Trace<Event>, rq: nat)
    requires S.Monotone(t0, Marks(tr)) && IssueOf(tr, rq).Some?
    ensures (var o := IssueOf(tr, rq).value;
      && o.now <= S.Clock(t0, Marks(tr))
      && (Pending(tr, o.pid, o.cpu).Some? ==> o.now <= Pending(tr, o.pid, o.cpu).value))
  {
    match tr {
      case Then(before, e) =>
        if IssueOf(before, rq).Some? {
          IssueInPast(t0, before, rq);
        }
    }
  }

  /**
    On a monotone clock, an accepted latency is at most the true duration of the request that
    completes if and only if that request was issued no later than the latest pending issue of the
    completing PID and CPU, and equal to it if and only if it was issued at that time.
   */
  lemma AcceptedAtMostTrueIff(t0: u64, before: Trace<Event>, e: Event)
    requires S.Monotone(t0, Marks(Then(before, e))) && Accepted(before, e).Some? && IssueOf(before, e.rq).Some?
    ensures Pending(before, e.pid, e.cpu).Some? && IssueOf(before, e.rq).value.now <= e.now
    ensures (var d, pending, issued :=
               Accepted(before, e).value, Pending(before, e.pid, e.cpu).value, IssueOf(before, e.rq).value.now;
      && (d <= e.now - issued <==> issued <= pending)
      && (d == e.now - issued <==> issued == pending))
  {
    AcceptedIsSincePending(before, e);
    IssueInPast(t0, before, e.rq);
    PendingIsOpen(before, e.pid, e.cpu);
    S.OpenInPast(t0, Marks(before), Key(e.pid, e.cpu));
  }

  /** A request that completes under the PID and CPU that issued it meets that condition. */
  lemma SameKeyAtMostTrue(t0: u64, before: Trace<Event>, e: Event)
    requires S.Monotone(t0, Marks(Then(before, e))) && Accepted(before, e).Some?
    requires IssueOf(before, e.rq).Some?
    requires IssueOf(before, e.rq).value.pid == e.pid && IssueOf(before, e.rq).value.cpu == e.cpu
    ensures IssueOf(before, e.rq).value.now <= e.now
    ensures Accepted(before, e).value <= e.now - IssueOf(before, e.rq).value.now
  {
    AcceptedAtMostTrueIff(t0, before, e);
    IssueInPast(t0, before, e.rq);
  }

  /** A request that completes under another PID and CPU can be charged with a longer time than its own: 6 for 1. */
  lemma OtherKeyOvershoots()
    ensures exists before: Trace<Event>, e: Event ::
              && S.Monotone(0, Marks(Then(before, e)))
              && Accepted(before, e) == Some(6) && IssueOf(before, e.rq).Some? && IssueOf(before, e.rq).value.now == e.now - 1
  {
    var t1 := Then(Start, Issue(0, 1, 0, 0));
    var t2 := Then(t1, Issue(1, 2, 1, 5));
    var e := Complete(1, 1, 0, 6);
    var k1, k2 := Key(1, 0), Key(2, 1);
    assert Run(t1).issue == map[k1 := 0];
    assert Run(t2).issue == map[k1 := 0, k2 := 5];
    assert S.Monotone(0, Marks(Then(t2, e)));
  }

  // ---- One completion more than that ----

  /** Two requests of different PIDs, both issued at `t` and completed at `u`. */
  function Round(tr: Trace<Event>, t: u64, u: u64): Trace<Event> {
    Then(Then(Then(Then(tr, Issue(0, 1, 0, t)), Issue(1, 2, 0, t)), Complete(0, 1, 0, u)), Complete(1, 2, 0, u))
  }

  lemma IssueIsStored(tr: Trace<Event>, rq: nat, pid: u32, cpu: u32, t: u64)
    requires |Run(tr).issue| < MAX_ENTRIES
    ensures Run(Then(tr, Issue(rq, pid, cpu, t))).issue == Run(tr).issue[Key(pid, cpu) := t]
    ensures Latencies(Then(tr, Issue(rq, pid, cpu, t))) == Latencies(tr)
  {
  }

  lemma SlowIsAccepted(tr: Trace<Event>, rq: nat, pid: u32, cpu: u32, u: u64)
    requires Key(pid, cpu) in Run(tr).issue && u == Run(tr).issue[Key(pid, cpu)] + CUTOFF
    ensures Run(Then(tr, Complete(rq, pid, cpu, u))).issue == Run(tr).issue - {Key(pid, cpu)}
    ensures Latencies(Then(tr, Complete(rq, pid, cpu, u))) == Latencies(tr) + [CUTOFF]
  {
  }

  lemma RoundAccepts(tr: Trace<Event>, t: u64, u: u64)
    requires Run(tr).issue == map[] && u == t + CUTOFF
    ensures Run(Round(tr, t, u)).issue == map[]
    ensures Latencies(Round(tr, t, u)) == Latencies(tr) + [CUTOFF] + [CUTOFF]
  {
    var t1 := Then(tr, Issue(0, 1, 0, t));
    var t2 := Then(t1, Issue(1, 2, 0, t));
    var t3 := Then(t2, Complete(0, 1, 0, u));
    IssueIsStored(tr, 0, 1, 0, t);
    IssueIsStored(t1, 1, 2, 0, t);
    SlowIsAccepted(t2, 0, 1, 0, u);
    SlowIsAccepted(t3, 1, 2, 0, u);
  }

  /** Nothing is pending, `2 * n` completions of ten seconds were accepted, and the clock shows `n` times ten seconds. */
  ghost predicate Slow(tr: Trace<Event>, n: nat) {
    && Run(tr).issue == map[]
    && |Latencies(tr)| == 2 * n && Sum(Latencies(tr)) == 2 * n * CUTOFF
    && S.Monotone(0, Marks(tr)) && S.Clock(0, Marks(tr)) == n * CUTOFF
  }

  lemma StartIsSlow()
    ensures Slow(Start, 0)
  {
  }

  /** One more round takes ten seconds and two completions. */
  lemma RoundIsSlow(tr: Trace<Event>, n: nat, t: u64, u: u64)
    requires Slow(tr, n) && t == n * CUTOFF && u == t + CUTOFF
    ensures Slow(Round(tr, t, u), n + 1)
  {
    RoundAccepts(tr, t, u);
    SumSnoc(Latencies(tr), CUTOFF);
    SumSnoc(Latencies(tr) + [CUTOFF], CUTOFF);
    RoundMarks(tr, t, u);
  }

  lemma {:induction false} SlowRun(n: nat) returns (tr: Trace<Event>)
    requires n * CUTOFF < U64
    ensures Slow(tr, n)
  {
    if n == 0 {
      tr := Start;
      StartIsSlow();
    } else {
      var before := SlowRun(n - 1);
      tr := Round(before, (n - 1) * CUTOFF, n * CUTOFF);
      RoundIsSlow(before, n - 1, (n - 1) * CUTOFF, n * CUTOFF);
    }
  }

  lemma RoundMarks(tr: Trace<Event>, t: u64, u: u64)
    requires S.Monotone(0, Marks(tr)) && S.Clock(0, Marks(tr)) == t <= u
    ensures S.Monotone(0, Marks(Round(tr, t, u))) && S.Clock(0, Marks(Round(tr, t, u))) == u
  {
    var t1 := Then(tr, Issue(0, 1, 0, t));
    var t2 := Then(t1, Issue(1, 2, 0, t));
    var t3 := Then(t2, Complete(0, 1, 0, u));
    assert S.Monotone(0, Marks(t1)) && S.Clock(0, Marks(t1)) == t;
    assert S.Monotone(0, Marks(t2)) && S.Clock(0, Marks(t2)) == t;
    assert S.Monotone(0, Marks(t3)) && S.Clock(0, Marks(t3)) == u;
  }

  /** The total has lost a multiple of 2^64, so much that it is below the maximum. */
  ghost predicate Wraps(tr: Trace<Event>) {
    && |Run(tr).stats| == STATS_SIZE
    && Run(tr).stats[0] == Sum(Latencies(tr)) % 0x1_0000_0000_0000_0000 != Sum(Latencies(tr))
    && Run(tr).stats[0] < Run(tr).stats[2]
  }

  lemma LongRunWraps(tr: Trace<Event>, n: nat)
    requires 2 * n == SAFE_COUNT + 1 && Slow(tr, n)
    ensures Wraps(tr)
  {
    StatsSummarise(tr);
    WrapIsResidue(Sum(Latencies(tr)));
    MaxProperties(Latencies(tr));
  }

  /** The bound is tight: a run on a monotone clock with one accepted completion more, in which the total has wrapped. */
  lemma SafeCountIsTight() returns (tr: Trace<Event>)
    ensures S.Monotone(0, Marks(tr)) && |Latencies(tr)| == SAFE_COUNT + 1 && Wraps(tr)
  {
    assert 2 * 922337204 == SAFE_COUNT + 1;
    var n: nat :| 2 * n == SAFE_COUNT + 1;
    tr := SlowRun(n);
    LongRunWraps(tr, n);
  }

  // ---- The per-PID maps ----

  /** The per-PID maps have the same keys in every run, even when full. */
  lemma {:induction false} SameKeys(tr: Trace<Event>)
    ensures Run(tr).latency.Keys == Run(tr).count.Keys
    ensures |Run(tr).latency| == |Run(tr).count| <= MAX_ENTRIES
  {
    match tr {
      case Start =>
      case Then(before, e) => SameKeys(before);
    }
    assert |Run(tr).latency| == |Run(tr).latency.Keys| && |Run(tr).count| == |Run(tr).count.Keys|;
  }

  lemma {:induction false} PartAtMostWhole(tr: Trace<Event>, p: nat)
    ensures Sum(LatenciesOf(tr, p)) <= Sum(Latencies(tr))
    ensures |LatenciesOf(tr, p)| <= |Latencies(tr)|
  {
    match tr {
      case Start =>
      case Then(before, e) =>
        PartAtMostWhole(before, p);
        if Accepted(before, e).Some? {
          SumSnoc(Latencies(before), Accepted(before, e).value);
          SumSnoc(LatenciesOf(before, p), Accepted(before, e).value);
        }
    }
  }

  /** A PID in the maps has exactly the sum and number of its accepted latencies; it is missing only when they are full. */
  lemma {:induction false} PidIsExact(tr: Trace<Event>, p: nat)
    requires |Latencies(tr)| <= SAFE_COUNT
    ensures p in Run(tr).latency ==>
              && Run(tr).latency[p] == Sum(LatenciesOf(tr, p))
              && p in Run(tr).count && Run(tr).count[p] == |LatenciesOf(tr, p)|
    ensures p !in Run(tr).latency && LatenciesOf(tr, p) != [] ==> |Run(tr).latency| == 10240
  {
    match tr {
      case Start =>
      case Then(before, e) =>
        PidIsExact(before, p);
        SameKeys(before);
        SameKeys(tr);
        if Accepted(before, e).Some? && e.pid == p {
          LatenciesMeetCutoff(tr);
          NoWrap(Latencies(tr));
          PartAtMostWhole(tr, p);
          SumSnoc(LatenciesOf(before, p), Accepted(before, e).value);
        }
    }
  }

  /**
    The per-PID split: the PIDs' latencies and counts sum to the global ones as long as the PID
    maps are not full, and never to more.
   */
  lemma {:induction false} PidsSplitTheTotal(tr: Trace<Event>)
    requires |Latencies(tr)| <= SAFE_COUNT
    ensures Total(Run(tr).latency) <= Sum(Latencies(tr)) && Total(Run(tr).count) <= |Latencies(tr)|
    ensures |Run(tr).latency| < 10240 ==>
              Total(Run(tr).latency) == Sum(Latencies(tr)) && Total(Run(tr).count) == |Latencies(tr)|
  {
    match tr {
      case Start =>
      case Then(before, e) =>
        PidsSplitTheTotal(before);
        if Accepted(before, e).Some? {
          SumSnoc(Latencies(before), Accepted(before, e).value);
          SplitAfter(before, e);
        }
    }
  }

  lemma SplitAfter(before: Trace<Event>, e: Event)
    requires Accepted(before, e).Some? && |Latencies(Then(before, e))| <= SAFE_COUNT
    ensures var s, s', d := Run(before), Run(Then(before, e)), Accepted(before, e).value;
            var room := e.pid in s.latency || |s.latency| < MAX_ENTRIES;
            && |s.latency| <= |s'.latency|
            && Total(s'.latency) == Total(s.latency) + (if room then d else 0)
            && Total(s'.count) == Total(s.count) + (if room then 1 else 0)
  {
    var s, d := Run(before), Accepted(before, e).value;
    SameKeys(before);
    if e.pid in s.latency {
      PidIsExact(before, e.pid);
      SumSnoc(LatenciesOf(before, e.pid), d);
      PartAtMostWhole(Then(before, e), e.pid);
      LatenciesMeetCutoff(Then(before, e));
      NoWrap(Latencies(Then(before, e)));
    }
    BumpTotal(s.latency, MAX_ENTRIES, e.pid, d);
    BumpTotal(s.count, MAX_ENTRIES, e.pid, 1);
  }
}
