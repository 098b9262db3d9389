/**
  cpu_run_delay: the time from a task's wakeup to its switch-in, accumulated per PID in the
  kernel, and printed by user space as an average over the window since the last poll.
 */
module RunDelay {
  import opened Bpf
  import opened Walks
  import S = StartStop

  const MAX_PIDS: nat := 65536
  const NS_PER_US: nat := 1000

  /** The maps of the kernel side. A wakeup begins a delay, a switch to the task ends it. */
  class RunDelayProbe {
    var wakeupTs: map<nat, u64>
    var runDelay: map<nat, u64>
    var wakeupCount: map<nat, u64>

    function State(): S.State
      reads this
    {
      S.State(wakeupTs, runDelay, wakeupCount)
    }

    constructor ()
      ensures State() == S.Run(Start)
    {
      wakeupTs, runDelay, wakeupCount := map[], map[], map[];
    }

    method HandleSchedWakeup(pid: nat, ts: u64)
      modifies this
      ensures State() == S.OnBegin(old(State()), pid, ts)
    {
      wakeupTs := Put(wakeupTs, S.MAX_ENTRIES, pid, ts);
    }

    method HandleSchedSwitch(nextPid: nat, now: u64)
      modifies this
      ensures State() == S.OnEnd(old(State()), nextPid, now)
    {
      if nextPid !in wakeupTs {
        return;
      }
      var delay := SubU64(now, wakeupTs[nextPid]);
      if nextPid in runDelay {
        runDelay := runDelay[nextPid := AddU64(runDelay[nextPid], delay)];
      } else {
        runDelay := Put(runDelay, S.MAX_ENTRIES, nextPid, delay);
      }
      if nextPid in wakeupCount {
        wakeupCount := wakeupCount[nextPid := AddU64(wakeupCount[nextPid], 1)];
      } else {
        wakeupCount := Put(wakeupCount, S.MAX_ENTRIES, nextPid, 1);
      }
      wakeupTs := wakeupTs - {nextPid};
    }
  }

  /**
    In every run the two accumulator maps have the same keys, even when full, and each PID's delay
    is at most the elapsed time; the maps hold exactly the sum and number of its delays.
   */
  lemma DelaysAreBounded(t0: u64, tr: Trace<S.Event>, pid: nat)
    requires S.Monotone(t0, tr) && S.Size(tr) < U64
    ensures S.Run(tr).total.Keys == S.Run(tr).count.Keys
    ensures pid in S.Run(tr).total ==>
              && S.Run(tr).total[pid] == Sum(S.Lengths(tr, pid)) <= S.Clock(t0, tr) - t0
              && S.Run(tr).count[pid] == |S.Lengths(tr, pid)|
  {
    S.SameKeys(tr);
    S.TotalsAreExact(t0, tr, pid);
  }

  // ---- The poller ----

  datatype Poll = Poll(delay: seq<u64>, count: seq<u64>, lines: seq<(nat, nat)>) {
    predicate Valid() { |delay| == |count| == MAX_PIDS }
  }

  function Visit(s: Poll, e: (nat, u64), counts: map<nat, u64>): (r: Poll)
    ensures s.Valid() ==> r.Valid()
  {
    if e.0 >= |s.delay| || e.0 >= |s.count| then s else
      var n := if e.0 in counts then counts[e.0] else 0;
      var dd, dc := Growth(e.1, s.delay[e.0]), Growth(n, s.count[e.0]);
      Poll(s.delay[e.0 := e.1], s.count[e.0 := n],
           if dc > 0 then s.lines + [(e.0, dd / dc / NS_PER_US)] else s.lines)
  }

  /** The loop body as a visit of a walk. */
  function Visitor(counts: map<nat, u64>): (Poll, (nat, u64)) -> Poll {
    (s, e) => Visit(s, e, counts)
  }

  lemma {:induction false} VisitKeepsSize(s: Poll, es: seq<(nat, u64)>, counts: map<nat, u64>)
    requires s.Valid()
    ensures VisitAll(Visitor(counts), s, es).Valid()
  {
    if es != [] {
      VisitKeepsSize(s, es[..|es| - 1], counts);
    }
  }

  /** The body of the loop: at most one line, and both snapshots brought up to date. */
  method PrintPid(
    pid: nat, totalNs: u64, counts: map<nat, u64>, prevDelay: array<u64>, prevCount: array<u64>, before: seq<(nat, nat)>)
    returns (lines: seq<(nat, nat)>)
    requires prevDelay.Length == prevCount.Length == MAX_PIDS && prevDelay != prevCount
    modifies prevDelay, prevCount
    ensures Poll(prevDelay[..], prevCount[..], lines)
            == Visit(Poll(old(prevDelay[..]), old(prevCount[..]), before), (pid, totalNs), counts)
  {
    lines := before;
    var totalCount := if pid in counts then counts[pid] else 0;
    if pid < MAX_PIDS {
      var deltaDelay := if totalNs > prevDelay[pid] then totalNs - prevDelay[pid] else 0;
      var deltaCount := if totalCount > prevCount[pid] then totalCount - prevCount[pid] else 0;
      if deltaCount > 0 {
        lines := lines + [(pid, deltaDelay / deltaCount / NS_PER_US)];
      }
      prevDelay[pid] := totalNs;
      prevCount[pid] := totalCount;
    }
  }

  /** The poll loop: a read-only walk over `run_delay` from key 0, looking each PID up in `wakeup_count` too. */
  method PollOnce(t: Table<nat, u64>, counts: map<nat, u64>, prevDelay: array<u64>, prevCount: array<u64>)
    returns (lines: seq<(nat, nat)>)
    requires t.Valid() && prevDelay.Length == prevCount.Length == MAX_PIDS && prevDelay != prevCount
    modifies prevDelay, prevCount
    ensures Poll(prevDelay[..], prevCount[..], lines)
            == VisitAll(Visitor(counts), Poll(old(prevDelay[..]), old(prevCount[..]), []), t.entries[Ahead(t.entries, Some(0))..])
  {
    ghost var s, es := Poll(prevDelay[..], prevCount[..], []), t.entries;
    ghost var start := Ahead(es, Some(0));
    ghost var n := start;
    lines := [];
    var pid := 0;
    var next := t.GetNextKey(Some(pid));
    while next.Some?
      invariant start <= n <= |es| && Ahead(es, Some(pid)) == n
      invariant next == NextKey(es, Some(pid))
      invariant Poll(prevDelay[..], prevCount[..], lines) == VisitAll(Visitor(counts), s, es[start..n])
      decreases |es| - n
    {
      RemoveAt(es, n);
      VisitOneMore(Visitor(counts), s, es, start, n);
      pid := next.value;
      var totalNs := t.Lookup(pid);
      if totalNs.Some? {
        lines := PrintPid(pid, totalNs.value, counts, prevDelay, prevCount, lines);
      }
      n := n + 1;
      next := t.GetNextKey(Some(pid));
    }
    assert es[start..n] == es[start..];
  }

  /** The values printed for `k`, in order. */
  function PrintedFor(lines: seq<(nat, nat)>, k: nat): seq<nat> {
    if lines == [] then [] else
      var n := |lines| - 1;
      if lines[n].0 == k then PrintedFor(lines[..n], k) + [lines[n].1] else PrintedFor(lines[..n], k)
  }

  /** The part of a poll's state that concerns key `k`. */
  ghost predicate SameFor(a: Poll, b: Poll, k: nat) {
    && a.Valid() && b.Valid() && k < MAX_PIDS
    && a.delay[k] == b.delay[k] && a.count[k] == b.count[k] && PrintedFor(a.lines, k) == PrintedFor(b.lines, k)
  }

  ghost function Same(k: nat): (Poll, Poll) -> bool {
    (a, b) => SameFor(a, b, k)
  }

  lemma VisitIsLocal(a: Poll, b: Poll, e: (nat, u64), counts: map<nat, u64>, k: nat)
    requires SameFor(a, b, k)
    ensures e.0 == k ==> SameFor(Visit(a, e, counts), Visit(b, e, counts), k)
    ensures e.0 != k ==> SameFor(Visit(a, e, counts), b, k)
  {
    var a', b' := Visit(a, e, counts), Visit(b, e, counts);
    assert a'.lines != a.lines ==> a'.lines[..|a.lines|] == a.lines;
    assert b'.lines != b.lines ==> b'.lines[..|b.lines|] == b.lines;
  }

  lemma VisitorIsLocal(counts: map<nat, u64>, k: nat)
    ensures Local(Visitor(counts), Same(k), k)
  {
    forall a: Poll, b: Poll, e: (nat, u64) | Same(k)(a, b)
      ensures e.0 == k ==> Same(k)(Visitor(counts)(a, e), Visitor(counts)(b, e))
      ensures e.0 != k ==> Same(k)(Visitor(counts)(a, e), b)
    {
      VisitIsLocal(a, b, e, counts, k);
    }
  }

  // ---- Whole runs: kernel events interleaved with polls ----

  datatype Op = Kernel(e: S.Event) | PollNow(entries: seq<(nat, u64)>)

  function KernelOf(ops: Trace<Op>): Trace<S.Event> {
    match ops
    case Start => Start
    case Then(before, Kernel(e)) => Then(KernelOf(before), e)
    case Then(before, PollNow(_)) => KernelOf(before)
  }

  ghost predicate Legal(t0: u64, ops: Trace<Op>) {
    && S.Monotone(t0, KernelOf(ops)) && S.Size(KernelOf(ops)) < U64
    && match ops
       case Start => true
       case Then(before, op) =>
         && Legal(t0, before)
         && (op.PollNow? ==> Lists(op.entries, S.Run(KernelOf(before)).total))
  }

  function Polled(ops: Trace<Op>): (r: Poll)
    ensures r.Valid()
  {
    match ops
    case Start => Poll(seq(MAX_PIDS, _ => 0), seq(MAX_PIDS, _ => 0), [])
    case Then(before, Kernel(_)) => Polled(before)
    case Then(before, PollNow(es)) =>
      VisitKeepsSize(Polled(before), Visited(es), S.Run(KernelOf(before)).count);
      VisitAll(Visitor(S.Run(KernelOf(before)).count), Polled(before), Visited(es))
  }

  /** How many delays of a PID had ended at the last poll that visited it. */
  function Seen(ops: Trace<Op>, p: nat): nat {
    match ops
    case Start => 0
    case Then(before, Kernel(_)) => Seen(before, p)
    case Then(before, PollNow(es)) => if Visits(es, p) then |S.Lengths(KernelOf(before), p)| else Seen(before, p)
  }

  /** A PID's snapshot is the number and the sum of the delays seen at its last visit. */
  ghost predicate Snapshot(ops: Trace<Op>, p: nat)
    requires p < MAX_PIDS
  {
    var ls, n := S.Lengths(KernelOf(ops), p), Seen(ops, p);
    n <= |ls| && Polled(ops).count[p] == n && Polled(ops).delay[p] == Sum(ls[..n])
  }

  /** The entries that a poll visits: those behind key 0. */
  function Visited(es: seq<(nat, u64)>): seq<(nat, u64)> {
    es[Ahead(es, Some(0))..]
  }

  predicate Visits(es: seq<(nat, u64)>, p: nat) {
    Find(Visited(es), p) < |Visited(es)|
  }

  lemma ListedIsHistory(t0: u64, tr: Trace<S.Event>, es: seq<(nat, u64)>, p: nat, i: nat)
    requires S.Monotone(t0, tr) && S.Size(tr) < U64 && Lists(es, S.Run(tr).total) && i < |es| && es[i].0 == p
    ensures Sum(S.Lengths(tr, p)) < U64 && |S.Lengths(tr, p)| < U64 && es[i] == (p, Sum(S.Lengths(tr, p)))
    ensures p in S.Run(tr).count && S.Run(tr).count[p] == |S.Lengths(tr, p)|
  {
    DelaysAreBounded(t0, tr, p);
    S.TotalsAreExact(t0, tr, p);
  }

  /** A visited PID is treated as one visit with its whole history of delays. */
  lemma VisitTakesSnapshot(t0: u64, before: Trace<Op>, es: seq<(nat, u64)>, p: nat)
    requires Legal(t0, Then(before, PollNow(es))) && p < MAX_PIDS && Visits(es, p)
    ensures var tr := KernelOf(before);
            && Sum(S.Lengths(tr, p)) < U64 && |S.Lengths(tr, p)| < U64
            && p in S.Run(tr).count && S.Run(tr).count[p] == |S.Lengths(tr, p)|
            && SameFor(Polled(Then(before, PollNow(es))),
                       Visit(Polled(before), (p, Sum(S.Lengths(tr, p))), S.Run(tr).count), p)
  {
    var tr, i := KernelOf(before), Find(Visited(es), p);
    ListedIsHistory(t0, tr, es, p, Ahead(es, Some(0)) + i);
    assert Visited(es)[i] == es[Ahead(es, Some(0)) + i];
    VisitorIsLocal(S.Run(tr).count, p);
    VisitListedOnce(Visitor(S.Run(tr).count), Same(p), Polled(before), Visited(es), i);
  }

  lemma {:induction false} SnapshotsAreHistory(t0: u64, ops: Trace<Op>, p: nat)
    requires Legal(t0, ops) && p < MAX_PIDS
    ensures Snapshot(ops, p)
  {
    match ops {
      case Start =>
      case Then(before, Kernel(e)) =>
        SnapshotsAreHistory(t0, before, p);
        var ls, ls' := S.Lengths(KernelOf(before), p), S.Lengths(KernelOf(ops), p);
        assert ls'[..Seen(before, p)] == ls[..Seen(before, p)];
      case Then(before, PollNow(es)) =>
        SnapshotsAreHistory(t0, before, p);
        if Visits(es, p) {
          VisitTakesSnapshot(t0, before, es, p);
          var ls := S.Lengths(KernelOf(ops), p);
          assert ls[..|ls|] == ls;
        } else {
          var counts := S.Run(KernelOf(before)).count;
          VisitorIsLocal(counts, p);
          VisitUnlisted(Visitor(counts), Same(p), Polled(before), Visited(es), p);
        }
    }
  }

  lemma {:induction false} SumBounds(s: seq<nat>, lo: nat, hi: nat)
    requires forall i | 0 <= i < |s| :: lo <= s[i] <= hi
    ensures lo * |s| <= Sum(s) <= hi * |s|
  {
    if s != [] {
      var n := |s| - 1;
      SumBounds(s[..n], lo, hi);
      assert lo * (n + 1) == lo * n + lo && hi * (n + 1) == hi * n + hi;
    }
  }

  lemma QuotientBounds(sum: nat, n: nat, lo: nat, hi: nat)
    requires n > 0 && lo * n <= sum <= hi * n
    ensures lo <= sum / n <= hi
  {
    var q := sum / n;
    assert q * n <= sum < q * n + n;
    MulLess(lo, q + 1, n);
    MulLess(q, hi + 1, n);
  }

  lemma MulLess(a: nat, b: nat, n: nat)
    requires a * n < b * n
    ensures a < b
  {
    if b <= a {
      MulMono(b, a, n);
    }
  }

  lemma MulMono(a: nat, b: nat, n: nat)
    requires a <= b
    ensures a * n <= b * n
  {
  }

  lemma {:induction false} SeenIsPast(ops: Trace<Op>, p: nat)
    ensures Seen(ops, p) <= |S.Lengths(KernelOf(ops), p)|
  {
    match ops {
      case Start =>
      case Then(before, op) => SeenIsPast(before, p);
    }
  }

  /** The delays of `p` that ended since the last poll that visited it. */
  function Window(ops: Trace<Op>, p: nat): seq<nat> {
    SeenIsPast(ops, p);
    S.Lengths(KernelOf(ops), p)[Seen(ops, p)..]
  }

  /** The window is what the history gained since the snapshot. */
  lemma WindowIsGrowth(t0: u64, ops: Trace<Op>, p: nat)
    requires Legal(t0, ops) && p < MAX_PIDS
    ensures var ls := S.Lengths(KernelOf(ops), p);
            && |ls| == Polled(ops).count[p] + |Window(ops, p)|
            && Sum(ls) == Polled(ops).delay[p] + Sum(Window(ops, p))
  {
    SnapshotsAreHistory(t0, ops, p);
    var ls, n := S.Lengths(KernelOf(ops), p), Seen(ops, p);
    assert ls == ls[..n] + Window(ops, p);
    SumConcat(ls[..n], Window(ops, p));
  }

  /** The average of a window in whole microseconds, when there is one. */
  function Average(w: seq<nat>): seq<nat> {
    if w == [] then [] else [Sum(w) / |w| / 1000]
  }

  /** A PID that a walk does not list, or that has no slot, is not printed. */
  lemma {:induction false} VisitOther(s: Poll, es: seq<(nat, u64)>, counts: map<nat, u64>, p: nat)
    requires s.Valid() && (p < MAX_PIDS ==> forall i | 0 <= i < |es| :: es[i].0 != p)
    ensures (var r := VisitAll(Visitor(counts), s, es); r.Valid() && PrintedFor(r.lines, p) == PrintedFor(s.lines, p))
  {
    if es != [] {
      var n := |es| - 1;
      VisitOther(s, es[..n], counts, p);
      var r, r' := VisitAll(Visitor(counts), s, es[..n]), VisitAll(Visitor(counts), s, es);
      assert r'.lines != r.lines ==> r'.lines[..|r.lines|] == r.lines;
    }
  }

  /**
    What one poll of any run prints for a PID, whatever the order of the walk: the average of the
    delays that ended since its last visit, in whole microseconds, once, if the PID is below 65536,
    visited, and some delay ended; otherwise nothing.
   */
  lemma LinesAreExact(t0: u64, before: Trace<Op>, es: seq<(nat, u64)>, p: nat)
    requires Legal(t0, Then(before, PollNow(es)))
    ensures PrintedFor(Polled(Then(before, PollNow(es))).lines, p)
            == PrintedFor(Polled(before).lines, p) + if p < 65536 && Visits(es, p) then Average(Window(before, p)) else []
  {
    var s, tr, w := Polled(before), KernelOf(before), Window(before, p);
    if p < MAX_PIDS && Visits(es, p) {
      VisitTakesSnapshot(t0, before, es, p);
      WindowIsGrowth(t0, before, p);
      VisitPrintsAverage(s, (p, Sum(S.Lengths(tr, p))), S.Run(tr).count, w);
    } else {
      VisitOther(s, Visited(es), S.Run(tr).count, p);
    }
  }

  lemma VisitPrintsAverage(s: Poll, e: (nat, u64), counts: map<nat, u64>, w: seq<nat>)
    requires s.Valid() && e.0 < MAX_PIDS && e.0 in counts
    requires e.1 == s.delay[e.0] + Sum(w) && counts[e.0] == s.count[e.0] + |w|
    ensures PrintedFor(Visit(s, e, counts).lines, e.0) == PrintedFor(s.lines, e.0) + Average(w)
  {
    var lines := Visit(s, e, counts).lines;
    if w != [] {
      assert lines == s.lines + [(e.0, Sum(w) / |w| / NS_PER_US)];
      assert lines[..|s.lines|] == s.lines;
    }
  }

  /**
    So a printed average lies between the microseconds of the window's shortest and longest delay,
    rounded down.
   */
  lemma AverageLiesInWindow(t0: u64, before: Trace<Op>, es: seq<(nat, u64)>, p: nat, lo: nat, hi: nat)
    requires Legal(t0, Then(before, PollNow(es))) && p < MAX_PIDS && Visits(es, p)
    requires forall i | 0 <= i < |Window(before, p)| :: lo <= Window(before, p)[i] <= hi
    ensures (var printed := PrintedFor(Polled(before).lines, p);
      var printed' := PrintedFor(Polled(Then(before, PollNow(es))).lines, p);
      if Window(before, p) == [] then printed' == printed
      else exists avg :: printed' == printed + [avg] && lo / 1000 <= avg <= hi / 1000)
  {
    var w := Window(before, p);
    LinesAreExact(t0, before, es, p);
    if w != [] {
      SumBounds(w, lo, hi);
      QuotientBounds(Sum(w), |w|, lo, hi);
      assert Average(w) == [Sum(w) / |w| / 1000];
    }
  }

  /** The walk visits every PID of the map if and only if key 0 is absent from it. */
  lemma EveryPidIsVisitedIff(tr: Trace<S.Event>, es: seq<(nat, u64)>)
    requires Lists(es, S.Run(tr).total)
    ensures (forall p | p in S.Run(tr).total :: Visits(es, p)) <==> 0 !in S.Run(tr).total
  {
    var total := S.Run(tr).total;
    if 0 in total {
      var i :| 0 <= i < |es| && es[i].0 == 0;
      ZeroIsNotAhead(es);
      assert !Visits(es, 0);
    } else {
      WalkFromZero(es, total);
      assert es[0..] == es;
      forall p | p in total ensures Visits(es, p) {
        var i :| 0 <= i < |es| && es[i].0 == p;
      }
    }
  }

  /** A map that holds only PID 0 is never printed: the walk from key 0 visits nothing. */
  lemma PidZeroIsNotVisited() returns (tr: Trace<S.Event>, es: seq<(nat, u64)>)
    ensures S.Monotone(0, tr) && Lists(es, S.Run(tr).total) && es == [(0, 5)] && Visited(es) == []
  {
    var woken := Then(Start, S.Begin(0, 10));
    tr, es := Then(woken, S.End(0, 15)), [(0, 5)];
    assert S.Run(woken) == S.State(map[0 := 10], map[], map[]);
    assert S.Run(tr).total == map[0 := 5] && es[0].0 == 0;
  }
}
