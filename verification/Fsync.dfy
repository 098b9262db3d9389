/**
  file_fsync_stat: fsync latency, with the start time keyed by process although the threads of
  one process may be inside fsync at the same time. A call has an identity of its own here, so
  that what the tool records can be compared with what really happened.
 */
module Fsync {
  import opened Bpf
  import S = StartStop

  datatype Event = Enter(pid: nat, call: nat, now: u64) | Exit(pid: nat, call: nat, now: u64)

  datatype Probe = Probe(acc: S.State, stats: seq<u64>)

  const STATS_SIZE: nat := 8

  /** The maps of the kernel side. */
  class FsyncProbe {
    var fsyncStart: map<nat, u64>
    var fsyncStats: seq<u64>
    var pidLatency: map<nat, u64>
    var pidCount: map<nat, u64>

    function State(): Probe
      reads this
    {
      Probe(S.State(fsyncStart, pidLatency, pidCount), fsyncStats)
    }

    constructor ()
      ensures State() == Loaded()
    {
      fsyncStart, fsyncStats, pidLatency, pidCount := map[], seq(STATS_SIZE, _ => 0), map[], map[];
    }

    method RecordFsyncEntry(pid: nat, ts: u64)
      modifies this
      ensures State() == OnEntry(old(State()), pid, ts)
    {
      fsyncStart := Put(fsyncStart, S.MAX_ENTRIES, pid, ts);
    }

    method RecordFsyncExit(idx: nat, pid: nat, now: u64)
      modifies this
      ensures State() == OnExit(old(State()), idx, pid, now)
    {
      if pid !in fsyncStart {
        return;
      }
      var delta := SubU64(now, fsyncStart[pid]);
      if idx < |fsyncStats| {
        fsyncStats := fsyncStats[idx := AddU64(fsyncStats[idx], delta)];
      }
      if idx + 1 < |fsyncStats| {
        fsyncStats := fsyncStats[idx + 1 := AddU64(fsyncStats[idx + 1], 1)];
      }
      if pid in pidLatency {
        pidLatency := pidLatency[pid := AddU64(pidLatency[pid], delta)];
      } else {
        pidLatency := Put(pidLatency, S.MAX_ENTRIES, pid, delta);
      }
      if pid in pidCount {
        pidCount := pidCount[pid := AddU64(pidCount[pid], 1)];
      } else {
        pidCount := Put(pidCount, S.MAX_ENTRIES, pid, 1);
      }
      fsyncStart := fsyncStart - {pid};
    }
  }

  function Loaded(): Probe {
    Probe(S.State(map[], map[], map[]), seq(STATS_SIZE, _ => 0))
  }

  function OnEntry(s: Probe, pid: nat, now: u64): Probe {
    s.(acc := S.OnBegin(s.acc, pid, now))
  }

  function OnExit(s: Probe, idx: nat, pid: nat, now: u64): Probe {
    if pid !in s.acc.start then s else
      Probe(S.OnEnd(s.acc, pid, now),
            AddAt(AddAt(s.stats, idx, SubU64(now, s.acc.start[pid])), idx + 1, 1))
  }

  /** `handle_fsync_entry` and `handle_fsync_exit`, which passes index 0. */
  function Run(tr: Trace<Event>): Probe {
    match tr
    case Start => Loaded()
    case Then(before, Enter(pid, _, now)) => OnEntry(Run(before), pid, now)
    case Then(before, Exit(pid, _, now)) => OnExit(Run(before), 0, pid, now)
  }

  /** The trace as the start/stop accumulator sees it: calls have lost their identity. */
  function Erase(tr: Trace<Event>): Trace<S.Event> {
    match tr
    case Start => Start
    case Then(before, Enter(pid, _, now)) => Then(Erase(before), S.Begin(pid, now))
    case Then(before, Exit(pid, _, now)) => Then(Erase(before), S.End(pid, now))
  }

  lemma {:induction false} RunIsAccumulator(tr: Trace<Event>)
    ensures Run(tr).acc == S.Run(Erase(tr))
    ensures |Run(tr).stats| == STATS_SIZE
  {
    match tr {
      case Start =>
      case Then(before, e) => RunIsAccumulator(before);
    }
  }

  /** When call `call` of `pid` was last entered. */
  function EntryTime(tr: Trace<Event>, pid: nat, call: nat): Option<u64> {
    match tr
    case Start => None
    case Then(before, e) =>
      if e.Enter? && e.pid == pid && e.call == call then Some(e.now) else EntryTime(before, pid, call)
  }

  lemma {:induction false} EntryBeforeOpen(t0: u64, tr: Trace<Event>, pid: nat, call: nat)
    requires S.Monotone(t0, Erase(tr)) && EntryTime(tr, pid, call).Some?
    ensures EntryTime(tr, pid, call).value <= S.Clock(t0, Erase(tr))
    ensures S.Open(Erase(tr), pid).Some? ==> EntryTime(tr, pid, call).value <= S.Open(Erase(tr), pid).value
  {
    match tr {
      case Then(before, e) =>
        if EntryTime(before, pid, call).Some? {
          EntryBeforeOpen(t0, before, pid, call);
        }
    }
  }

  /**
    However the calls of a process overlap, and even when maps are full, the latency recorded at
    an exit is at most the true duration of the call that exits.
   */
  lemma RecordedAtMostTrue(t0: u64, before: Trace<Event>, pid: nat, call: nat, now: u64)
    requires S.Monotone(t0, Erase(Then(before, Exit(pid, call, now))))
    requires EntryTime(before, pid, call).Some? && pid in Run(before).acc.start
    ensures EntryTime(before, pid, call).value <= now
    ensures SubU64(now, Run(before).acc.start[pid]) <= now - EntryTime(before, pid, call).value
  {
    RunIsAccumulator(before);
    S.StartIsOpen(Erase(before), pid);
    EntryBeforeOpen(t0, before, pid, call);
    S.TotalAtMostElapsed(t0, Erase(before), pid);
  }

  /**
    The recorded intervals of a process are disjoint, so its accumulated latency is at most the
    elapsed time, and the map holds exactly their sum and number.
   */
  lemma LatencyIsDisjointTime(t0: u64, tr: Trace<Event>, pid: nat)
    requires S.Monotone(t0, Erase(tr)) && S.Size(Erase(tr)) < U64
    ensures forall i, j | 0 <= i < j < |S.Recorded(Erase(tr))| ::
              var a, b := S.Recorded(Erase(tr))[i], S.Recorded(Erase(tr))[j];
              a.key == b.key ==> a.from <= a.to <= b.from <= b.to
    ensures pid in Run(tr).acc.total ==>
              && pid in Run(tr).acc.count
              && Run(tr).acc.total[pid] == Sum(S.LengthsOf(S.Recorded(Erase(tr)), pid)) <= S.Clock(t0, Erase(tr)) - t0
              && Run(tr).acc.count[pid] == |S.LengthsOf(S.Recorded(Erase(tr)), pid)|
    ensures Run(tr).acc.total.Keys == Run(tr).acc.count.Keys
  {
    RunIsAccumulator(tr);
    S.RecordedBounds(t0, Erase(tr));
    S.RecordedAreDisjoint(t0, Erase(tr));
    S.TotalsAreExact(t0, Erase(tr), pid);
    S.LengthsAreRecorded(Erase(tr), pid);
    S.SameKeys(Erase(tr));
  }

  // ---- The global books ----

  function AllLengths(tr: Trace<S.Event>): seq<nat> {
    match tr
    case Start => []
    case Then(before, e) =>
      if e.End? && e.key in S.Run(before).start && S.Run(before).start[e.key] <= e.now
      then AllLengths(before) + [e.now - S.Run(before).start[e.key]]
      else AllLengths(before)
  }

  /** Statistic 0 is the sum of all recorded latencies and statistic 1 their number, as u64s. */
  lemma {:induction false} GlobalStatsAreSums(t0: u64, tr: Trace<Event>)
    requires S.Monotone(t0, Erase(tr)) && S.Size(Erase(tr)) < U64
    ensures |Run(tr).stats| == STATS_SIZE
    ensures BooksAgree(Run(tr).stats, AllLengths(Erase(tr)))
  {
    RunIsAccumulator(tr);
    match tr {
      case Start =>
      case Then(before, e) =>
        GlobalStatsAreSums(t0, before);
        RunIsAccumulator(before);
        if e.Exit? && e.pid in Run(before).acc.start {
          ExitAddsToBooks(t0, before, e);
          BooksAfter(Run(before).stats, AllLengths(Erase(before)), Run(tr).stats, AllLengths(Erase(tr)),
                     SubU64(e.now, Run(before).acc.start[e.pid]));
        } else {
          assert AllLengths(Erase(tr)) == AllLengths(Erase(before)) && Run(tr).stats == Run(before).stats;
        }
    }
  }

  ghost predicate BooksAgree(stats: seq<u64>, lengths: seq<nat>)
    requires |stats| == STATS_SIZE
  {
    && stats[0] == Wrap(Sum(lengths)) && stats[1] == Wrap(|lengths|)
    && forall i | 2 <= i < STATS_SIZE :: stats[i] == 0
  }

  lemma BooksAfter(stats: seq<u64>, lengths: seq<nat>, stats': seq<u64>, lengths': seq<nat>, d: u64)
    requires |stats| == |stats'| == STATS_SIZE && BooksAgree(stats, lengths)
    requires stats'[0] == AddU64(stats[0], d) && stats'[1] == AddU64(stats[1], 1)
    requires forall i | 2 <= i < STATS_SIZE :: stats'[i] == stats[i]
    requires Sum(lengths') == Sum(lengths) + d && |lengths'| == |lengths| + 1
    ensures BooksAgree(stats', lengths')
  {
    WrapAdd(Sum(lengths), d, Sum(lengths'));
    WrapAdd(|lengths|, 1, |lengths'|);
  }

  /** As long as they are not full, the per-process maps split the sum and the number of all recorded latencies. */
  lemma {:induction false} ProcessesSplitTheTotal(t0: u64, tr: Trace<Event>)
    requires S.Monotone(t0, Erase(tr)) && S.Size(Erase(tr)) < U64
    ensures |Run(tr).acc.total| < S.MAX_ENTRIES ==>
              && Total(Run(tr).acc.total) == Sum(AllLengths(Erase(tr)))
              && Total(Run(tr).acc.count) == |AllLengths(Erase(tr))|
  {
    match tr {
      case Start =>
      case Then(before, e) =>
        ProcessesSplitTheTotal(t0, before);
        RunIsAccumulator(before);
        if e.Exit? && e.pid in Run(before).acc.start {
          ExitAddsToBooks(t0, before, e);
        }
    }
  }

  lemma ExitAddsToBooks(t0: u64, before: Trace<Event>, e: Event)
    requires S.Monotone(t0, Erase(Then(before, e))) && S.Size(Erase(Then(before, e))) < U64
    requires e.Exit? && e.pid in Run(before).acc.start
    requires |Run(before).stats| == STATS_SIZE
    ensures var s, s', d := Run(before), Run(Then(before, e)), SubU64(e.now, Run(before).acc.start[e.pid]);
            && d == e.now - s.acc.start[e.pid]
            && |s'.stats| == STATS_SIZE
            && Sum(AllLengths(Erase(Then(before, e)))) == Sum(AllLengths(Erase(before))) + d
            && s'.stats[0] == AddU64(s.stats[0], d)
            && s'.stats[1] == AddU64(s.stats[1], 1)
            && (forall i | 2 <= i < STATS_SIZE :: s'.stats[i] == s.stats[i])
            && |AllLengths(Erase(Then(before, e)))| == |AllLengths(Erase(before))| + 1
            && |s.acc.total| <= |s'.acc.total|
            && (|s'.acc.total| < S.MAX_ENTRIES ==>
                  && Total(s'.acc.total) == Total(s.acc.total) + d
                  && Total(s'.acc.count) == Total(s.acc.count) + 1)
  {
    RunIsAccumulator(before);
    var s, s' := Run(before), Run(Then(before, e));
    S.TotalAtMostElapsed(t0, Erase(before), e.pid);
    SumSnoc(AllLengths(Erase(before)), e.now - s.acc.start[e.pid]);
    if e.pid in s'.acc.total {
      MapsAfterExit(t0, before, e);
    }
  }

  lemma MapsAfterExit(t0: u64, before: Trace<Event>, e: Event)
    requires S.Monotone(t0, Erase(Then(before, e))) && S.Size(Erase(Then(before, e))) < U64
    requires e.Exit? && e.pid in Run(before).acc.start
    requires e.pid in Run(Then(before, e)).acc.total
    ensures var s, s' := Run(before).acc, Run(Then(before, e)).acc;
            && Total(s'.total) == Total(s.total) + SubU64(e.now, s.start[e.pid])
            && Total(s'.count) == Total(s.count) + 1
  {
    var tr := Then(before, e);
    RunIsAccumulator(before);
    RunIsAccumulator(tr);
    var s, s' := Run(before).acc, Run(tr).acc;
    S.TotalsAreExact(t0, Erase(before), e.pid);
    S.TotalsAreExact(t0, Erase(tr), e.pid);
    S.TotalAtMostElapsed(t0, Erase(before), e.pid);
    SumSnoc(S.Lengths(Erase(before), e.pid), e.now - s.start[e.pid]);
    S.SameKeys(Erase(before));
    S.SameKeys(Erase(tr));
    TotalUpdate(s.total, e.pid, s'.total[e.pid]);
    TotalUpdate(s.count, e.pid, s'.count[e.pid]);
  }

  // ---- When the totals are exact ----

  /** Every exit belongs to a call whose entry was observed. */
  predicate Matched(tr: Trace<Event>) {
    match tr
    case Start => true
    case Then(before, e) => Matched(before) && (e.Exit? ==> EntryTime(before, e.pid, e.call).Some?)
  }

  /** The sum of the true durations of the finished calls of `pid`. */
  function TrueTotal(tr: Trace<Event>, pid: nat): int
    requires Matched(tr)
  {
    match tr
    case Start => 0
    case Then(before, e) =>
      TrueTotal(before, pid) +
      if e.Exit? && e.pid == pid then e.now - EntryTime(before, pid, e.call).value else 0
  }

  function Exits(tr: Trace<Event>, pid: nat): nat {
    match tr
    case Start => 0
    case Then(before, e) => Exits(before, pid) + if e.Exit? && e.pid == pid then 1 else 0
  }

  /** Every exit of `pid` comes directly, among the events of `pid`, after an entry. */
  predicate ExitsFollowEntries(tr: Trace<Event>, pid: nat) {
    match tr
    case Start => true
    case Then(before, e) =>
      && ExitsFollowEntries(before, pid)
      && (e.Exit? && e.pid == pid ==> S.Open(Erase(before), pid).Some?)
  }

  /** At every exit of `pid` the latest event of `pid` is an entry at this call's entry time, or the call took no time. */
  predicate NoTimeHidden(tr: Trace<Event>, pid: nat) {
    match tr
    case Start => true
    case Then(before, e) =>
      && NoTimeHidden(before, pid)
      && (e.Exit? && e.pid == pid ==>
            var entry := EntryTime(before, pid, e.call);
            S.Open(Erase(before), pid) == entry || (S.Open(Erase(before), pid).None? && entry == Some(e.now)))
  }

  /** The calls of `pid` do not overlap: each is entered when none is open and exits before the next is entered. */
  predicate NonOverlapping(tr: Trace<Event>, pid: nat) {
    match tr
    case Start => true
    case Then(before, e) =>
      && NonOverlapping(before, pid)
      && (e.pid == pid && e.Enter? ==> S.Open(Erase(before), pid).None?)
      && (e.pid == pid && e.Exit? ==> LatestEntered(before, pid) == Some(e.call))
  }

  /** The call that the latest event of `pid` entered. */
  function LatestEntered(tr: Trace<Event>, pid: nat): Option<nat> {
    match tr
    case Start => None
    case Then(before, e) =>
      if e.pid != pid then LatestEntered(before, pid) else if e.Enter? then Some(e.call) else None
  }

  /** While the start map has room, an exit is recorded exactly when it follows an entry. */
  lemma {:induction false} RecordedCountIff(t0: u64, tr: Trace<Event>, pid: nat)
    requires S.Monotone(t0, Erase(tr)) && S.Roomy(Erase(tr))
    ensures |S.Lengths(Erase(tr), pid)| <= Exits(tr, pid)
    ensures |S.Lengths(Erase(tr), pid)| == Exits(tr, pid) <==> ExitsFollowEntries(tr, pid)
  {
    match tr {
      case Start =>
      case Then(before, e) =>
        RecordedCountIff(t0, before, pid);
        S.OpenIsStored(Erase(before), pid);
        S.TotalAtMostElapsed(t0, Erase(before), pid);
    }
  }

  lemma {:induction false} RecordedLatencyIff(t0: u64, tr: Trace<Event>, pid: nat)
    requires S.Monotone(t0, Erase(tr)) && Matched(tr) && S.Roomy(Erase(tr))
    ensures Sum(S.Lengths(Erase(tr), pid)) <= TrueTotal(tr, pid)
    ensures Sum(S.Lengths(Erase(tr), pid)) == TrueTotal(tr, pid) <==> NoTimeHidden(tr, pid)
  {
    match tr {
      case Start =>
      case Then(before, e) =>
        RecordedLatencyIff(t0, before, pid);
        if e.Exit? && e.pid == pid {
          S.OpenIsStored(Erase(before), pid);
          S.StartIsOpen(Erase(before), pid);
          EntryBeforeOpen(t0, before, pid, e.call);
          S.TotalAtMostElapsed(t0, Erase(before), pid);
          if pid in S.Run(Erase(before)).start {
            SumSnoc(S.Lengths(Erase(before), pid), e.now - S.Run(Erase(before)).start[pid]);
          }
        }
    }
  }

  lemma {:induction false} TotalKeys(tr: Trace<Event>)
    ensures Run(tr).acc.total.Keys <= S.Keys(Erase(tr))
    ensures Run(tr).acc.start.Keys <= S.Keys(Erase(tr))
  {
    match tr {
      case Start =>
      case Then(before, e) => TotalKeys(before);
    }
  }

  /** With no more processes than map entries, the maps of a process hold exactly what was recorded, nothing when absent. */
  lemma MapsHoldRecorded(t0: u64, tr: Trace<Event>, pid: nat)
    requires S.Monotone(t0, Erase(tr)) && S.Size(Erase(tr)) < U64 && |S.Keys(Erase(tr))| <= S.MAX_ENTRIES
    ensures Value(Run(tr).acc.total, pid) == Sum(S.Lengths(Erase(tr), pid))
    ensures Value(Run(tr).acc.count, pid) == |S.Lengths(Erase(tr), pid)|
  {
    RunIsAccumulator(tr);
    S.TotalsAreExact(t0, Erase(tr), pid);
    S.SameKeys(Erase(tr));
    if pid !in Run(tr).acc.total && S.Lengths(Erase(tr), pid) != [] {
      TotalKeys(tr);
      LengthsHaveKeys(Erase(tr), pid);
      SubsetSize(Run(tr).acc.total.Keys + {pid}, S.Keys(Erase(tr)));
    }
  }

  lemma {:induction false} LengthsHaveKeys(tr: Trace<S.Event>, k: nat)
    requires S.Lengths(tr, k) != []
    ensures k in S.Keys(tr)
  {
    if tr.event.key != k {
      LengthsHaveKeys(tr.before, k);
    }
  }

  /**
    With no more processes than map entries, the tool's count of a process is at most its number of
    exits, and equal to it if and only if no two of its exits are adjacent.
   */
  lemma CountIsExactIff(t0: u64, tr: Trace<Event>, pid: nat)
    requires S.Monotone(t0, Erase(tr)) && S.Size(Erase(tr)) < U64 && |S.Keys(Erase(tr))| <= S.MAX_ENTRIES
    ensures Value(Run(tr).acc.count, pid) <= Exits(tr, pid)
    ensures Value(Run(tr).acc.count, pid) == Exits(tr, pid) <==> ExitsFollowEntries(tr, pid)
  {
    S.FewKeysAreRoomy(Erase(tr));
    RecordedCountIff(t0, tr, pid);
    MapsHoldRecorded(t0, tr, pid);
  }

  /**
    With no more processes than map entries, the tool's latency of a process is at most the true
    total of its calls, and equal to it if and only if overlapping calls hide no time.
   */
  lemma LatencyIsExactIff(t0: u64, tr: Trace<Event>, pid: nat)
    requires S.Monotone(t0, Erase(tr)) && S.Size(Erase(tr)) < U64 && |S.Keys(Erase(tr))| <= S.MAX_ENTRIES
    requires Matched(tr)
    ensures Value(Run(tr).acc.total, pid) <= TrueTotal(tr, pid)
    ensures Value(Run(tr).acc.total, pid) == TrueTotal(tr, pid) <==> NoTimeHidden(tr, pid)
  {
    S.FewKeysAreRoomy(Erase(tr));
    RecordedLatencyIff(t0, tr, pid);
    MapsHoldRecorded(t0, tr, pid);
  }

  /** Calls that do not overlap meet both conditions. */
  lemma {:induction false} NonOverlappingIsExact(tr: Trace<Event>, pid: nat)
    requires NonOverlapping(tr, pid)
    ensures ExitsFollowEntries(tr, pid) && NoTimeHidden(tr, pid)
    ensures match LatestEntered(tr, pid)
            case Some(call) => S.Open(Erase(tr), pid).Some? && EntryTime(tr, pid, call) == S.Open(Erase(tr), pid)
            case None => S.Open(Erase(tr), pid).None?
  {
    match tr {
      case Start =>
      case Then(before, e) => NonOverlappingIsExact(before, pid);
    }
  }

  /** Two calls of one process that overlap: only one is counted, and 7 of 17 ns are recorded. */
  lemma OverlapHidesTime()
    ensures exists tr: Trace<Event> ::
              Matched(tr) && S.Monotone(0, Erase(tr))
              && Exits(tr, 1) == 2 && Run(tr).acc.count == map[1 := 1]
              && TrueTotal(tr, 1) == 17 && Run(tr).acc.total == map[1 := 7]
  {
    var t1 := Then(Start, Enter(1, 0, 10));
    var t2 := Then(t1, Enter(1, 1, 13));
    var t3 := Then(t2, Exit(1, 0, 20));
    var t4 := Then(t3, Exit(1, 1, 20));
    assert Run(t1).acc == S.State(map[1 := 10], map[], map[]);
    assert Run(t2).acc == S.State(map[1 := 13], map[], map[]);
    assert Run(t3).acc == S.State(map[], map[1 := 7], map[1 := 1]);
    assert Run(t4).acc == Run(t3).acc;
    assert TrueTotal(t3, 1) == 10;
  }
}
