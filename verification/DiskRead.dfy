/**
  disk_read_delay, from kernel event to dashboard number: two pairs of probes accumulate four
  counters in a hash map of four entries; a poller prints their growth, times in microseconds with
  three decimals; the client sums what was printed.
 */
module DiskRead {
  import opened Bpf
  import S = StartStop
  import opened LinePattern
  import opened Metrics

  const MAX_STARTS: nat := 10240
  const STATS: nat := 4

  datatype Event =
    | VfsEnter(tid: u64, now: u64)
    | VfsExit(tid: u64, now: u64)
    | BlockStart(rq: u64, now: u64)
    | BlockUpdate(rq: u64, now: u64)

  datatype Probe = Probe(readStart: map<u64, u64>, blockStart: map<u64, u64>, stats: map<nat, u64>)

  /** The maps of the kernel side. */
  class DiskReadProbe {
    var tsStartPid: map<u64, u64>
    var tsStartReq: map<u64, u64>
    var diskReadStats: map<nat, u64>

    function State(): Probe
      reads this
    {
      Probe(tsStartPid, tsStartReq, diskReadStats)
    }

    constructor ()
      ensures State() == LOADED
    {
      tsStartPid, tsStartReq, diskReadStats := map[], map[], map[];
    }

    method UpdateStat(key: nat, delta: u64)
      modifies this`diskReadStats
      ensures diskReadStats == Bump(old(diskReadStats), STATS, key, delta)
    {
      if key in diskReadStats {
        diskReadStats := diskReadStats[key := AddU64(diskReadStats[key], delta)];
      } else {
        diskReadStats := Put(diskReadStats, STATS, key, delta);
      }
    }

    method HandleVfsRead(tid: u64, ts: u64)
      modifies this
      ensures State() == Step(old(State()), VfsEnter(tid, ts))
    {
      tsStartPid := Put(tsStartPid, MAX_STARTS, tid, ts);
    }

    method HandleVfsReadRet(tid: u64, now: u64)
      modifies this
      ensures State() == Step(old(State()), VfsExit(tid, now))
    {
      if tid !in tsStartPid {
        return;
      }
      UpdateStat(0, SubU64(now, tsStartPid[tid]));
      UpdateStat(1, 1);
      tsStartPid := tsStartPid - {tid};
    }

    method HandleBlkMqStartRequest(rq: u64, ts: u64)
      modifies this
      ensures State() == Step(old(State()), BlockStart(rq, ts))
    {
      tsStartReq := Put(tsStartReq, MAX_STARTS, rq, ts);
    }

    method HandleBlkUpdateRequest(rq: u64, now: u64)
      modifies this
      ensures State() == Step(old(State()), BlockUpdate(rq, now))
    {
      if rq !in tsStartReq {
        return;
      }
      UpdateStat(2, SubU64(now, tsStartReq[rq]));
      UpdateStat(3, 1);
      tsStartReq := tsStartReq - {rq};
    }
  }

  const LOADED := Probe(map[], map[], map[])

  /** The latency that an event measures, if it ends a read or a request that was seen to start. */
  function Measured(s: Probe, e: Event): Option<u64> {
    match e
    case VfsExit(tid, now) => if tid in s.readStart then Some(SubU64(now, s.readStart[tid])) else None
    case BlockUpdate(rq, now) => if rq in s.blockStart then Some(SubU64(now, s.blockStart[rq])) else None
    case _ => None
  }

  /** The two counters of a layer: its total and, next to it, its count. */
  function Charge(stats: map<nat, u64>, base: nat, latency: Option<u64>): map<nat, u64> {
    match latency
    case None => stats
    case Some(d) => Bump(Bump(stats, STATS, base, d), STATS, base + 1, 1)
  }

  function Step(s: Probe, e: Event): Probe {
    match e
    case VfsEnter(tid, now) => s.(readStart := Put(s.readStart, MAX_STARTS, tid, now))
    case VfsExit(tid, now) => s.(readStart := s.readStart - {tid}, stats := Charge(s.stats, 0, Measured(s, e)))
    case BlockStart(rq, now) => s.(blockStart := Put(s.blockStart, MAX_STARTS, rq, now))
    case BlockUpdate(rq, now) => s.(blockStart := s.blockStart - {rq}, stats := Charge(s.stats, 2, Measured(s, e)))
  }

  function Run(tr: Trace<Event>): Probe {
    match tr
    case Start => LOADED
    case Then(before, e) => Step(Run(before), e)
  }

  // ---- The counters ----

  /** What an event adds to counter `i`. */
  function Increment(s: Probe, e: Event, i: nat): u64 {
    var base := if e.VfsExit? then 0 else 2;
    match Measured(s, e)
    case None => 0
    case Some(d) => if i == base then d else if i == base + 1 then 1 else 0
  }

  /** What the probe has charged to counter `i`, without wrap-around. */
  function Charged(tr: Trace<Event>, i: nat): nat {
    match tr
    case Start => 0
    case Then(before, e) => Charged(before, i) + Increment(Run(before), e, i)
  }

  lemma RoomBelowFour(ks: set<nat>, k: nat)
    requires (forall i | i in ks :: i < STATS) && k < STATS && k !in ks
    ensures |ks| < STATS
  {
    SubsetSize(ks + {k}, {0, 1, 2, 3});
  }

  /** In a map whose keys are below four, no bump of such a key is ever blocked. */
  lemma NeverBlocked(stats: map<nat, u64>, k: nat, d: u64)
    requires (forall i | i in stats :: i < STATS) && k < STATS
    ensures Bump(stats, STATS, k, d) == stats[k := AddU64(Value(stats, k), d)]
  {
    if k !in stats {
      RoomBelowFour(stats.Keys, k);
      assert |stats| == |stats.Keys|;
    }
  }

  /** Both counters of a layer grow, and nothing else changes. */
  lemma ChargeAdds(stats: map<nat, u64>, base: nat, d: u64)
    requires (forall i | i in stats :: i < STATS) && base + 1 < STATS
    ensures Charge(stats, base, Some(d))
            == stats[base := AddU64(Value(stats, base), d)][base + 1 := AddU64(Value(stats, base + 1), 1)]
  {
    NeverBlocked(stats, base, d);
    NeverBlocked(Bump(stats, STATS, base, d), base + 1, 1);
  }

  lemma StepKeepsKeys(s: Probe, e: Event)
    requires forall k | k in s.stats :: k < STATS
    ensures forall k | k in Step(s, e).stats :: k < STATS
    ensures s.stats.Keys <= Step(s, e).stats.Keys
  {
    if Measured(s, e).Some? {
      ChargeAdds(s.stats, if e.VfsExit? then 0 else 2, Measured(s, e).value);
    }
  }

  lemma ChargeValue(stats: map<nat, u64>, base: nat, d: u64, i: nat)
    requires (forall k | k in stats :: k < STATS) && base + 1 < STATS
    ensures Value(Charge(stats, base, Some(d)), i)
            == AddU64(Value(stats, i), if i == base then d else if i == base + 1 then 1 else 0)
  {
    ChargeAdds(stats, base, d);
  }

  lemma StepAdds(s: Probe, e: Event, i: nat)
    requires forall k | k in s.stats :: k < STATS
    ensures Value(Step(s, e).stats, i) == AddU64(Value(s.stats, i), Increment(s, e, i))
  {
    match Measured(s, e) {
      case Some(d) => ChargeValue(s.stats, if e.VfsExit? then 0 else 2, d, i);
      case None => assert Step(s, e).stats == s.stats;
    }
  }

  /** `disk_read_stats` only ever has the keys 0 to 3, and never loses one. */
  lemma {:induction false} KeysStayBelowFour(tr: Trace<Event>)
    ensures forall k | k in Run(tr).stats :: k < STATS
    ensures tr.Then? ==> Run(tr.before).stats.Keys <= Run(tr).stats.Keys
  {
    match tr {
      case Start =>
      case Then(before, e) =>
        KeysStayBelowFour(before);
        StepKeepsKeys(Run(before), e);
    }
  }

  /** Each counter is what was charged to it, modulo 2^64. */
  lemma {:induction false} CountersAreCharged(tr: Trace<Event>, i: nat)
    ensures Value(Run(tr).stats, i) == Wrap(Charged(tr, i))
  {
    match tr {
      case Start =>
      case Then(before, e) =>
        CountersAreCharged(before, i);
        KeysStayBelowFour(before);
        StepAdds(Run(before), e, i);
        WrapAdd(Charged(before, i), Increment(Run(before), e, i), Charged(tr, i));
    }
  }

  // ---- The true latencies, from the history alone ----

  /** The reads of the history: each entry and exit of a thread. */
  function Reads(tr: Trace<Event>): Trace<S.Event> {
    match tr
    case Start => Start
    case Then(before, VfsEnter(tid, now)) => Then(Reads(before), S.Begin(tid, now))
    case Then(before, VfsExit(tid, now)) => Then(Reads(before), S.End(tid, now))
    case Then(before, _) => Reads(before)
  }

  /** The block requests of the history. */
  function Requests(tr: Trace<Event>): Trace<S.Event> {
    match tr
    case Start => Start
    case Then(before, BlockStart(rq, now)) => Then(Requests(before), S.Begin(rq, now))
    case Then(before, BlockUpdate(rq, now)) => Then(Requests(before), S.End(rq, now))
    case Then(before, _) => Requests(before)
  }

  /** The start of the read or request that an event ends: the latest of its thread or request not since ended. */
  function StartOf(before: Trace<Event>, e: Event): Option<u64> {
    match e
    case VfsExit(tid, _) => S.Open(Reads(before), tid)
    case BlockUpdate(rq, _) => S.Open(Requests(before), rq)
    case _ => None
  }

  /** What an event truly adds to counter `i`: the time since that start, or one operation. */
  function TrueIncrement(before: Trace<Event>, e: Event, i: nat): int {
    var base := if e.VfsExit? then 0 else 2;
    match StartOf(before, e)
    case None => 0
    case Some(start) => if i == base then e.now - start else if i == base + 1 then 1 else 0
  }

  /** The true latencies (0 and 2) and numbers (1 and 3) of the reads and requests that ended. */
  function TrueSum(tr: Trace<Event>, i: nat): int {
    match tr
    case Start => 0
    case Then(before, e) => TrueSum(before, i) + TrueIncrement(before, e, i)
  }

  datatype Layer = Vfs | Block

  /** The event ends a read, or a block request, that was seen to start. */
  predicate Ends(before: Trace<Event>, e: Event, layer: Layer) {
    (if layer.Vfs? then e.VfsExit? else e.BlockUpdate?) && StartOf(before, e).Some?
  }

  /** The nanoseconds that the ended reads, or requests, took. */
  function Nanoseconds(tr: Trace<Event>, layer: Layer): int {
    match tr
    case Start => 0
    case Then(before, e) =>
      Nanoseconds(before, layer) + if Ends(before, e, layer) then e.now - StartOf(before, e).value else 0
  }

  /** Their number. */
  function Operations(tr: Trace<Event>, layer: Layer): nat {
    match tr
    case Start => 0
    case Then(before, e) => Operations(before, layer) + if Ends(before, e, layer) then 1 else 0
  }

  lemma {:induction false} TrueSumsAre(tr: Trace<Event>)
    ensures TrueSum(tr, 0) == Nanoseconds(tr, Vfs) && TrueSum(tr, 1) == Operations(tr, Vfs)
    ensures TrueSum(tr, 2) == Nanoseconds(tr, Block) && TrueSum(tr, 3) == Operations(tr, Block)
  {
    match tr {
      case Start =>
      case Then(before, e) => TrueSumsAre(before);
    }
  }

  /** The clock never runs backwards, from reads to reads or from requests to requests. */
  predicate Monotone(t0: u64, tr: Trace<Event>) {
    S.Monotone(t0, Reads(tr)) && S.Monotone(t0, Requests(tr))
  }

  /** At no time were more reads, or more requests, open than their map has entries. */
  predicate Roomy(tr: Trace<Event>) {
    S.Roomy(Reads(tr)) && S.Roomy(Requests(tr))
  }

  /** Each event does to a start map what the accumulator does to its own. */
  lemma StepStores(s: Probe, vfs: S.State, blk: S.State, e: Event)
    requires s.readStart == vfs.start && s.blockStart == blk.start
    ensures e.VfsEnter? ==> Step(s, e).readStart == S.OnBegin(vfs, e.tid, e.now).start
    ensures e.VfsExit? ==> Step(s, e).readStart == S.OnEnd(vfs, e.tid, e.now).start
    ensures e.BlockStart? ==> Step(s, e).blockStart == S.OnBegin(blk, e.rq, e.now).start
    ensures e.BlockUpdate? ==> Step(s, e).blockStart == S.OnEnd(blk, e.rq, e.now).start
  {
  }

  lemma {:induction false} StartsAreStored(tr: Trace<Event>)
    ensures Run(tr).readStart == S.Run(Reads(tr)).start
    ensures Run(tr).blockStart == S.Run(Requests(tr)).start
  {
    match tr {
      case Start =>
      case Then(before, e) =>
        StartsAreStored(before);
        StepStores(Run(before), S.Run(Reads(before)), S.Run(Requests(before)), e);
    }
  }

  /** A stored start is that of the history, in every run; while there is room, every start of the history is stored. */
  lemma MeasuredIsHistory(before: Trace<Event>, e: Event)
    ensures Measured(Run(before), e).Some? ==>
              StartOf(before, e).Some? && Measured(Run(before), e) == Some(SubU64(e.now, StartOf(before, e).value))
    ensures Roomy(before) && StartOf(before, e).Some? ==> Measured(Run(before), e).Some?
  {
    if e.VfsExit? {
      StartsAreStored(before);
      S.StartIsOpen(Reads(before), e.tid);
      if Roomy(before) {
        S.OpenIsStored(Reads(before), e.tid);
      }
    } else if e.BlockUpdate? {
      StartsAreStored(before);
      S.StartIsOpen(Requests(before), e.rq);
      if Roomy(before) {
        S.OpenIsStored(Requests(before), e.rq);
      }
    }
  }

  lemma StartInPast(t0: u64, before: Trace<Event>, e: Event)
    requires Monotone(t0, Then(before, e)) && StartOf(before, e).Some?
    ensures StartOf(before, e).value <= e.now
  {
    if e.VfsExit? {
      S.OpenInPast(t0, Reads(before), e.tid);
    } else {
      S.OpenInPast(t0, Requests(before), e.rq);
    }
  }

  lemma RestIsGood(t0: u64, before: Trace<Event>, e: Event)
    ensures Monotone(t0, Then(before, e)) ==> Monotone(t0, before)
    ensures Roomy(Then(before, e)) ==> Roomy(before)
  {
  }

  /** On a monotone clock no more is charged than truly passed, and exactly that while there is room for every start. */
  lemma {:induction false} ChargedIsTrue(t0: u64, tr: Trace<Event>, i: nat)
    requires Monotone(t0, tr)
    ensures Charged(tr, i) <= TrueSum(tr, i)
    ensures Roomy(tr) ==> Charged(tr, i) == TrueSum(tr, i)
  {
    match tr {
      case Start =>
      case Then(before, e) =>
        RestIsGood(t0, before, e);
        ChargedIsTrue(t0, before, i);
        MeasuredIsHistory(before, e);
        if StartOf(before, e).Some? {
          StartInPast(t0, before, e);
        }
    }
  }

  /**
    On a monotone clock, and while never more reads or requests are open than a map has entries, each
    counter is, modulo 2^64, the true sum of latencies or number of operations of the history.
   */
  lemma CountersAreSums(t0: u64, tr: Trace<Event>, i: nat)
    requires Monotone(t0, tr) && Roomy(tr)
    ensures TrueSum(tr, i) >= 0 && Value(Run(tr).stats, i) == Wrap(TrueSum(tr, i))
  {
    ChargedIsTrue(t0, tr, i);
    CountersAreCharged(tr, i);
  }

  // ---- The poller ----

  const KEYS: seq<string> := [
    "disk_read_vfs_total_us", "disk_read_vfs_count", "disk_read_block_total_us", "disk_read_block_count"]

  /** Totals are printed as thousandths with three decimals, counts as whole numbers. */
  function Decimals(i: nat): nat {
    if i % 2 == 0 then 3 else 0
  }

  /** A counter's value in its printed unit: microseconds, or a number. */
  function Amount(x: nat, i: nat): real {
    Scaled(x as real, Decimals(i))
  }

  lemma AmountsAdd(x: nat, y: nat, sum: nat, i: nat)
    requires sum == x + y
    ensures Amount(x, i) + Amount(y, i) == Amount(sum, i)
  {
    ScaledAdds(x as real, y as real, Decimals(i));
  }

  function Complaint(i: nat, err: string): string {
    "failed to lookup stats key " + (Dec(i) + (": " + err))
  }

  /** The complaint about counter `i`, when it does not exist yet. */
  function Complain(stats: map<nat, u64>, err: string, i: nat): seq<LogLine> {
    if i in stats then [] else [Noise(Complaint(i, err))]
  }

  function Report(delta: seq<u64>): seq<LogLine>
    requires |delta| == STATS
  {
    [Metric(KEYS[0], delta[0], Decimals(0)), Metric(KEYS[1], delta[1], Decimals(1)),
     Metric(KEYS[2], delta[2], Decimals(2)), Metric(KEYS[3], delta[3], Decimals(3))]
  }

  function Current(stats: map<nat, u64>): seq<u64> {
    seq(STATS, i requires 0 <= i < STATS => Value(stats, i))
  }

  function Deltas(cur: seq<u64>, prev: seq<u64>): seq<u64>
    requires |cur| == |prev| == STATS
  {
    seq(STATS, i requires 0 <= i < STATS => Growth(cur[i], prev[i]))
  }

  function Complaints(stats: map<nat, u64>, err: string, n: nat): seq<LogLine> {
    if n == 0 then [] else Complaints(stats, err, n - 1) + Complain(stats, err, n - 1)
  }

  /** The lines of one poll; complaints go to stderr, which the client merges into the same stream. */
  function PollLines(stats: map<nat, u64>, prev: seq<u64>, err: string): seq<LogLine>
    requires |prev| == STATS
  {
    Complaints(stats, err, STATS) + Report(Deltas(Current(stats), prev))
  }

  lemma {:induction false} ComplaintsAre(stats: map<nat, u64>, err: string, n: nat, l: LogLine)
    ensures l in Complaints(stats, err, n) <==> exists j :: 0 <= j < n && j !in stats && l == Noise(Complaint(j, err))
  {
    if n > 0 {
      ComplaintsAre(stats, err, n - 1, l);
      if n - 1 !in stats && l == Noise(Complaint(n - 1, err)) {
        assert 0 <= n - 1 < n;
      }
    }
  }

  lemma ComplaintNames(i: nat, j: nat, err: string)
    requires i < STATS && j < STATS && Complaint(i, err) == Complaint(j, err)
    ensures i == j
  {
    assert Complaint(i, err)[27] == Dec(i)[0] && Complaint(j, err)[27] == Dec(j)[0];
  }

  /** A poll complains about exactly the counters that do not exist yet. */
  lemma ComplainsIff(stats: map<nat, u64>, prev: seq<u64>, err: string, i: nat)
    requires |prev| == STATS && i < STATS
    ensures Noise(Complaint(i, err)) in PollLines(stats, prev, err) <==> i !in stats
  {
    var l := Noise(Complaint(i, err));
    ComplaintsAre(stats, err, STATS, l);
    if l in Complaints(stats, err, STATS) {
      var j :| 0 <= j < STATS && j !in stats && l == Noise(Complaint(j, err));
      ComplaintNames(i, j, err);
    }
  }

  /** One round of the poll loop. A counter that cannot be read counts as zero. */
  method PollOnce(stats: map<nat, u64>, prev: seq<u64>, err: string) returns (next: seq<u64>, log: seq<LogLine>)
    requires |prev| == STATS
    ensures next == Current(stats) && log == PollLines(stats, prev, err)
  {
    var cur := new u64[4](_ => 0);
    var delta := new u64[4](_ => 0);
    log := [];
    for i := 0 to 4
      invariant forall j | 0 <= j < i :: cur[j] == Value(stats, j) && delta[j] == Growth(cur[j], prev[j])
      invariant forall j | i <= j < 4 :: cur[j] == 0
      invariant log == Complaints(stats, err, i)
    {
      if i in stats {
        cur[i] := stats[i];
      } else {
        log := log + [Noise(Complaint(i, err))];
      }
      delta[i] := if cur[i] > prev[i] then cur[i] - prev[i] else 0;
    }
    assert delta[..] == Deltas(Current(stats), prev);
    log := log + [Metric("disk_read_vfs_total_us", delta[0], 3), Metric("disk_read_vfs_count", delta[1], 0),
                  Metric("disk_read_block_total_us", delta[2], 3), Metric("disk_read_block_count", delta[3], 0)];
    next := cur[..];
  }

  // ---- Whole runs: kernel events interleaved with polls ----

  datatype Op = Kernel(e: Event) | PollNow(err: string)

  function KernelOf(ops: Trace<Op>): Trace<Event> {
    match ops
    case Start => Start
    case Then(before, Kernel(e)) => Then(KernelOf(before), e)
    case Then(before, PollNow(_)) => KernelOf(before)
  }

  /** The counters at the last poll. */
  function LastPolled(ops: Trace<Op>): (r: seq<u64>)
    ensures |r| == STATS
  {
    match ops
    case Start => [0, 0, 0, 0]
    case Then(before, Kernel(_)) => LastPolled(before)
    case Then(before, PollNow(_)) => Current(Run(KernelOf(before)).stats)
  }

  function Log(ops: Trace<Op>): seq<LogLine> {
    match ops
    case Start => []
    case Then(before, Kernel(_)) => Log(before)
    case Then(before, PollNow(err)) => Log(before) + PollLines(Run(KernelOf(before)).stats, LastPolled(before), err)
  }

  /** The complaints are single lines and not JSON. */
  predicate Quiet(json: Json, ops: Trace<Op>) {
    match ops
    case Start => true
    case Then(before, op) =>
      && Quiet(json, before)
      && (op.PollNow? ==> QuietPoll(json, op.err))
  }

  /** No counter has wrapped. */
  predicate Unwrapped(tr: Trace<Event>) {
    forall i | 0 <= i < STATS :: Charged(tr, i) < U64
  }

  // ---- What the client makes of the log ----

  lemma ComplaintIsNoise(json: Json, i: nat, err: string)
    requires All(Inline, err) && json(Complaint(i, err)) == []
    ensures Printable(json, Noise(Complaint(i, err)))
  {
    var body := ComplaintCut(i, err);
    FailedIsKey();
    TwoWordsAreNoMetric("failed", body);
    ComplaintIsInline(i, err);
  }

  lemma ComplaintCut(i: nat, err: string) returns (body: string)
    ensures Complaint(i, err) == "failed" + (" " + body) && body != [] && body[0] == 't'
  {
    body := "to lookup stats key " + (Dec(i) + (": " + err));
    assert "failed to lookup stats key " == "failed" + (" " + "to lookup stats key ");
  }

  lemma FailedIsKey()
    ensures All(KeyChar, "failed")
  {
  }

  lemma ComplaintIsInline(i: nat, err: string)
    requires All(Inline, err)
    ensures All(Inline, Complaint(i, err))
  {
    DecRoundTrip(i);
    assert forall c | In(Digit, c) :: In(Inline, c);
    assert All(Inline, "failed to lookup stats key ");
    assert All(Inline, ": ");
  }

  lemma KeysAreAccepted(i: nat)
    requires i < STATS
    ensures KEYS[i] != [] && All(KeyChar, KEYS[i]) && |KEYS[i]| <= MAX_KEY
  {
    assert All(KeyChar, "disk_read_vfs_total_us");
    assert All(KeyChar, "disk_read_vfs_count");
    assert All(KeyChar, "disk_read_block_total_us");
    assert All(KeyChar, "disk_read_block_count");
  }

  lemma KeysAreDistinct()
    ensures forall i, j | 0 <= i < j < STATS :: KEYS[i] != KEYS[j]
  {
    assert KEYS[0][10] == 'v' && KEYS[1][10] == 'v' && KEYS[2][10] == 'b' && KEYS[3][10] == 'b';
    assert |KEYS[0]| == 22 && |KEYS[1]| == 19 && |KEYS[2]| == 24 && |KEYS[3]| == 21;
  }

  // ---- End to end ----

  /** A report contributes to key `i` its growth, in its unit. */
  lemma ReportSums(delta: seq<u64>, i: nat)
    requires |delta| == STATS && i < STATS
    ensures Mentions(MetricsOf(Report(delta)), KEYS[i])
    ensures SumFor(MetricsOf(Report(delta)), KEYS[i]) == Amount(delta[i], i)
  {
    MetricsPointwise(Report(delta));
    KeysAreDistinct();
    SumDistinct(MetricsOf(Report(delta)), i);
  }

  lemma {:induction false} ComplaintsAreNoise(stats: map<nat, u64>, err: string, n: nat)
    ensures forall j | 0 <= j < |Complaints(stats, err, n)| ::
              Complaints(stats, err, n)[j].Noise?
              && exists i :: 0 <= i < n && Complaints(stats, err, n)[j].text == Complaint(i, err)
  {
    if n > 0 {
      ComplaintsAreNoise(stats, err, n - 1);
    }
  }

  lemma {:induction false} NoiseHasNoMetrics(log: seq<LogLine>)
    requires forall j | 0 <= j < |log| :: log[j].Noise?
    ensures MetricsOf(log) == []
  {
    if log != [] {
      NoiseHasNoMetrics(log[..|log| - 1]);
    }
  }

  predicate QuietPoll(json: Json, err: string) {
    All(Inline, err) && forall i | 0 <= i < STATS :: json(Complaint(i, err)) == []
  }

  lemma ComplaintsArePrintable(json: Json, stats: map<nat, u64>, err: string)
    requires QuietPoll(json, err)
    ensures forall j | 0 <= j < |Complaints(stats, err, STATS)| :: Printable(json, Complaints(stats, err, STATS)[j])
  {
    ComplaintsAreNoise(stats, err, STATS);
    forall j | 0 <= j < |Complaints(stats, err, STATS)|
      ensures Printable(json, Complaints(stats, err, STATS)[j])
    {
      var i :| 0 <= i < STATS && Complaints(stats, err, STATS)[j].text == Complaint(i, err);
      ComplaintIsNoise(json, i, err);
    }
  }

  lemma PollIsPrintable(json: Json, stats: map<nat, u64>, prev: seq<u64>, err: string)
    requires |prev| == STATS && QuietPoll(json, err)
    ensures forall j | 0 <= j < |PollLines(stats, prev, err)| :: Printable(json, PollLines(stats, prev, err)[j])
  {
    var delta := Deltas(Current(stats), prev);
    ComplaintsArePrintable(json, stats, err);
    forall j | 0 <= j < STATS ensures Printable(json, Report(delta)[j]) {
      KeysAreAccepted(j);
      CounterIsFinite(delta[j], Decimals(j));
    }
  }

  /** What one poll contributes: for each counter, its growth in its unit. */
  lemma PollContributes(json: Json, stats: map<nat, u64>, prev: seq<u64>, err: string, i: nat)
    requires |prev| == STATS && i < STATS && QuietPoll(json, err)
    ensures Mentions(MetricsOf(PollLines(stats, prev, err)), KEYS[i])
    ensures SumFor(MetricsOf(PollLines(stats, prev, err)), KEYS[i])
            == Amount(Growth(Value(stats, i), prev[i]), i)
  {
    var delta := Deltas(Current(stats), prev);
    ComplaintsAreNoise(stats, err, STATS);
    NoiseHasNoMetrics(Complaints(stats, err, STATS));
    LogConcat(Complaints(stats, err, STATS), Report(delta));
    assert [] + MetricsOf(Report(delta)) == MetricsOf(Report(delta));
    ReportSums(delta, i);
  }

  function Polls(ops: Trace<Op>): nat {
    match ops
    case Start => 0
    case Then(before, op) => Polls(before) + if op.PollNow? then 1 else 0
  }

  lemma {:induction false} LastPolledInPast(ops: Trace<Op>, i: nat)
    requires Unwrapped(KernelOf(ops)) && i < STATS
    ensures LastPolled(ops)[i] <= Charged(KernelOf(ops), i) == Value(Run(KernelOf(ops)).stats, i)
  {
    CountersAreCharged(KernelOf(ops), i);
    match ops {
      case Start =>
      case Then(before, op) =>
        UnwrappedBefore(ops);
        LastPolledInPast(before, i);
    }
  }

  lemma UnwrappedBefore(ops: Trace<Op>)
    requires ops.Then? && Unwrapped(KernelOf(ops))
    ensures Unwrapped(KernelOf(ops.before))
  {
    forall i | 0 <= i < STATS ensures Charged(KernelOf(ops.before), i) < U64 {
      assert Charged(KernelOf(ops), i) < U64;
    }
  }

  lemma {:induction false} LogIsPrintable(json: Json, ops: Trace<Op>)
    requires Quiet(json, ops)
    ensures forall j | 0 <= j < |Log(ops)| :: Printable(json, Log(ops)[j])
  {
    match ops {
      case Start =>
      case Then(before, op) =>
        LogIsPrintable(json, before);
        if op.PollNow? {
          PollIsPrintable(json, Run(KernelOf(before)).stats, LastPolled(before), op.err);
        }
    }
  }

  /** The printed growths telescope: what the log says of a counter adds up to its last polled value. */
  lemma {:induction false} LogTelescopes(json: Json, ops: Trace<Op>, i: nat)
    requires Quiet(json, ops) && Unwrapped(KernelOf(ops)) && i < STATS
    ensures Mentions(MetricsOf(Log(ops)), KEYS[i]) <==> Polls(ops) > 0
    ensures SumFor(MetricsOf(Log(ops)), KEYS[i]) == Amount(LastPolled(ops)[i], i)
  {
    match ops {
      case Start => ScaledShrinks(0.0, Decimals(i));
      case Then(before, op) =>
        UnwrappedBefore(ops);
        LogTelescopes(json, before, i);
        if op.PollNow? {
          PollTelescopes(json, before, op.err, i);
        }
    }
  }

  lemma PollTelescopes(json: Json, before: Trace<Op>, err: string, i: nat)
    requires QuietPoll(json, err) && Unwrapped(KernelOf(before)) && i < STATS
    ensures var log, log' := MetricsOf(Log(before)), MetricsOf(Log(Then(before, PollNow(err))));
            && Mentions(log', KEYS[i])
            && SumFor(log', KEYS[i]) - SumFor(log, KEYS[i])
               == Amount(LastPolled(Then(before, PollNow(err)))[i], i) - Amount(LastPolled(before)[i], i)
  {
    var stats, prev := Run(KernelOf(before)).stats, LastPolled(before);
    var lines := PollLines(stats, prev, err);
    LastPolledInPast(before, i);
    PollContributes(json, stats, prev, err, i);
    LogConcat(Log(before), lines);
    Metrics.SumConcat(MetricsOf(Log(before)), MetricsOf(lines), KEYS[i]);
    AmountsAdd(prev[i], Growth(Value(stats, i), prev[i]), Value(stats, i), i);
  }

  /** What the client shows for these four numbers: times in microseconds, exact to the nanosecond, and counts. */
  predicate Shows(out: map<string, real>, vfsNs: int, vfsCount: int, blockNs: int, blockCount: int) {
    && 1000.0 * Get(out, "disk_read_vfs_total_us") == vfsNs as real
    && Get(out, "disk_read_vfs_count") == vfsCount as real
    && 1000.0 * Get(out, "disk_read_block_total_us") == blockNs as real
    && Get(out, "disk_read_block_count") == blockCount as real
  }

  const METRICS: set<string> := {
    "disk_read_vfs_total_us", "disk_read_vfs_count", "disk_read_block_total_us", "disk_read_block_count"}

  /** Three decimals of a microsecond lose no nanosecond. */
  lemma Thousandths(x: nat)
    ensures 1000.0 * Scaled(x as real, 3) == x as real
  {
    ScaledIsQuotient(x as real, 3);
    assert Pow10(3) == 1000;
  }

  lemma AmountsAreShown(out: map<string, real>, v: seq<nat>)
    requires |v| == STATS && forall i | 0 <= i < STATS :: Get(out, KEYS[i]) == Amount(v[i], i)
    ensures Shows(out, v[0], v[1], v[2], v[3])
  {
    Thousandths(v[0]);
    Thousandths(v[2]);
    assert Get(out, KEYS[0]) == Amount(v[0], 0) && Get(out, KEYS[1]) == Amount(v[1], 1);
    assert Get(out, KEYS[2]) == Amount(v[2], 2) && Get(out, KEYS[3]) == Amount(v[3], 3);
  }

  lemma ReportMentions(delta: seq<u64>, k: string)
    requires |delta| == STATS && k !in METRICS
    ensures !Mentions(MetricsOf(Report(delta)), k)
  {
    MetricsPointwise(Report(delta));
    SumAbsent(MetricsOf(Report(delta)), k);
  }

  lemma {:induction false} LogMentions(ops: Trace<Op>, k: string)
    requires k !in METRICS
    ensures !Mentions(MetricsOf(Log(ops)), k)
  {
    match ops {
      case Start =>
      case Then(before, op) =>
        LogMentions(before, k);
        if op.PollNow? {
          var stats := Run(KernelOf(before)).stats;
          var complaints, report := Complaints(stats, op.err, STATS), Report(Deltas(Current(stats), LastPolled(before)));
          ComplaintsAreNoise(stats, op.err, STATS);
          NoiseHasNoMetrics(complaints);
          LogConcat(complaints, report);
          LogConcat(Log(before), complaints + report);
          Metrics.SumConcat(MetricsOf(complaints), MetricsOf(report), k);
          Metrics.SumConcat(MetricsOf(Log(before)), MetricsOf(complaints + report), k);
          ReportMentions(Deltas(Current(stats), LastPolled(before)), k);
        }
    }
  }

  lemma MetricHasIndex(k: string) returns (i: nat)
    requires k in METRICS
    ensures i < STATS && KEYS[i] == k
  {
    i := if k == KEYS[0] then 0 else if k == KEYS[1] then 1 else if k == KEYS[2] then 2 else 3;
  }

  /** The client shows the four metrics and no other, from the first poll on. */
  lemma DashboardKey(json: Json, ops: Trace<Op>, k: string)
    requires Quiet(json, ops) && Unwrapped(KernelOf(ops))
    ensures k in Parse(json, Render(Log(ops))) <==> k in METRICS && Polls(ops) > 0
  {
    LogIsPrintable(json, ops);
    LogRoundTrip(json, Log(ops), k);
    if k in METRICS {
      var i := MetricHasIndex(k);
      LogTelescopes(json, ops, i);
    } else {
      LogMentions(ops, k);
    }
  }

  /**
    From an untruncated log of any interleaving of kernel events and polls in which no counter
    wraps, the client shows exactly the counters of the last poll: the totals, nanoseconds, as
    microseconds that lose nothing, and the counts as they are.
   */
  lemma DashboardIsLastPolled(json: Json, ops: Trace<Op>)
    requires Quiet(json, ops) && Unwrapped(KernelOf(ops))
    ensures (var out, last := Parse(json, Render(Log(ops))), LastPolled(ops);
      Shows(out, last[0], last[1], last[2], last[3]) && out.Keys == if Polls(ops) > 0 then METRICS else {})
    ensures ops.Then? && ops.event.PollNow? ==>
              forall i | 0 <= i < STATS :: LastPolled(ops)[i] == Charged(KernelOf(ops), i)
  {
    LogIsPrintable(json, ops);
    forall k ensures k in Parse(json, Render(Log(ops))) <==> k in METRICS && Polls(ops) > 0 {
      DashboardKey(json, ops, k);
    }
    forall i | 0 <= i < STATS
      ensures Get(Parse(json, Render(Log(ops))), KEYS[i]) == Amount(LastPolled(ops)[i], i)
      ensures ops.Then? && ops.event.PollNow? ==> LastPolled(ops)[i] == Charged(KernelOf(ops), i)
    {
      LogTelescopes(json, ops, i);
      LogRoundTrip(json, Log(ops), KEYS[i]);
      LastPolledInPast(ops, i);
    }
    AmountsAreShown(Parse(json, Render(Log(ops))), LastPolled(ops));
  }

  /** No true sum exceeds a u64. */
  predicate Fits(tr: Trace<Event>) {
    forall i | 0 <= i < STATS :: TrueSum(tr, i) < U64
  }

  lemma FitsIsUnwrapped(t0: u64, tr: Trace<Event>)
    requires Monotone(t0, tr) && Fits(tr)
    ensures Unwrapped(tr)
  {
    forall i | 0 <= i < STATS ensures Charged(tr, i) < U64 {
      ChargedIsTrue(t0, tr, i);
    }
  }

  /** The kernel events up to the last poll. */
  function UpToLastPoll(ops: Trace<Op>): Trace<Event> {
    match ops
    case Start => Start
    case Then(before, Kernel(_)) => UpToLastPoll(before)
    case Then(before, PollNow(_)) => KernelOf(before)
  }

  lemma {:induction false} LastPollSaw(ops: Trace<Op>, i: nat)
    requires i < STATS
    ensures LastPolled(ops)[i] == Value(Run(UpToLastPoll(ops)).stats, i)
  {
    match ops {
      case Start =>
      case Then(before, op) => LastPollSaw(before, i);
    }
  }

  lemma {:induction false} LastPollIsPast(t0: u64, ops: Trace<Op>, i: nat)
    requires Monotone(t0, KernelOf(ops)) && Roomy(KernelOf(ops))
    ensures Monotone(t0, UpToLastPoll(ops)) && Roomy(UpToLastPoll(ops))
    ensures TrueSum(UpToLastPoll(ops), i) <= TrueSum(KernelOf(ops), i)
  {
    match ops {
      case Start =>
      case Then(before, Kernel(e)) =>
        RestIsGood(t0, KernelOf(before), e);
        LastPollIsPast(t0, before, i);
        if StartOf(KernelOf(before), e).Some? {
          StartInPast(t0, KernelOf(before), e);
        }
      case Then(before, PollNow(_)) =>
    }
  }

  /**
    End to end, for every interleaving of kernel events and polls on a monotone clock, with room for
    every start and true sums that fit a u64: from an untruncated log the client shows, under the four
    names and no other, exactly the true latencies and numbers of operations up to the last poll.
   */
  lemma DashboardIsExact(json: Json, t0: u64, ops: Trace<Op>)
    requires Quiet(json, ops)
    requires Monotone(t0, KernelOf(ops)) && Roomy(KernelOf(ops)) && Fits(KernelOf(ops))
    ensures (var out, tr := Parse(json, Render(Log(ops))), UpToLastPoll(ops);
      && Shows(out, Nanoseconds(tr, Vfs), Operations(tr, Vfs), Nanoseconds(tr, Block), Operations(tr, Block))
      && out.Keys == if Polls(ops) > 0 then METRICS else {})
  {
    FitsIsUnwrapped(t0, KernelOf(ops));
    DashboardIsLastPolled(json, ops);
    TrueSumsAre(UpToLastPoll(ops));
    forall i | 0 <= i < STATS ensures LastPolled(ops)[i] == TrueSum(UpToLastPoll(ops), i) {
      LastPollIsTrue(t0, ops, i);
    }
  }

  lemma LastPollIsTrue(t0: u64, ops: Trace<Op>, i: nat)
    requires i < STATS && Monotone(t0, KernelOf(ops)) && Roomy(KernelOf(ops)) && Fits(KernelOf(ops))
    ensures LastPolled(ops)[i] == TrueSum(UpToLastPoll(ops), i)
  {
    LastPollSaw(ops, i);
    LastPollIsPast(t0, ops, i);
    CountersAreSums(t0, UpToLastPoll(ops), i);
  }
}
