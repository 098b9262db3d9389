/**
  disk_io_size with whole handlers as atomic events: the per-PID split, and the step machine's
  four adds run without interruption.
 */
module DiskIoPids {
  import opened Bpf
  import opened DiskIoSize

  const MAX_ENTRIES: nat := 10240

  /** `struct pid_io` */
  datatype PidIo = PidIo(readBytes: u64, writeBytes: u64, readCount: u64, writeCount: u64)

  datatype Issue = Issue(pid: u32, write: bool, sectors: u32)

  function FirstIo(write: bool, bytes: u64): PidIo {
    if write then PidIo(0, bytes, 0, 1) else PidIo(bytes, 0, 1, 0)
  }

  function AddIo(io: PidIo, write: bool, bytes: u64): PidIo {
    if write
    then io.(writeBytes := AddU64(io.writeBytes, bytes), writeCount := AddU64(io.writeCount, 1))
    else io.(readBytes := AddU64(io.readBytes, bytes), readCount := AddU64(io.readCount, 1))
  }

  function CountPid(pids: map<nat, PidIo>, e: Issue): map<nat, PidIo> {
    if e.pid in pids then pids[e.pid := AddIo(pids[e.pid], e.write, Bytes(e.sectors))]
    else Put(pids, MAX_ENTRIES, e.pid, FirstIo(e.write, Bytes(e.sectors)))
  }

  /** What a request adds to each slot of the array, as u64 adds. */
  ghost predicate Charged(stats: seq<u64>, stats': seq<u64>, e: Issue) {
    && |stats| == |stats'| == STATS_SIZE
    && forall slot | 0 <= slot < STATS_SIZE :: stats'[slot] == AddU64(stats[slot], Portion(e, slot))
  }

  function Portion(e: Issue, slot: nat): u64 {
    Share(e.write, 512 * e.sectors, slot)
  }

  class DiskIoSizeProbe {
    var ioSizeStats: array<u64>
    var pidIoStats: map<nat, PidIo>

    ghost predicate Valid()
      reads this
    {
      ioSizeStats.Length == STATS_SIZE
    }

    constructor ()
      ensures Valid() && fresh(ioSizeStats) && ioSizeStats[..] == seq(STATS_SIZE, _ => 0) && pidIoStats == map[]
    {
      ioSizeStats := new u64[STATS_SIZE](_ => 0);
      pidIoStats := map[];
    }

    method Add(slot: nat, d: u64)
      requires Valid() && slot < STATS_SIZE
      modifies ioSizeStats
      ensures ioSizeStats[..] == AddAt(old(ioSizeStats[..]), slot, d)
    {
      ioSizeStats[slot] := AddU64(ioSizeStats[slot], d);
    }

    method HandleBlockRqIssue(e: Issue)
      requires Valid()
      modifies this`pidIoStats, ioSizeStats
      ensures Valid() && Charged(old(ioSizeStats[..]), ioSizeStats[..], e)
      ensures pidIoStats == CountPid(old(pidIoStats), e)
    {
      var bytes := Bytes(e.sectors);
      if e.write {
        Add(WRITE_BYTES, bytes);
        Add(WRITE_COUNT, 1);
      } else {
        Add(READ_BYTES, bytes);
        Add(READ_COUNT, 1);
      }
      Add(TOTAL_BYTES, bytes);
      Add(TOTAL_COUNT, 1);
      if e.pid in pidIoStats {
        pidIoStats := pidIoStats[e.pid := AddIo(pidIoStats[e.pid], e.write, bytes)];
      } else {
        pidIoStats := Put(pidIoStats, MAX_ENTRIES, e.pid, FirstIo(e.write, bytes));
      }
    }
  }

  /** A handler of the step machine that runs its four adds without interruption is one atomic handler. */
  lemma UninterruptedIsAtomic(s: State, h: nat, e: Issue)
    requires h !in s.running && |s.stats| == STATS_SIZE
    ensures (var begun := Next(s, Begin(h, e.write, e.sectors));
             var done := Next(Next(Next(Next(begun, Advance(h)), Advance(h)), Advance(h)), Advance(h));
             Charged(s.stats, done.stats, e) && done.running == s.running)
  {
    var r := Request(e.write, Bytes(e.sectors), 0);
    var s0 := Next(s, Begin(h, e.write, e.sectors));
    assert s0.running == s.running[h := r];
    var s1 := Next(s0, Advance(h));
    AdvanceOnce(s0, h, r);
    var s2 := Next(s1, Advance(h));
    AdvanceOnce(s1, h, r.(pc := 1));
    var s3 := Next(s2, Advance(h));
    AdvanceOnce(s2, h, r.(pc := 2));
    AdvanceOnce(s3, h, r.(pc := 3));
    FourAdds(s.stats, e);
    assert s.running[h := r] - {h} == s.running;
  }

  lemma AdvanceOnce(s: State, h: nat, r: Request)
    requires h in s.running && s.running[h] == r && r.pc <= 3
    ensures Next(s, Advance(h)).stats == AddAt(s.stats, Slot(r), Amount(r))
    ensures r.pc < 3 ==> Next(s, Advance(h)).running == s.running[h := r.(pc := r.pc + 1)]
    ensures r.pc == 3 ==> Next(s, Advance(h)).running == s.running - {h}
  {
  }

  lemma FourAdds(stats: seq<u64>, e: Issue)
    requires |stats| == STATS_SIZE
    ensures (var r := Request(e.write, Bytes(e.sectors), 0);
      var once := AddAt(AddAt(stats, Slot(r), Amount(r)), Slot(r.(pc := 1)), Amount(r.(pc := 1)));
      var all := AddAt(AddAt(once, Slot(r.(pc := 2)), Amount(r.(pc := 2))), Slot(r.(pc := 3)), Amount(r.(pc := 3)));
      Charged(stats, all, e))
  {
  }

  // ---- The per-PID split ----

  /** A field of the struct, under the number of the array slot it splits. */
  function Field(io: PidIo, slot: nat): u64 {
    match slot
    case 0 => io.readBytes
    case 1 => io.writeBytes
    case 2 => io.readCount
    case _ => io.writeCount
  }

  function Column(pids: map<nat, PidIo>, slot: nat): map<nat, u64> {
    map p | p in pids :: Field(pids[p], slot)
  }

  lemma CountPidIsBump(pids: map<nat, PidIo>, e: Issue, slot: nat)
    requires slot <= WRITE_COUNT
    ensures Column(CountPid(pids, e), slot) == Bump(Column(pids, slot), MAX_ENTRIES, e.pid, Portion(e, slot))
  {
    assert Column(pids, slot).Keys == pids.Keys;
    assert |Column(pids, slot)| == |pids|;
  }

  function Pids(tr: Trace<Issue>): map<nat, PidIo> {
    match tr
    case Start => map[]
    case Then(before, e) => CountPid(Pids(before), e)
  }

  function Requested(tr: Trace<Issue>, slot: nat): nat {
    match tr
    case Start => 0
    case Then(before, e) => Requested(before, slot) + Portion(e, slot)
  }

  /** While the PID map is not full, its entries split the bytes and counts of all requests; they never exceed them. */
  lemma {:induction false} PidsSplitRequests(tr: Trace<Issue>, slot: nat)
    requires slot <= WRITE_COUNT && Requested(tr, slot) < U64
    ensures Total(Column(Pids(tr), slot)) <= Requested(tr, slot)
    ensures |Pids(tr)| < 10240 ==> Total(Column(Pids(tr), slot)) == Requested(tr, slot)
  {
    if tr.Then? {
      var m, e := Column(Pids(tr.before), slot), tr.event;
      PidsSplitRequests(tr.before, slot);
      CountPidIsBump(Pids(tr.before), e, slot);
      assert m.Keys == Pids(tr.before).Keys && |m| == |Pids(tr.before)|;
      if e.pid in m {
        TotalRemove(m, e.pid);
      }
      BumpTotal(m, MAX_ENTRIES, e.pid, Portion(e, slot));
    } else {
      assert Column(map[], slot) == map[];
    }
  }

  /** The array after a run of whole handlers. */
  ghost predicate ArrayAfter(tr: Trace<Issue>, stats: seq<u64>) {
    match tr
    case Start => stats == seq(STATS_SIZE, _ => 0)
    case Then(before, e) => exists was :: ArrayAfter(before, was) && Charged(was, stats, e)
  }

  /** Each slot of the array holds its requests modulo 2^64, so the PID map splits the array. */
  lemma {:induction false} ArrayHoldsRequests(tr: Trace<Issue>, stats: seq<u64>, slot: nat)
    requires ArrayAfter(tr, stats) && slot < STATS_SIZE
    ensures |stats| == STATS_SIZE && stats[slot] == Wrap(Requested(tr, slot))
  {
    if tr.Then? {
      var was :| ArrayAfter(tr.before, was) && Charged(was, stats, tr.event);
      ArrayHoldsRequests(tr.before, was, slot);
      WrapAdd(Requested(tr.before, slot), Portion(tr.event, slot), Requested(tr, slot));
    }
  }

  lemma PidsSplitArray(tr: Trace<Issue>, stats: seq<u64>, slot: nat)
    requires ArrayAfter(tr, stats) && slot <= WRITE_COUNT && Requested(tr, slot) < U64 && |Pids(tr)| < 10240
    ensures |stats| == STATS_SIZE && Total(Column(Pids(tr), slot)) == stats[slot]
  {
    PidsSplitRequests(tr, slot);
    ArrayHoldsRequests(tr, stats, slot);
  }
}
