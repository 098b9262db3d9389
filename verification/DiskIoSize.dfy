/**
  disk_io_size as an interleaving of fine-grained steps: any number of block-issue handlers, each
  performing four separate atomic adds on the shared array: its direction's bytes, its direction's
  count, the total bytes, the total count. All counters are u64 and wrap.
 */
module DiskIoSize {
  import opened Bpf

  const SECTOR: nat := 512

  /** The slots of `io_size_stats`. */
  const READ_BYTES: nat := 0
  const WRITE_BYTES: nat := 1
  const READ_COUNT: nat := 2
  const WRITE_COUNT: nat := 3
  const TOTAL_BYTES: nat := 4
  const TOTAL_COUNT: nat := 5
  const STATS_SIZE: nat := 8

  /** A handler that has performed `pc` of its four adds. */
  datatype Request = Request(write: bool, bytes: u64, pc: nat)

  datatype State = State(stats: seq<u64>, running: map<nat, Request>)

  datatype Step = Begin(h: nat, write: bool, sectors: u32) | Advance(h: nat)

  /** The slot of a handler's next add, and its amount. */
  function Slot(r: Request): nat {
    match r.pc
    case 0 => if r.write then WRITE_BYTES else READ_BYTES
    case 1 => if r.write then WRITE_COUNT else READ_COUNT
    case 2 => TOTAL_BYTES
    case _ => TOTAL_COUNT
  }

  function Amount(r: Request): u64 {
    if r.pc == 0 || r.pc == 2 then r.bytes else 1
  }

  function Bytes(sectors: u32): u64 {
    sectors * SECTOR
  }

  /** One step; a step that is not enabled changes nothing. */
  function Next(s: State, step: Step): State {
    match step
    case Begin(h, write, sectors) =>
      if h in s.running then s else s.(running := s.running[h := Request(write, Bytes(sectors), 0)])
    case Advance(h) =>
      if h !in s.running then s else
        var r := s.running[h];
        State(AddAt(s.stats, Slot(r), Amount(r)),
              if r.pc < 3 then s.running[h := r.(pc := r.pc + 1)] else s.running - {h})
  }

  function After(tr: Trace<Step>): (s: State)
    ensures |s.stats| == STATS_SIZE
  {
    match tr
    case Start => State(seq(STATS_SIZE, _ => 0), map[])
    case Then(before, step) => Next(After(before), step)
  }

  // ---- The account of each slot ----

  /** What a request contributes to a slot over its whole life. */
  function Share(write: bool, bytes: nat, slot: nat): nat {
    if slot == READ_BYTES then (if write then 0 else bytes)
    else if slot == WRITE_BYTES then (if write then bytes else 0)
    else if slot == READ_COUNT then (if write then 0 else 1)
    else if slot == WRITE_COUNT then (if write then 1 else 0)
    else if slot == TOTAL_BYTES then bytes
    else if slot == TOTAL_COUNT then 1
    else 0
  }

  /** The program counter at which a request adds to a slot. */
  function Turn(slot: nat): nat {
    if slot <= 1 then 0 else if slot <= 3 then 1 else if slot == 4 then 2 else 3
  }

  function Pending(r: Request, slot: nat): nat {
    if r.pc <= Turn(slot) then Share(r.write, r.bytes, slot) else 0
  }

  ghost function PendingOf(s: State, slot: nat): map<nat, nat> {
    map h | h in s.running :: Pending(s.running[h], slot)
  }

  /** What the requests that have started contribute to a slot; a sector has 512 bytes. */
  function Issued(tr: Trace<Step>, slot: nat): nat {
    match tr
    case Start => 0
    case Then(before, step) =>
      Issued(before, slot) +
      if step.Begin? && step.h !in After(before).running then Share(step.write, 512 * step.sectors, slot) else 0
  }

  /** What has been added to a slot, without wrap-around. */
  function Added(tr: Trace<Step>, slot: nat): nat {
    match tr
    case Start => 0
    case Then(before, step) =>
      Added(before, slot) +
      if step.Advance? && step.h in After(before).running && Slot(After(before).running[step.h]) == slot
      then Amount(After(before).running[step.h]) else 0
  }

  lemma {:induction false} SlotHoldsAdded(tr: Trace<Step>, slot: nat)
    requires slot < STATS_SIZE
    ensures After(tr).stats[slot] == Wrap(Added(tr, slot))
  {
    match tr {
      case Start =>
      case Then(before, step) =>
        SlotHoldsAdded(before, slot);
        if step.Advance? && step.h in After(before).running {
          WrapAdd(Added(before, slot), Amount(After(before).running[step.h]),
                  Added(before, slot) + Amount(After(before).running[step.h]));
        }
    }
  }

  lemma {:induction false} CountersInRange(tr: Trace<Step>)
    ensures forall h | h in After(tr).running :: After(tr).running[h].pc <= 3
  {
    match tr {
      case Start =>
      case Then(before, step) => CountersInRange(before);
    }
  }

  /** Conservation per slot, in every interleaving: what was issued has been added or is still owed by a running handler. */
  lemma {:induction false} SlotAccount(tr: Trace<Step>, slot: nat)
    requires slot <= TOTAL_COUNT
    ensures Issued(tr, slot) == Added(tr, slot) + Total(PendingOf(After(tr), slot))
  {
    match tr {
      case Start =>
        assert PendingOf(After(tr), slot) == map[];
      case Then(before, step) =>
        SlotAccount(before, slot);
        CountersInRange(before);
        StepAccount(After(before), step, slot);
    }
  }

  lemma BeginAccount(s: State, h: nat, write: bool, sectors: u32, slot: nat)
    requires h !in s.running
    ensures Total(PendingOf(Next(s, Begin(h, write, sectors)), slot))
            == Total(PendingOf(s, slot)) + Share(write, Bytes(sectors), slot)
  {
    var p, p' := PendingOf(s, slot), PendingOf(Next(s, Begin(h, write, sectors)), slot);
    assert p' == p[h := Share(write, Bytes(sectors), slot)];
    TotalUpdate(p, h, Share(write, Bytes(sectors), slot));
  }

  /** What a handler still owes shrinks by the amount of its next add. */
  lemma PendingShrinks(r: Request, slot: nat)
    requires slot <= TOTAL_COUNT && r.pc <= 3
    ensures Pending(r, slot)
            == (if r.pc < 3 then Pending(r.(pc := r.pc + 1), slot) else 0) + if Slot(r) == slot then Amount(r) else 0
  {
  }

  lemma AdvanceAccount(s: State, h: nat, slot: nat)
    requires slot <= TOTAL_COUNT && h in s.running && s.running[h].pc <= 3
    ensures Total(PendingOf(s, slot))
            == Total(PendingOf(Next(s, Advance(h)), slot))
               + if Slot(s.running[h]) == slot then Amount(s.running[h]) else 0
  {
    var p, p', r := PendingOf(s, slot), PendingOf(Next(s, Advance(h)), slot), s.running[h];
    PendingShrinks(r, slot);
    if r.pc < 3 {
      assert p' == p[h := Pending(r.(pc := r.pc + 1), slot)];
      TotalUpdate(p, h, Pending(r.(pc := r.pc + 1), slot));
    } else {
      assert p' == p - {h};
      TotalUpdate(p, h, 0);
    }
  }

  lemma StepAccount(s: State, step: Step, slot: nat)
    requires slot <= TOTAL_COUNT && forall h | h in s.running :: s.running[h].pc <= 3
    ensures var p, p' := PendingOf(s, slot), PendingOf(Next(s, step), slot);
            if step.Begin? then
              Total(p') == Total(p) + (if step.h in s.running then 0 else Share(step.write, Bytes(step.sectors), slot))
            else
              Total(p) == Total(p') +
                (if step.h in s.running && Slot(s.running[step.h]) == slot then Amount(s.running[step.h]) else 0)
  {
    match step {
      case Begin(h, write, sectors) =>
        if h !in s.running {
          BeginAccount(s, h, write, sectors, slot);
        }
      case Advance(h) =>
        if h in s.running {
          AdvanceAccount(s, h, slot);
        }
    }
  }

  lemma {:induction false} IssuedSplits(tr: Trace<Step>)
    ensures Issued(tr, READ_BYTES) + Issued(tr, WRITE_BYTES) == Issued(tr, TOTAL_BYTES)
    ensures Issued(tr, READ_COUNT) + Issued(tr, WRITE_COUNT) == Issued(tr, TOTAL_COUNT)
  {
    match tr {
      case Start =>
      case Then(before, step) => IssuedSplits(before);
    }
  }

  ghost function BytesBetweenOf(s: State): map<nat, nat> {
    map h | h in s.running :: if 1 <= s.running[h].pc <= 2 then s.running[h].bytes else 0
  }

  /** The bytes of the handlers between their direction's byte add and the total's. */
  ghost function BytesBetween(s: State): nat {
    Total(BytesBetweenOf(s))
  }

  ghost function CountBetweenOf(s: State): map<nat, nat> {
    map h | h in s.running :: if 2 <= s.running[h].pc <= 3 then 1 else 0
  }

  /** The number of handlers between their direction's count add and the total's. */
  ghost function CountBetween(s: State): nat {
    Total(CountBetweenOf(s))
  }

  /** Slots `a` and `b` together exceed slot `c` by `excess`, modulo 2^64. */
  ghost predicate Exceed(s: State, a: nat, b: nat, c: nat, excess: nat)
    requires |s.stats| == STATS_SIZE && a < STATS_SIZE && b < STATS_SIZE && c < STATS_SIZE
  {
    AddU64(s.stats[a], s.stats[b]) == AddU64(s.stats[c], Wrap(excess))
  }

  /** A difference of two slots against a third, given what each running handler owes them. */
  lemma PendingSplits(s: State, a: nat, b: nat, c: nat, between: map<nat, nat>)
    requires between.Keys == s.running.Keys
    requires forall h | h in s.running ::
               Pending(s.running[h], c) == Pending(s.running[h], a) + Pending(s.running[h], b) + between[h]
    ensures Total(PendingOf(s, c)) == Total(PendingOf(s, a)) + Total(PendingOf(s, b)) + Total(between)
  {
    var ab := map h | h in s.running :: Pending(s.running[h], a) + Pending(s.running[h], b);
    TotalAdditive(PendingOf(s, a), PendingOf(s, b), ab);
    TotalAdditive(ab, between, PendingOf(s, c));
  }

  /**
    In every interleaving, read bytes plus write bytes exceed the total bytes, modulo 2^64, by
    exactly the bytes of the handlers between those two updates.
   */
  lemma TotalBytesLagByInFlight(tr: Trace<Step>)
    ensures Exceed(After(tr), READ_BYTES, WRITE_BYTES, TOTAL_BYTES, BytesBetween(After(tr)))
  {
    var s := After(tr);
    IssuedSplits(tr);
    forall h | h in s.running
      ensures Pending(s.running[h], TOTAL_BYTES) == Pending(s.running[h], READ_BYTES)
              + Pending(s.running[h], WRITE_BYTES) + BytesBetweenOf(s)[h]
    {
      PendingBytesSplit(s.running[h]);
    }
    PendingSplits(s, READ_BYTES, WRITE_BYTES, TOTAL_BYTES, BytesBetweenOf(s));
    SlotsLag(tr, READ_BYTES, WRITE_BYTES, TOTAL_BYTES, BytesBetween(s));
  }

  lemma PendingBytesSplit(r: Request)
    ensures Pending(r, TOTAL_BYTES)
            == Pending(r, READ_BYTES) + Pending(r, WRITE_BYTES) + if 1 <= r.pc <= 2 then r.bytes else 0
  {
  }

  /** Likewise for the counts. */
  lemma TotalCountLagsByInFlight(tr: Trace<Step>)
    ensures Exceed(After(tr), READ_COUNT, WRITE_COUNT, TOTAL_COUNT, CountBetween(After(tr)))
  {
    var s := After(tr);
    CountersInRange(tr);
    IssuedSplits(tr);
    PendingSplits(s, READ_COUNT, WRITE_COUNT, TOTAL_COUNT, CountBetweenOf(s));
    SlotsLag(tr, READ_COUNT, WRITE_COUNT, TOTAL_COUNT, CountBetween(s));
  }

  lemma SlotsLag(tr: Trace<Step>, a: nat, b: nat, c: nat, between: nat)
    requires a <= TOTAL_COUNT && b <= TOTAL_COUNT && c <= TOTAL_COUNT
    requires Issued(tr, a) + Issued(tr, b) == Issued(tr, c)
    requires Total(PendingOf(After(tr), c))
             == Total(PendingOf(After(tr), a)) + Total(PendingOf(After(tr), b)) + between
    ensures Exceed(After(tr), a, b, c, between)
  {
    SlotAccount(tr, a);
    SlotAccount(tr, b);
    SlotAccount(tr, c);
    SlotHoldsAdded(tr, a);
    SlotHoldsAdded(tr, b);
    SlotHoldsAdded(tr, c);
    WrapLag(Added(tr, a), Added(tr, b), Added(tr, c), between);
  }

  lemma WrapLag(x: nat, y: nat, z: nat, between: nat)
    requires x + y == z + between
    ensures AddU64(Wrap(x), Wrap(y)) == AddU64(Wrap(z), Wrap(between))
  {
    var sum := x + y;
    WrapSum(x, y, sum);
    WrapSum(z, between, sum);
  }

  lemma {:induction false} WrapSum(x: nat, y: nat, sum: nat)
    requires sum == x + y
    ensures AddU64(Wrap(x), Wrap(y)) == Wrap(sum)
    decreases y
  {
    if y < U64 {
      WrapAdd(x, y, sum);
    } else {
      WrapSum(x, y - U64, sum - U64);
    }
  }

  /** Whenever no handler is running, every slot holds exactly what was issued (modulo 2^64), so the totals agree. */
  lemma QuiescentTotalsAgree(tr: Trace<Step>, slot: nat)
    requires After(tr).running == map[] && slot <= TOTAL_COUNT
    ensures var s := After(tr);
            && s.stats[slot] == Wrap(Issued(tr, slot))
            && AddU64(s.stats[READ_BYTES], s.stats[WRITE_BYTES]) == s.stats[TOTAL_BYTES]
            && AddU64(s.stats[READ_COUNT], s.stats[WRITE_COUNT]) == s.stats[TOTAL_COUNT]
  {
    var s := After(tr);
    TotalBytesLagByInFlight(tr);
    TotalCountLagsByInFlight(tr);
    SlotAccount(tr, slot);
    SlotHoldsAdded(tr, slot);
    assert PendingOf(s, slot) == map[];
    assert BytesBetweenOf(s) == map[] && CountBetweenOf(s) == map[];
  }
}
