/**
  The keyed start/stop accumulator shared by file_fsync_stat and cpu_run_delay: a begin event
  stores a timestamp under its key, overwriting an earlier one; an end event with a stored
  timestamp adds the difference to the key's total, counts it, and forgets the timestamp. The
  timestamp maps of disk_io_sched and disk_read_delay, of the same capacity, are used in this way too.
 */
module StartStop {
  import opened Bpf

  const MAX_ENTRIES: nat := 10240

  datatype Event = Begin(key: nat, now: u64) | End(key: nat, now: u64)

  datatype State = State(start: map<nat, u64>, total: map<nat, u64>, count: map<nat, u64>)

  function OnBegin(s: State, k: nat, now: u64): State {
    s.(start := Put(s.start, MAX_ENTRIES, k, now))
  }

  function OnEnd(s: State, k: nat, now: u64): State {
    if k !in s.start then s else
      State(s.start - {k},
            Bump(s.total, MAX_ENTRIES, k, SubU64(now, s.start[k])),
            Bump(s.count, MAX_ENTRIES, k, 1))
  }

  function Step(s: State, e: Event): State {
    match e
    case Begin(k, now) => OnBegin(s, k, now)
    case End(k, now) => OnEnd(s, k, now)
  }

  function Run(tr: Trace<Event>): State {
    match tr
    case Start => State(map[], map[], map[])
    case Then(before, e) => Step(Run(before), e)
  }

  // ---- The history, defined without the maps ----

  function Clock(t0: u64, tr: Trace<Event>): u64 {
    match tr
    case Start => t0
    case Then(_, e) => e.now
  }

  predicate Monotone(t0: u64, tr: Trace<Event>) {
    match tr
    case Start => true
    case Then(before, e) => Monotone(t0, before) && Clock(t0, before) <= e.now
  }

  /** The time of the latest event of `k`, when that event is a begin. */
  function Open(tr: Trace<Event>, k: nat): Option<u64> {
    match tr
    case Start => None
    case Then(before, e) =>
      if e.key != k then Open(before, k) else if e.Begin? then Some(e.now) else None
  }

  function Keys(tr: Trace<Event>): set<nat> {
    match tr
    case Start => {}
    case Then(before, e) => Keys(before) + {e.key}
  }

  /** The keys that are open. */
  function OpenKeys(tr: Trace<Event>): set<nat> {
    match tr
    case Start => {}
    case Then(before, e) => if e.Begin? then OpenKeys(before) + {e.key} else OpenKeys(before) - {e.key}
  }

  /** At no time were more keys open than a map has entries. */
  predicate Roomy(tr: Trace<Event>) {
    |OpenKeys(tr)| <= 10240 && (tr.Then? ==> Roomy(tr.before))
  }

  function Size(tr: Trace<Event>): nat {
    match tr
    case Start => 0
    case Then(before, _) => Size(before) + 1
  }

  datatype Interval = Interval(key: nat, from: u64, to: u64)

  /** The intervals that the machine accounts for, in order. */
  function Recorded(tr: Trace<Event>): seq<Interval> {
    match tr
    case Start => []
    case Then(before, e) =>
      if e.End? && e.key in Run(before).start
      then Recorded(before) + [Interval(e.key, Run(before).start[e.key], e.now)]
      else Recorded(before)
  }

  /** The lengths of the intervals recorded for `k`. */
  function Lengths(tr: Trace<Event>, k: nat): seq<nat> {
    match tr
    case Start => []
    case Then(before, e) =>
      if e.End? && e.key == k && k in Run(before).start && Run(before).start[k] <= e.now
      then Lengths(before, k) + [e.now - Run(before).start[k]]
      else Lengths(before, k)
  }

  function LengthsOf(r: seq<Interval>, k: nat): seq<nat> {
    if r == [] then [] else
      var n := |r| - 1;
      if r[n].key == k && r[n].from <= r[n].to then LengthsOf(r[..n], k) + [r[n].to - r[n].from] else LengthsOf(r[..n], k)
  }

  lemma {:induction false} LengthsAreRecorded(tr: Trace<Event>, k: nat)
    ensures Lengths(tr, k) == LengthsOf(Recorded(tr), k)
  {
    match tr {
      case Start =>
      case Then(before, e) =>
        LengthsAreRecorded(before, k);
        assert Recorded(tr) != Recorded(before) ==> Recorded(tr)[..|Recorded(before)|] == Recorded(before);
    }
  }

  /** A stored timestamp is the time of the key's latest event, a begin; in every run, even when the maps are full. */
  lemma {:induction false} StartIsOpen(tr: Trace<Event>, k: nat)
    ensures k in Run(tr).start ==> Open(tr, k) == Some(Run(tr).start[k])
    ensures |Run(tr).start| <= MAX_ENTRIES
  {
    match tr {
      case Start =>
      case Then(before, e) => StartIsOpen(before, k);
    }
  }

  lemma {:induction false} OpenKeysAreOpen(tr: Trace<Event>, k: nat)
    ensures k in OpenKeys(tr) <==> Open(tr, k).Some?
  {
    match tr {
      case Start =>
      case Then(before, e) => OpenKeysAreOpen(before, k);
    }
  }

  lemma {:induction false} FewKeysAreRoomy(tr: Trace<Event>)
    requires |Keys(tr)| <= MAX_ENTRIES
    ensures OpenKeys(tr) <= Keys(tr) && Roomy(tr)
  {
    match tr {
      case Start =>
      case Then(before, e) =>
        SubsetSize(Keys(before), Keys(tr));
        FewKeysAreRoomy(before);
        SubsetSize(OpenKeys(tr), Keys(tr));
    }
  }

  lemma {:induction false} StoredAreOpen(tr: Trace<Event>)
    ensures Run(tr).start.Keys <= OpenKeys(tr)
  {
    match tr {
      case Start =>
      case Then(before, e) => StoredAreOpen(before);
    }
  }

  /** While never more keys are open than the map has entries, a timestamp is stored exactly while its key is open. */
  lemma {:induction false} OpenIsStored(tr: Trace<Event>, k: nat)
    requires Roomy(tr)
    ensures k in Run(tr).start <==> Open(tr, k).Some?
  {
    match tr {
      case Start =>
      case Then(before, e) =>
        OpenIsStored(before, k);
        StoredAreOpen(before);
        if e.Begin? {
          PutFits(Run(before).start, MAX_ENTRIES, e.key, e.now, OpenKeys(tr));
        }
    }
  }

  lemma {:induction false} OpenInPast(t0: u64, tr: Trace<Event>, k: nat)
    requires Monotone(t0, tr) && Open(tr, k).Some?
    ensures Open(tr, k).value <= Clock(t0, tr)
  {
    if tr.event.key != k {
      OpenInPast(t0, tr.before, k);
    }
  }

  /** Every recorded interval lies between attachment and now, and before a timestamp still stored for its key. */
  lemma {:induction false} RecordedBounds(t0: u64, tr: Trace<Event>)
    requires Monotone(t0, tr)
    ensures t0 <= Clock(t0, tr)
    ensures forall k | k in Run(tr).start :: t0 <= Run(tr).start[k] <= Clock(t0, tr)
    ensures forall r | r in Recorded(tr) ::
              && t0 <= r.from <= r.to <= Clock(t0, tr)
              && (r.key in Run(tr).start ==> r.to <= Run(tr).start[r.key])
  {
    match tr {
      case Start =>
      case Then(before, e) => RecordedBounds(t0, before);
    }
  }

  /** The recorded intervals of one key are disjoint and in order. */
  lemma {:induction false} RecordedAreDisjoint(t0: u64, tr: Trace<Event>)
    requires Monotone(t0, tr)
    ensures forall i, j | 0 <= i < j < |Recorded(tr)| && Recorded(tr)[i].key == Recorded(tr)[j].key ::
              Recorded(tr)[i].to <= Recorded(tr)[j].from
  {
    match tr {
      case Start =>
      case Then(before, e) =>
        RecordedAreDisjoint(t0, before);
        RecordedBounds(t0, before);
    }
  }

  /** A key's accumulated time is at most the elapsed time. */
  lemma {:induction false} TotalAtMostElapsed(t0: u64, tr: Trace<Event>, k: nat)
    requires Monotone(t0, tr)
    ensures Sum(Lengths(tr, k)) <= Clock(t0, tr) - t0
    ensures k in Run(tr).start ==> t0 <= Run(tr).start[k] <= Clock(t0, tr)
    ensures k in Run(tr).start ==> Sum(Lengths(tr, k)) <= Run(tr).start[k] - t0
  {
    match tr {
      case Start =>
      case Then(before, e) =>
        TotalAtMostElapsed(t0, before, k);
        if k in Run(before).start && e == End(k, e.now) {
          SumSnoc(Lengths(before, k), e.now - Run(before).start[k]);
        }
    }
  }

  /** The two accumulator maps have the same keys in every run, even when they are full. */
  lemma {:induction false} SameKeys(tr: Trace<Event>)
    ensures Run(tr).total.Keys == Run(tr).count.Keys
    ensures |Run(tr).total| == |Run(tr).count| <= MAX_ENTRIES
  {
    match tr {
      case Start =>
      case Then(before, e) => SameKeys(before);
    }
    assert |Run(tr).total| == |Run(tr).total.Keys| && |Run(tr).count| == |Run(tr).count.Keys|;
  }

  lemma {:induction false} TotalIsSum(t0: u64, tr: Trace<Event>, k: nat)
    requires Monotone(t0, tr)
    ensures k in Run(tr).total ==> Run(tr).total[k] == Sum(Lengths(tr, k))
    ensures k !in Run(tr).total && Lengths(tr, k) != [] ==> |Run(tr).total| >= MAX_ENTRIES
  {
    match tr {
      case Start =>
      case Then(before, e) =>
        TotalIsSum(t0, before, k);
        if k in Run(before).start && e == End(k, e.now) {
          EndAddsLength(t0, before, k, e.now);
          assert Run(tr).total == Bump(Run(before).total, MAX_ENTRIES, k, SubU64(e.now, Run(before).start[k]));
        } else {
          assert Lengths(tr, k) == Lengths(before, k);
          assert k in Run(tr).total <==> k in Run(before).total;
          assert k in Run(tr).total ==> Run(tr).total[k] == Run(before).total[k];
        }
    }
  }

  lemma EndAddsLength(t0: u64, before: Trace<Event>, k: nat, now: u64)
    requires Monotone(t0, Then(before, End(k, now))) && k in Run(before).start
    ensures var d := SubU64(now, Run(before).start[k]);
            && Lengths(Then(before, End(k, now)), k) == Lengths(before, k) + [d as nat]
            && Sum(Lengths(Then(before, End(k, now)), k)) == Sum(Lengths(before, k)) + d < U64
  {
    TotalAtMostElapsed(t0, before, k);
    TotalAtMostElapsed(t0, Then(before, End(k, now)), k);
    SumSnoc(Lengths(before, k), now - Run(before).start[k]);
  }

  lemma {:induction false} CountIsNumber(t0: u64, tr: Trace<Event>, k: nat)
    requires Monotone(t0, tr) && Size(tr) < U64
    ensures k in Run(tr).count ==> Run(tr).count[k] == |Lengths(tr, k)| > 0
    ensures k !in Run(tr).count && Lengths(tr, k) != [] ==> |Run(tr).count| >= MAX_ENTRIES
    ensures |Lengths(tr, k)| <= Size(tr)
  {
    match tr {
      case Start =>
      case Then(before, e) =>
        CountIsNumber(t0, before, k);
        TotalAtMostElapsed(t0, before, k);
    }
  }

  /**
    A key in the maps has exactly the sum and the number of its recorded intervals, without
    wrap-around; a key with recorded intervals is missing only when the maps are full.
   */
  lemma TotalsAreExact(t0: u64, tr: Trace<Event>, k: nat)
    requires Monotone(t0, tr) && Size(tr) < U64
    ensures k in Run(tr).total ==>
              && Run(tr).total[k] == Sum(Lengths(tr, k)) <= Clock(t0, tr) - t0
              && k in Run(tr).count && Run(tr).count[k] == |Lengths(tr, k)| > 0
    ensures k !in Run(tr).total && Lengths(tr, k) != [] ==> |Run(tr).total| == MAX_ENTRIES
    ensures |Lengths(tr, k)| <= Size(tr)
  {
    SameKeys(tr);
    TotalAtMostElapsed(t0, tr, k);
    TotalIsSum(t0, tr, k);
    CountIsNumber(t0, tr, k);
  }
}
