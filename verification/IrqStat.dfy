/**
  irq_stat: execve counts per process name, drained every second, sorted, and printed as the top
  five names plus one line for all others.
 */
module IrqStat {
  import opened Bpf
  import opened Walks
  import opened Books

  const MAX_ENTRIES: nat := 512
  const SHOW_LIMIT: nat := 5

  /** The kernel side: insert a zero, look it up again, add one. */
  class IrqStatProbe {
    var irqStats: map<string, u64>

    constructor ()
      ensures irqStats == map[]
    {
      irqStats := map[];
    }

    method HandleExecve(comm: string)
      modifies this
      ensures irqStats == Bump(old(irqStats), MAX_ENTRIES, comm, 1)
    {
      if comm !in irqStats {
        irqStats := Put(irqStats, MAX_ENTRIES, comm, 0);
        if comm !in irqStats {
          return;
        }
      }
      irqStats := irqStats[comm := AddU64(irqStats[comm], 1)];
    }
  }

  // ---- The poller ----

  type Entry = (string, u64)

  /** A printed line; no name stands for "others". */
  type Line = (Option<string>, u64)

  function Compare(left: Entry, right: Entry): int {
    if left.1 < right.1 then 1 else if left.1 > right.1 then -1 else 0
  }

  /** In the order of `Compare`: counts never grow. */
  ghost predicate Ranked(es: seq<Entry>) {
    forall i, j | 0 <= i < j < |es| :: es[i].1 >= es[j].1
  }

  /** Where `x` goes in a ranked sequence. */
  function Place(es: seq<Entry>, x: Entry): (i: nat)
    ensures i <= |es|
    ensures forall j | 0 <= j < i :: es[j].1 >= x.1
    ensures i < |es| ==> es[i].1 < x.1
  {
    if es == [] || Compare(es[0], x) > 0 then 0 else 1 + Place(es[1..], x)
  }

  lemma InsertKeepsRanking(es: seq<Entry>, x: Entry, i: nat)
    requires Ranked(es) && i == Place(es, x)
    ensures Ranked(es[..i] + [x] + es[i..])
  {
    var r := es[..i] + [x] + es[i..];
    assert forall j | 0 <= j < i :: r[j] == es[j];
    assert r[i] == x;
    assert forall j | i < j < |r| :: r[j] == es[j - 1];
    assert forall j | i <= j < |es| :: es[j].1 <= es[i].1;
  }

  lemma InsertMultiset(es: seq<Entry>, x: Entry, i: nat)
    requires i <= |es|
    ensures multiset(es[..i] + [x] + es[i..]) == multiset(es) + multiset{x}
  {
    assert es == es[..i] + es[i..];
  }

  /** `qsort` by `compare_entries`, on the first `n` slots. */
  method Sort(data: array<Entry>, n: nat)
    requires n <= data.Length
    modifies data
    ensures Ranked(data[..n]) && multiset(data[..n]) == multiset(old(data[..n]))
  {
    var ranked := Rank(data[..n]);
    assert |ranked| == |multiset(ranked)| == n;
    forall i | 0 <= i < n {
      data[i] := ranked[i];
    }
    assert data[..n] == ranked;
  }

  method Rank(es: seq<Entry>) returns (ranked: seq<Entry>)
    ensures Ranked(ranked) && multiset(ranked) == multiset(es)
  {
    ranked := [];
    for i := 0 to |es|
      invariant Ranked(ranked) && multiset(ranked) == multiset(es[..i])
    {
      var k := Place(ranked, es[i]);
      InsertKeepsRanking(ranked, es[i], k);
      InsertMultiset(ranked, es[i], k);
      PrefixMultiset(es, i);
      ranked := ranked[..k] + [es[i]] + ranked[k..];
    }
    assert es[..|es|] == es;
  }

  lemma PrefixMultiset(es: seq<Entry>, i: nat)
    requires i < |es|
    ensures multiset(es[..i + 1]) == multiset(es[..i]) + multiset{es[i]}
  {
    assert es[..i + 1] == es[..i] + [es[i]];
  }

  /** What is shown by name, what is merged. */
  function Shown(es: seq<Entry>): seq<Entry> {
    if |es| <= SHOW_LIMIT then es else es[..SHOW_LIMIT]
  }

  function Merged(es: seq<Entry>): seq<Entry> {
    if |es| <= SHOW_LIMIT then [] else es[SHOW_LIMIT..]
  }

  function Named(es: seq<Entry>): seq<Line> {
    seq(|es|, i requires 0 <= i < |es| => (Some(es[i].0), es[i].1))
  }

  /** The report of a ranked listing. */
  function Report(es: seq<Entry>): seq<Line> {
    var others := Wrap(EntrySum(Merged(es)));
    Named(Shown(es)) + if others > 0 then [(None, others)] else []
  }

  /** Drains the map into `data`. Every write is in bounds, since the array is as long as the map can get. */
  method Drain(t: Table<string, u64>, data: array<Entry>) returns (n: nat)
    requires t.Valid() && |t.entries| <= data.Length == MAX_ENTRIES
    modifies t, data
    ensures t.Valid() && t.entries == []
    ensures n == |old(t.entries)| <= data.Length && data[..n] == old(t.entries)
  {
    ghost var es := t.entries;
    n := 0;
    var cur := None;
    var next := t.GetNextKey(cur);
    while next.Some?
      invariant t.Valid() && n <= |es| && t.entries == es[n..]
      invariant forall i | 0 <= i < n :: data[i] == es[i]
      invariant Ahead(t.entries, cur) == 0 && next == NextKey(t.entries, cur)
      decreases |es| - n
    {
      FrontStep(es, n);
      var count := Take(t, next.value, 0);
      data[n] := (next.value, count.value);
      n := n + 1;
      cur := next;
      next := t.GetNextKey(cur);
    }
  }

  /** One poll: the map is emptied, and what is printed is the report of its entries, ranked. */
  method PollOnce(t: Table<string, u64>) returns (lines: seq<Line>, ghost ranked: seq<Entry>)
    requires t.Valid() && |t.entries| <= MAX_ENTRIES
    modifies t
    ensures t.Valid() && t.entries == []
    ensures Ranked(ranked) && multiset(ranked) == multiset(old(t.entries))
    ensures lines == Report(ranked)
  {
    var data := new Entry[MAX_ENTRIES](_ => ("", 0));
    var n := Drain(t, data);
    Sort(data, n);
    ranked := data[..n];
    lines := Print(data, n);
  }

  method Print(data: array<Entry>, n: nat) returns (lines: seq<Line>)
    requires n <= data.Length
    ensures lines == Report(data[..n])
  {
    ghost var es := data[..n];
    lines := [];
    var others: u64 := 0;
    for i := 0 to n
      invariant lines == Named(Shown(es[..i]))
      invariant others == Wrap(EntrySum(Merged(es[..i])))
    {
      PrefixStep(es, i);
      if i < SHOW_LIMIT {
        lines := lines + [(Some(data[i].0), data[i].1)];
      } else {
        WrapAdd(EntrySum(Merged(es[..i])), es[i].1, EntrySum(Merged(es[..i])) + es[i].1);
        others := AddU64(others, data[i].1);
      }
    }
    assert es[..n] == es;
    if others > 0 {
      lines := lines + [(None, others)];
    }
  }

  lemma PrefixStep(es: seq<Entry>, i: nat)
    requires i < |es|
    ensures i < SHOW_LIMIT ==> Named(Shown(es[..i + 1])) == Named(Shown(es[..i])) + [(Some(es[i].0), es[i].1)]
    ensures i < SHOW_LIMIT ==> Merged(es[..i + 1]) == Merged(es[..i]) == []
    ensures i >= SHOW_LIMIT ==> Shown(es[..i + 1]) == Shown(es[..i])
    ensures i >= SHOW_LIMIT ==> EntrySum(Merged(es[..i + 1])) == EntrySum(Merged(es[..i])) + es[i].1
  {
    if i >= SHOW_LIMIT {
      assert Merged(es[..i + 1])[..i - SHOW_LIMIT] == Merged(es[..i]);
    }
  }

  // ---- What a report says ----

  lemma {:induction false} NamedSum(es: seq<Entry>)
    ensures EntrySum(Named(es)) == EntrySum(es)
  {
    if es != [] {
      var n := |es| - 1;
      assert Named(es)[..n] == Named(es[..n]);
      NamedSum(es[..n]);
    }
  }

  /** The printed lines add up to the listing exactly when the merged counts fit a u64. */
  lemma ReportAddsUpIff(es: seq<Entry>)
    ensures EntrySum(Report(es)) == EntrySum(es) <==> EntrySum(Merged(es)) < U64
  {
    var others := Wrap(EntrySum(Merged(es)));
    NamedSum(Shown(es));
    assert es == Shown(es) + Merged(es);
    EntrySumConcat(Shown(es), Merged(es));
    var rest: seq<Line> := if others > 0 then [(None, others)] else [];
    EntrySumConcat(Named(Shown(es)), rest);
    assert EntrySum(rest) == others by {
      if others > 0 {
        assert rest[..0] == [];
      }
    }
  }

  /** No merged count exceeds a shown one; nothing is merged while a name line is free; nothing is lost. */
  lemma TopFive(es: seq<Entry>)
    requires Ranked(es)
    ensures forall i, j | 0 <= i < |Shown(es)| && 0 <= j < |Merged(es)| :: Shown(es)[i].1 >= Merged(es)[j].1
    ensures Merged(es) != [] ==> |Shown(es)| == SHOW_LIMIT
    ensures multiset(Shown(es)) + multiset(Merged(es)) == multiset(es)
    ensures |Report(es)| <= SHOW_LIMIT + 1
  {
    assert es == Shown(es) + Merged(es);
  }

  /** Whatever order the walk and the sort choose, the printed lines add up to the total of the map. */
  lemma PollPrintsTotal(m: map<string, u64>, listing: seq<Entry>, ranked: seq<Entry>)
    requires Lists(listing, m) && multiset(ranked) == multiset(listing) && Total(m) < U64
    ensures EntrySum(Report(ranked)) == Total(m)
  {
    ListingTotal(listing, m);
    EntrySumPermutation(ranked, listing);
    assert ranked == Shown(ranked) + Merged(ranked);
    EntrySumConcat(Shown(ranked), Merged(ranked));
    ReportAddsUpIff(ranked);
  }

  // ---- Whole runs ----

  datatype Event = Execve(comm: string) | Poll(listing: seq<Entry>, ranked: seq<Entry>)

  function Step(b: Book<string>, e: Event): Book<string> {
    match e
    case Execve(comm) => Counted(b, MAX_ENTRIES, comm)
    case Poll(_, ranked) => Drained(b, EntrySum(Report(ranked)))
  }

  function Run(tr: Trace<Event>): Book<string> {
    match tr
    case Start => Book(map[], 0, 0)
    case Then(before, e) => Step(Run(before), e)
  }

  /** Every poll walks the map of its time, in any order, and ranks what it read. */
  ghost predicate Feasible(tr: Trace<Event>) {
    tr.Then? ==>
      && Feasible(tr.before)
      && (tr.event.Poll? ==> Lists(tr.event.listing, Run(tr.before).live)
                             && multiset(tr.event.ranked) == multiset(tr.event.listing) && Ranked(tr.event.ranked))
  }

  function Execves(tr: Trace<Event>): nat {
    match tr
    case Start => 0
    case Then(before, e) => Execves(before) + if e.Execve? then 1 else 0
  }

  /** Every execve is printed once, still live, or was dropped by a full map. */
  lemma {:induction false} EveryExecveIsAccounted(tr: Trace<Event>)
    requires Feasible(tr) && Execves(tr) < U64
    ensures Balance(Run(tr)) == Execves(tr)
  {
    if tr.Then? {
      var b := Run(tr.before);
      EveryExecveIsAccounted(tr.before);
      match tr.event {
        case Execve(comm) => CountBalance(b, MAX_ENTRIES, comm);
        case Poll(listing, ranked) =>
          PollPrintsTotal(b.live, listing, ranked);
          DrainBalance(b, EntrySum(Report(ranked)));
      }
    }
  }

  function Comms(tr: Trace<Event>): set<string> {
    match tr
    case Start => {}
    case Then(before, e) => Comms(before) + if e.Execve? then {e.comm} else {}
  }

  /** The map never outgrows the poller's array, and nothing is dropped while at most 512 names occur. */
  lemma {:induction false} FewNamesDropNothing(tr: Trace<Event>)
    ensures |Run(tr).live| <= 512 && Run(tr).live.Keys <= Comms(tr)
    ensures |Comms(tr)| <= 512 ==> Run(tr).dropped == 0
  {
    if tr.Then? {
      FewNamesDropNothing(tr.before);
      SubsetSize(Comms(tr.before), Comms(tr));
      if tr.event.Execve? && tr.event.comm !in Run(tr.before).live && |Comms(tr)| <= MAX_ENTRIES {
        PutFits(Run(tr.before).live, MAX_ENTRIES, tr.event.comm, 0, Comms(tr));
      }
    }
  }

  /** After a poll of a run with at most 512 names, everything ever printed adds up to the execve events so far. */
  lemma PrintedIsEveryExecve(tr: Trace<Event>)
    requires Feasible(tr) && Execves(tr) < U64 && |Comms(tr)| <= 512 && tr.Then? && tr.event.Poll?
    ensures Run(tr).printed == Execves(tr)
  {
    EveryExecveIsAccounted(tr);
    FewNamesDropNothing(tr);
  }
}
