/**
  net_tcp_retransmit: every retransmission is entered in three books: a global counter, a count
  per PID and a count per process name. The poller prints the growth of the first and drains the
  other two, the one per PID by a walk that starts at key 0.
 */
module Retransmit {
  import opened Bpf
  import opened Walks
  import opened Books

  const MAX_ENTRIES: nat := 10240

  /** `struct conn_info`: the name is that of the first event since the entry was created. */
  datatype Info = Info(count: u64, comm: string)

  datatype Maps = Maps(total: u64, pids: map<nat, Info>, comms: map<string, u64>)

  const EMPTY_MAPS := Maps(0, map[], map[])

  function CountPid(m: map<nat, Info>, pid: nat, comm: string): map<nat, Info> {
    if pid in m then m[pid := m[pid].(count := AddU64(m[pid].count, 1))]
    else Put(m, MAX_ENTRIES, pid, Info(1, comm))
  }

  function Handle(s: Maps, pid: nat, comm: string): Maps {
    Maps(AddU64(s.total, 1), CountPid(s.pids, pid, comm), Bump(s.comms, MAX_ENTRIES, comm, 1))
  }

  class RetransmitProbe {
    var stats: array<u64>
    var retransMap: map<nat, Info>
    var retransCommMap: map<string, u64>

    ghost predicate Valid()
      reads this
    {
      stats.Length == 4
    }

    ghost function State(): Maps
      requires Valid()
      reads this, stats
    {
      Maps(stats[0], retransMap, retransCommMap)
    }

    constructor ()
      ensures Valid() && fresh(stats) && State() == EMPTY_MAPS
    {
      stats := new u64[4](_ => 0);
      retransMap, retransCommMap := map[], map[];
    }

    method HandleTcpRetransmit(pid: nat, comm: string)
      requires Valid()
      modifies this`retransMap, this`retransCommMap, stats
      ensures Valid() && State() == Handle(old(State()), pid, comm)
      ensures forall i | 1 <= i < 4 :: stats[i] == old(stats[i])
    {
      stats[0] := AddU64(stats[0], 1);
      if pid in retransMap {
        var info := retransMap[pid];
        retransMap := retransMap[pid := info.(count := AddU64(info.count, 1))];
      } else {
        retransMap := Put(retransMap, MAX_ENTRIES, pid, Info(1, comm));
      }
      if comm in retransCommMap {
        retransCommMap := retransCommMap[comm := AddU64(retransCommMap[comm], 1)];
      } else {
        retransCommMap := Put(retransCommMap, MAX_ENTRIES, comm, 1);
      }
    }
  }

  // ---- The poller ----

  /** The name of a per-PID line: `tcp_retrans_pid_<pid>_<comm>`. */
  type PidLabel = (nat, string)

  function Labelled(es: seq<(nat, Info)>): seq<(PidLabel, u64)> {
    if es == [] then [] else
      var (pid, info) := es[|es| - 1];
      Labelled(es[..|es| - 1]) + [((pid, info.comm), info.count)]
  }

  /** Key 0 is present and last in the iteration order. */
  predicate Stuck(es: seq<(nat, Info)>) {
    es != [] && es[|es| - 1].0 == 0
  }

  class RetransmitPoller {
    var prevTotal: u64

    /**
      One poll: the growth of the global counter, if any, then the per-PID and per-name lines. The
      name map is emptied; so is the PID map, unless key 0 is its last key, when nothing of it is printed.
     */
    method PollOnce(total: u64, pids: Table<nat, Info>, comms: Table<string, u64>)
      returns (deltas: seq<u64>, pidLines: seq<(PidLabel, u64)>, commLines: seq<(string, u64)>)
      requires pids.Valid() && comms.Valid()
      modifies this, pids, comms
      ensures pids.Valid() && comms.Valid() && prevTotal == total
      ensures deltas == if total == old(prevTotal) then [] else [SubU64(total, old(prevTotal))]
      ensures pidLines == Positive(Labelled(RestartOrder(old(pids.entries), Some(0))))
      ensures pids.entries == if Stuck(old(pids.entries)) then old(pids.entries) else []
      ensures Stuck(old(pids.entries)) ==> pidLines == []
      ensures commLines == Positive(RestartOrder(old(comms.entries), None)) && comms.entries == []
    {
      var delta := SubU64(total, prevTotal);
      deltas := if delta > 0 then [delta] else [];
      prevTotal := total;
      var pidEntries := DrainRestart(pids, Some(0));
      pidLines := Positive(Labelled(pidEntries));
      var commEntries := DrainRestart(comms, None);
      commLines := Positive(commEntries);
    }
  }

  // ---- The PID map as a book of counts ----

  function Counts(m: map<nat, Info>): map<nat, u64> {
    map pid | pid in m :: m[pid].count
  }

  lemma CountPidIsBump(m: map<nat, Info>, pid: nat, comm: string)
    ensures Counts(CountPid(m, pid, comm)) == Bump(Counts(m), MAX_ENTRIES, pid, 1)
  {
    assert Counts(m).Keys == m.Keys;
    assert |Counts(m)| == |m|;
  }

  /** The entries of a PID listing without their names. */
  function Plain(es: seq<(nat, Info)>): (r: seq<(nat, u64)>)
    ensures |r| == |es| && forall i | 0 <= i < |es| :: r[i] == (es[i].0, es[i].1.count)
  {
    seq(|es|, i requires 0 <= i < |es| => (es[i].0, es[i].1.count))
  }

  lemma {:induction false} LabelledSum(es: seq<(nat, Info)>)
    ensures EntrySum(Labelled(es)) == EntrySum(Plain(es))
  {
    if es != [] {
      var n := |es| - 1;
      LabelledSum(es[..n]);
      assert Labelled(es)[..|Labelled(es)| - 1] == Labelled(es[..n]);
      assert Plain(es)[..n] == Plain(es[..n]);
    }
  }

  lemma PlainLists(es: seq<(nat, Info)>, m: map<nat, Info>)
    requires Lists(es, m)
    ensures Lists(Plain(es), Counts(m))
  {
    forall k | k in Counts(m) ensures exists i :: 0 <= i < |es| && Plain(es)[i].0 == k {
      var i :| 0 <= i < |es| && es[i].0 == k;
      assert Plain(es)[i].0 == k;
    }
  }

  lemma PlainRestartOrder(es: seq<(nat, Info)>)
    ensures Plain(RestartOrder(es, Some(0))) == RestartOrder(Plain(es), Some(0))
  {
    assert Find(Plain(es), 0) == Find(es, 0);
  }

  lemma PlainDrainTotal(es: seq<(nat, u64)>, m: map<nat, u64>)
    requires Lists(es, m) && (es != [] ==> es[|es| - 1].0 != 0)
    ensures EntrySum(RestartOrder(es, Some(0))) == Total(m)
  {
    RestartOrderIsAllOrNothing(es, Some(0));
    EntrySumPermutation(RestartOrder(es, Some(0)), es);
    ListingTotal(es, m);
  }

  /** A per-PID drain that is not stuck prints the total of its map, whatever the iteration order. */
  lemma PidLinesAddUp(es: seq<(nat, Info)>, m: map<nat, Info>)
    requires Lists(es, m) && !Stuck(es)
    ensures EntrySum(Positive(Labelled(RestartOrder(es, Some(0))))) == Total(Counts(m))
  {
    var order := RestartOrder(es, Some(0));
    PositiveSum(Labelled(order));
    LabelledSum(order);
    PlainRestartOrder(es);
    PlainLists(es, m);
    PlainDrainTotal(Plain(es), Counts(m));
  }

  /** The per-name drain always prints the total of its map. */
  lemma CommLinesAddUp(es: seq<(string, u64)>, m: map<string, u64>)
    requires Lists(es, m)
    ensures EntrySum(Positive(RestartOrder(es, None))) == Total(m)
  {
    RestartOrderIsAllOrNothing(es, None);
    PositiveSum(RestartOrder(es, None));
    EntrySumPermutation(RestartOrder(es, None), es);
    ListingTotal(es, m);
  }

  // ---- Whole runs ----

  datatype Event = Retransmit(pid: nat, comm: string) | Poll(pidOrder: seq<(nat, Info)>, commOrder: seq<(string, u64)>)

  /** The maps, the poller's snapshot, and what was printed and dropped so far in each book. */
  datatype State = State(
    maps: Maps, prev: u64, deltaPrinted: nat, pidPrinted: nat, pidDropped: nat, commPrinted: nat, commDropped: nat)

  function Poller(s: State, pidOrder: seq<(nat, Info)>, commOrder: seq<(string, u64)>): State {
    State(
      Maps(s.maps.total, if Stuck(pidOrder) then s.maps.pids else map[], map[]),
      s.maps.total,
      s.deltaPrinted + SubU64(s.maps.total, s.prev),
      s.pidPrinted + EntrySum(Positive(Labelled(RestartOrder(pidOrder, Some(0))))),
      s.pidDropped,
      s.commPrinted + EntrySum(Positive(RestartOrder(commOrder, None))),
      s.commDropped)
  }

  function Step(s: State, e: Event): State {
    match e
    case Retransmit(pid, comm) =>
      s.(maps := Handle(s.maps, pid, comm),
         pidDropped := s.pidDropped + if pid in s.maps.pids || |s.maps.pids| < MAX_ENTRIES then 0 else 1,
         commDropped := s.commDropped + if comm in s.maps.comms || |s.maps.comms| < MAX_ENTRIES then 0 else 1)
    case Poll(pidOrder, commOrder) => Poller(s, pidOrder, commOrder)
  }

  function Run(tr: Trace<Event>): State {
    match tr
    case Start => State(EMPTY_MAPS, 0, 0, 0, 0, 0, 0)
    case Then(before, e) => Step(Run(before), e)
  }

  /** Every poll walks the maps of its time, each in some order. */
  ghost predicate Feasible(tr: Trace<Event>) {
    tr.Then? ==>
      && Feasible(tr.before)
      && (tr.event.Poll? ==> Lists(tr.event.pidOrder, Run(tr.before).maps.pids)
                             && Lists(tr.event.commOrder, Run(tr.before).maps.comms))
  }

  function Events(tr: Trace<Event>): nat {
    match tr
    case Start => 0
    case Then(before, e) => Events(before) + if e.Retransmit? then 1 else 0
  }

  function PidBook(s: State): Book<nat> {
    Book(Counts(s.maps.pids), s.pidPrinted, s.pidDropped)
  }

  function CommBook(s: State): Book<string> {
    Book(s.maps.comms, s.commPrinted, s.commDropped)
  }

  /** The global counter counts every event, and the printed deltas add up to its value at the last poll. */
  lemma {:induction false} DeltasTelescope(tr: Trace<Event>)
    requires Events(tr) < U64
    ensures Run(tr).maps.total == Events(tr)
    ensures Run(tr).deltaPrinted == Run(tr).prev <= Events(tr)
  {
    if tr.Then? {
      DeltasTelescope(tr.before);
    }
  }

  lemma PidCountStep(s: State, pid: nat, comm: string)
    requires Balance(PidBook(s)) + 1 < U64
    ensures Balance(PidBook(Step(s, Retransmit(pid, comm)))) == Balance(PidBook(s)) + 1
  {
    CountPidIsBump(s.maps.pids, pid, comm);
    assert Counts(s.maps.pids).Keys == s.maps.pids.Keys && |Counts(s.maps.pids)| == |s.maps.pids|;
    CountBalance(PidBook(s), MAX_ENTRIES, pid);
    assert PidBook(Step(s, Retransmit(pid, comm))) == Counted(PidBook(s), MAX_ENTRIES, pid);
  }

  lemma PidDrainStep(s: State, pidOrder: seq<(nat, Info)>, commOrder: seq<(string, u64)>)
    requires Lists(pidOrder, s.maps.pids) && !Stuck(pidOrder)
    ensures PidBook(Step(s, Poll(pidOrder, commOrder))) == Drained(PidBook(s), Total(Counts(s.maps.pids)))
  {
    PidLinesAddUp(pidOrder, s.maps.pids);
    assert Counts(map[]) == map[];
  }

  lemma PidPollStep(s: State, pidOrder: seq<(nat, Info)>, commOrder: seq<(string, u64)>)
    requires Lists(pidOrder, s.maps.pids)
    ensures Balance(PidBook(Step(s, Poll(pidOrder, commOrder)))) == Balance(PidBook(s))
  {
    if Stuck(pidOrder) {
      StuckStep(s, Poll(pidOrder, commOrder));
    } else {
      PidDrainStep(s, pidOrder, commOrder);
      DrainBalance(PidBook(s), Total(Counts(s.maps.pids)));
    }
  }

  /** A stuck poll prints no PID and leaves the PID map as it is. */
  lemma StuckStep(s: State, poll: Event)
    requires poll.Poll? && DistinctKeys(poll.pidOrder) && Stuck(poll.pidOrder)
    ensures Step(s, poll).pidPrinted == s.pidPrinted && Step(s, poll).maps.pids == s.maps.pids
  {
    RestartOrderIsAllOrNothing(poll.pidOrder, Some(0));
  }

  lemma PidStep(s: State, e: Event)
    requires Balance(PidBook(s)) + (if e.Retransmit? then 1 else 0) < U64
    requires e.Poll? ==> Lists(e.pidOrder, s.maps.pids)
    ensures Balance(PidBook(Step(s, e))) == Balance(PidBook(s)) + if e.Retransmit? then 1 else 0
  {
    match e {
      case Retransmit(pid, comm) => PidCountStep(s, pid, comm);
      case Poll(pidOrder, commOrder) => PidPollStep(s, pidOrder, commOrder);
    }
  }

  lemma CommStep(s: State, e: Event)
    requires Balance(CommBook(s)) + (if e.Retransmit? then 1 else 0) < U64
    requires e.Poll? ==> Lists(e.commOrder, s.maps.comms)
    ensures Balance(CommBook(Step(s, e))) == Balance(CommBook(s)) + if e.Retransmit? then 1 else 0
  {
    match e {
      case Retransmit(_, comm) =>
        CountBalance(CommBook(s), MAX_ENTRIES, comm);
        assert CommBook(Step(s, e)) == Counted(CommBook(s), MAX_ENTRIES, comm);
      case Poll(_, commOrder) =>
        CommLinesAddUp(commOrder, s.maps.comms);
        DrainBalance(CommBook(s), Total(s.maps.comms));
    }
  }

  /** In the PID book every retransmission is printed once, still live, or was dropped by a full map. */
  lemma {:induction false} PidBookBalances(tr: Trace<Event>)
    requires Feasible(tr) && Events(tr) < U64
    ensures Balance(PidBook(Run(tr))) == Events(tr)
  {
    if tr.Then? {
      PidBookBalances(tr.before);
      PidStep(Run(tr.before), tr.event);
    } else {
      assert Counts(map[]) == map[];
    }
  }

  /** So it is in the book of process names. */
  lemma {:induction false} CommBookBalances(tr: Trace<Event>)
    requires Feasible(tr) && Events(tr) < U64
    ensures Balance(CommBook(Run(tr))) == Events(tr)
  {
    if tr.Then? {
      CommBookBalances(tr.before);
      CommStep(Run(tr.before), tr.event);
    }
  }

  /** After a poll that is not stuck, with nothing dropped, the three books have printed the same total. */
  lemma BooksAgreeAfterPoll(tr: Trace<Event>)
    requires Feasible(tr) && Events(tr) < U64 && tr.Then? && tr.event.Poll? && !Stuck(tr.event.pidOrder)
    ensures (var s := Run(tr);
      && s.deltaPrinted == Events(tr)
      && s.pidPrinted + s.pidDropped == Events(tr)
      && s.commPrinted + s.commDropped == Events(tr))
  {
    DeltasTelescope(tr);
    PidBookBalances(tr);
    CommBookBalances(tr);
    assert Counts(map[]) == map[];
  }

  // ---- What a poll prints of a PID and of a name ----

  /** The retransmissions of a PID since the last poll that printed the PIDs. */
  function PidEvents(tr: Trace<Event>, pid: nat): nat {
    match tr
    case Start => 0
    case Then(before, Retransmit(p, _)) => PidEvents(before, pid) + if p == pid then 1 else 0
    case Then(before, Poll(order, _)) => if Stuck(order) then PidEvents(before, pid) else 0
  }

  /** The process name of the first of them. */
  function FirstName(tr: Trace<Event>, pid: nat): Option<string> {
    match tr
    case Start => None
    case Then(before, Retransmit(p, comm)) =>
      if p == pid && FirstName(before, pid).None? then Some(comm) else FirstName(before, pid)
    case Then(before, Poll(order, _)) => if Stuck(order) then FirstName(before, pid) else None
  }

  /** The retransmissions of a name since the last poll. */
  function NameEvents(tr: Trace<Event>, comm: string): nat {
    match tr
    case Start => 0
    case Then(before, Retransmit(_, c)) => NameEvents(before, comm) + if c == comm then 1 else 0
    case Then(before, Poll(_, _)) => 0
  }

  function PidsSeen(tr: Trace<Event>): set<nat> {
    match tr
    case Start => {}
    case Then(before, e) => PidsSeen(before) + if e.Retransmit? then {e.pid} else {}
  }

  function NamesSeen(tr: Trace<Event>): set<string> {
    match tr
    case Start => {}
    case Then(before, e) => NamesSeen(before) + if e.Retransmit? then {e.comm} else {}
  }

  lemma {:induction false} PidsWereSeen(tr: Trace<Event>)
    ensures Run(tr).maps.pids.Keys <= PidsSeen(tr)
  {
    match tr {
      case Start =>
      case Then(before, e) => PidsWereSeen(before);
    }
  }

  /** The map has an entry for `pid` exactly when it had events: with their number and the first name. */
  predicate HasEntry(m: map<nat, Info>, pid: nat, n: nat, name: Option<string>) {
    && (pid in m <==> name.Some?) && (pid in m <==> n > 0)
    && (pid in m ==> m[pid].count == n && Some(m[pid].comm) == name)
  }

  lemma CountedEntry(m: map<nat, Info>, p: nat, comm: string, pid: nat, n: nat, name: Option<string>)
    requires HasEntry(m, pid, n, name) && n + 1 < U64 && (p in m || |m| < MAX_ENTRIES)
    ensures HasEntry(CountPid(m, p, comm), pid, if p == pid then n + 1 else n,
                     if p == pid && name.None? then Some(comm) else name)
  {
  }

  /** With no more PIDs than entries, the PID map is what the history says. */
  lemma {:induction false} PidMapIsHistory(tr: Trace<Event>, pid: nat)
    requires Events(tr) < U64 && |PidsSeen(tr)| <= MAX_ENTRIES
    ensures PidEvents(tr, pid) <= Events(tr)
    ensures HasEntry(Run(tr).maps.pids, pid, PidEvents(tr, pid), FirstName(tr, pid))
  {
    match tr {
      case Start =>
      case Then(before, e) =>
        SubsetSize(PidsSeen(before), PidsSeen(tr));
        PidMapIsHistory(before, pid);
        if e.Retransmit? {
          EntryFits(before, e);
          CountedEntry(Run(before).maps.pids, e.pid, e.comm, pid, PidEvents(before, pid), FirstName(before, pid));
        }
    }
  }

  lemma EntryFits(before: Trace<Event>, e: Event)
    requires e.Retransmit? && |PidsSeen(Then(before, e))| <= MAX_ENTRIES
    ensures e.pid in Run(before).maps.pids || |Run(before).maps.pids| < MAX_ENTRIES
  {
    PidsWereSeen(before);
    PutFits(Run(before).maps.pids, MAX_ENTRIES, e.pid, Info(1, e.comm), PidsSeen(Then(before, e)));
  }

  lemma {:induction false} NameMapIsHistory(tr: Trace<Event>, comm: string)
    requires Events(tr) < U64 && |NamesSeen(tr)| <= MAX_ENTRIES
    ensures Run(tr).maps.comms.Keys <= NamesSeen(tr)
    ensures NameEvents(tr, comm) <= Events(tr)
    ensures comm in Run(tr).maps.comms <==> NameEvents(tr, comm) > 0
    ensures Value(Run(tr).maps.comms, comm) == NameEvents(tr, comm)
  {
    match tr {
      case Start =>
      case Then(before, e) =>
        SubsetSize(NamesSeen(before), NamesSeen(tr));
        NameMapIsHistory(before, comm);
        if e.Retransmit? {
          PutFits(Run(before).maps.comms, MAX_ENTRIES, e.comm, 0, NamesSeen(tr));
        }
    }
  }

  /** The lines of a poll, as `PollOnce` returns them. */
  function PidLines(order: seq<(nat, Info)>): seq<(PidLabel, u64)> {
    Positive(Labelled(RestartOrder(order, Some(0))))
  }

  function NameLines(order: seq<(string, u64)>): seq<(string, u64)> {
    Positive(RestartOrder(order, None))
  }

  lemma {:induction false} LabelledAt(es: seq<(nat, Info)>)
    ensures |Labelled(es)| == |es|
    ensures forall i | 0 <= i < |es| :: Labelled(es)[i] == ((es[i].0, es[i].1.comm), es[i].1.count)
  {
    if es != [] {
      LabelledAt(es[..|es| - 1]);
    }
  }

  lemma LabelledIffEntry(es: seq<(nat, Info)>, name: PidLabel, n: u64)
    ensures (name, n) in Labelled(es) <==> (name.0, Info(n, name.1)) in es
  {
    LabelledAt(es);
    if (name, n) in Labelled(es) {
      var i :| 0 <= i < |es| && Labelled(es)[i] == (name, n);
      assert es[i] == (name.0, Info(n, name.1));
    }
    if (name.0, Info(n, name.1)) in es {
      var i :| 0 <= i < |es| && es[i] == (name.0, Info(n, name.1));
      assert Labelled(es)[i] == (name, n);
    }
  }

  lemma ListedIffEntry<K(!new), V>(es: seq<(K, V)>, m: map<K, V>, k: K, v: V)
    requires Lists(es, m)
    ensures (k, v) in es <==> k in m && m[k] == v
  {
    if k in m && m[k] == v {
      var i :| 0 <= i < |es| && es[i].0 == k;
      assert es[i] == (k, v);
    }
  }

  lemma SameElements<T>(a: seq<T>, b: seq<T>, x: T)
    requires multiset(a) == multiset(b)
    ensures x in a <==> x in b
  {
    assert x in a <==> x in multiset(a);
    assert x in b <==> x in multiset(b);
  }

  /** A walk that is not stuck prints a line for exactly the entries of the map with a positive count, each once. */
  lemma PidLineIffEntry(order: seq<(nat, Info)>, m: map<nat, Info>, name: PidLabel, n: u64)
    requires Lists(order, m) && !Stuck(order)
    ensures (name, n) in PidLines(order) <==> n > 0 && name.0 in m && m[name.0] == Info(n, name.1)
    ensures DistinctKeys(PidLines(order))
  {
    var walk := RestartOrder(order, Some(0));
    RestartOrderIsAllOrNothing(order, Some(0));
    PositiveIsFilter(Labelled(walk), (name, n));
    LabelledIffEntry(walk, name, n);
    assert order == [] ==> walk == order;
    SameElements(walk, order, (name.0, Info(n, name.1)));
    ListedIffEntry(order, m, name.0, Info(n, name.1));
    LabelledAt(walk);
    PositiveKeepsDistinct(Labelled(walk));
  }

  /**
    The per-PID lines of a poll, in every run with no more PIDs than entries and in any order of the
    walk: unless the walk is stuck, a PID is printed exactly when it had retransmissions since the
    last poll that was not, once, with their number and the name of the first; a stuck walk prints nothing.
   */
  lemma PidLinesAreExact(before: Trace<Event>, poll: Event, name: PidLabel, n: u64)
    requires poll.Poll? && Feasible(Then(before, poll)) && Events(before) < U64 && |PidsSeen(before)| <= 10240
    ensures (name, n) in PidLines(poll.pidOrder) <==>
            && !Stuck(poll.pidOrder)
            && n > 0 && n == PidEvents(before, name.0) && FirstName(before, name.0) == Some(name.1)
    ensures DistinctKeys(PidLines(poll.pidOrder))
  {
    PidMapIsHistory(before, name.0);
    if Stuck(poll.pidOrder) {
      RestartOrderIsAllOrNothing(poll.pidOrder, Some(0));
    } else {
      PidLineIffEntry(poll.pidOrder, Run(before).maps.pids, name, n);
    }
  }

  /** The per-name lines: a name is printed exactly when it had retransmissions since the last poll, once, with their number. */
  lemma NameLinesAreExact(before: Trace<Event>, poll: Event, comm: string, n: u64)
    requires poll.Poll? && Feasible(Then(before, poll)) && Events(before) < U64 && |NamesSeen(before)| <= 10240
    ensures (comm, n) in NameLines(poll.commOrder) <==> n > 0 && n == NameEvents(before, comm)
    ensures DistinctKeys(NameLines(poll.commOrder))
  {
    var order := poll.commOrder;
    var walk := RestartOrder(order, None);
    NameMapIsHistory(before, comm);
    RestartOrderIsAllOrNothing(order, None);
    assert order == [] ==> walk == order;
    SameElements(walk, order, (comm, n));
    ListedIffEntry(order, Run(before).maps.comms, comm, n);
    PositiveIsFilter(walk, (comm, n));
    PositiveKeepsDistinct(walk);
  }

  predicate SomePidZero(tr: Trace<Event>) {
    tr.Then? && (SomePidZero(tr.before) || (tr.event.Retransmit? && tr.event.pid == 0))
  }

  /** A poll can be stuck only after a retransmission attributed to PID 0. */
  lemma {:induction false} ZeroIsRecorded(tr: Trace<Event>)
    requires 0 in Run(tr).maps.pids
    ensures SomePidZero(tr)
  {
    if tr.Then? && !(tr.event.Retransmit? && tr.event.pid == 0) {
      ZeroIsRecorded(tr.before);
    }
  }

  lemma StuckNeedsPidZero(tr: Trace<Event>)
    requires Feasible(tr) && tr.Then? && tr.event.Poll? && Stuck(tr.event.pidOrder)
    ensures SomePidZero(tr.before)
    ensures Run(tr).pidPrinted == Run(tr.before).pidPrinted && Run(tr).maps.pids == Run(tr.before).maps.pids
  {
    ZeroIsRecorded(tr.before);
    RestartOrderIsAllOrNothing(tr.event.pidOrder, Some(0));
  }

  // ---- The stuck walk ----

  lemma {:induction false} CountsArePositive(tr: Trace<Event>)
    requires Feasible(tr) && Events(tr) < U64
    ensures forall pid | pid in Run(tr).maps.pids :: Run(tr).maps.pids[pid].count > 0
  {
    if tr.Then? {
      CountsArePositive(tr.before);
      var s := Run(tr.before);
      if tr.event.Retransmit? && tr.event.pid in s.maps.pids {
        PidBookBalances(tr.before);
        ValueAtMostTotal(Counts(s.maps.pids), tr.event.pid);
      }
    }
  }

  /** The exact condition: a poll prints the total of the PID map if and only if it is not stuck. */
  lemma PollPrintsPidsIff(tr: Trace<Event>)
    requires Feasible(tr) && Events(tr) < U64 && tr.Then? && tr.event.Poll?
    ensures Run(tr).pidPrinted - Run(tr.before).pidPrinted == Total(Counts(Run(tr.before).maps.pids))
            <==> !Stuck(tr.event.pidOrder)
  {
    var pids, order := Run(tr.before).maps.pids, tr.event.pidOrder;
    if Stuck(order) {
      RestartOrderIsAllOrNothing(order, Some(0));
      CountsArePositive(tr.before);
      var k := order[|order| - 1].0;
      assert k in Counts(pids);
      ValueAtMostTotal(Counts(pids), k);
    } else {
      PidLinesAddUp(order, pids);
    }
  }

  lemma ZeroLast(pids: map<nat, Info>) returns (order: seq<(nat, Info)>)
    requires 0 in pids
    ensures Lists(order, pids) && Stuck(order)
  {
    order := ListingExists(pids - {0});
    ListingSnoc(order, pids, 0);
    order := order + [(0, pids[0])];
  }

  /** Once PID 0 is in the map, there is an order in which the next poll prints no PID and leaves the map as it is. */
  lemma StuckOnce(tr: Trace<Event>) returns (poll: Event)
    requires Feasible(tr) && 0 in Run(tr).maps.pids
    ensures poll.Poll? && Feasible(Then(tr, poll)) && Stuck(poll.pidOrder)
    ensures Run(Then(tr, poll)).pidPrinted == Run(tr).pidPrinted
    ensures Run(Then(tr, poll)).maps.pids == Run(tr).maps.pids
  {
    var pidOrder := ZeroLast(Run(tr).maps.pids);
    var commOrder := ListingExists(Run(tr).maps.comms);
    poll := Poll(pidOrder, commOrder);
    StuckStep(Run(tr), poll);
  }

  /** One retransmission of PID 0, and `n` polls behind it. */
  function ZeroAndPolls(comm: string, n: nat): Trace<Event> {
    if n == 0 then Then(Start, Retransmit(0, comm))
    else Then(ZeroAndPolls(comm, n - 1), Poll([(0, Info(1, comm))], CommsLeft(comm, n - 1)))
  }

  /** What the map of names still holds after `n` polls. */
  function CommsLeft(comm: string, n: nat): seq<(string, u64)> {
    if n == 0 then [(comm, 1)] else []
  }

  /** Its only entry is in the PID map, and none of it is printed. */
  ghost predicate ZeroIsStuck(s: State, comm: string, n: nat) {
    && s.pidPrinted == 0 && s.maps.pids == map[0 := Info(1, comm)]
    && s.maps.comms == if n == 0 then map[comm := 1] else map[]
  }

  lemma ZeroStaysStuck(s: State, comm: string, n: nat, commOrder: seq<(string, u64)>)
    requires ZeroIsStuck(s, comm, n)
    ensures ZeroIsStuck(Step(s, Poll([(0, Info(1, comm))], commOrder)), comm, n + 1)
  {
    StuckStep(s, Poll([(0, Info(1, comm))], commOrder));
  }

  lemma {:induction false} ZeroIsNeverPrinted(comm: string, n: nat)
    ensures ZeroIsStuck(Run(ZeroAndPolls(comm, n)), comm, n)
  {
    if n > 0 {
      ZeroIsNeverPrinted(comm, n - 1);
      ZeroStaysStuck(Run(ZeroAndPolls(comm, n - 1)), comm, n - 1, CommsLeft(comm, n - 1));
    }
  }

  lemma StuckListings(s: State, comm: string, n: nat)
    requires ZeroIsStuck(s, comm, n)
    ensures Lists([(0, Info(1, comm))], s.maps.pids) && Lists(CommsLeft(comm, n), s.maps.comms)
  {
    assert [(0, Info(1, comm))][0].0 == 0;
    assert n == 0 ==> CommsLeft(comm, n)[0].0 == comm;
  }

  lemma FeasiblePoll(before: Trace<Event>, poll: Event)
    requires Feasible(before) && poll.Poll?
    requires Lists(poll.pidOrder, Run(before).maps.pids) && Lists(poll.commOrder, Run(before).maps.comms)
    ensures Feasible(Then(before, poll))
  {
  }

  lemma ZeroStepIsFeasible(before: Trace<Event>, comm: string, n: nat)
    requires Feasible(before) && ZeroIsStuck(Run(before), comm, n)
    ensures Feasible(Then(before, Poll([(0, Info(1, comm))], CommsLeft(comm, n))))
  {
    StuckListings(Run(before), comm, n);
    FeasiblePoll(before, Poll([(0, Info(1, comm))], CommsLeft(comm, n)));
  }

  lemma ZeroStartIsFeasible(comm: string)
    ensures Feasible(ZeroAndPolls(comm, 0))
  {
  }

  lemma {:induction false} ZeroIsFeasible(comm: string, n: nat)
    ensures Feasible(ZeroAndPolls(comm, n))
  {
    ZeroStartIsFeasible(comm);
    for i := 0 to n
      invariant Feasible(ZeroAndPolls(comm, i))
    {
      ZeroIsNeverPrinted(comm, i);
      ZeroStepIsFeasible(ZeroAndPolls(comm, i), comm, i);
    }
  }

  /** Poll after poll: after one retransmission of PID 0, no number of polls need ever print a PID. */
  lemma StuckPollAfterPoll(comm: string, n: nat)
    ensures (var tr := ZeroAndPolls(comm, n);
      Feasible(tr) && Events(tr) == 1 && Run(tr).pidPrinted == 0 && Run(tr).maps.pids == map[0 := Info(1, comm)])
  {
    ZeroIsFeasible(comm, n);
    ZeroIsNeverPrinted(comm, n);
    ZeroIsOneEvent(comm, n);
  }

  lemma {:induction false} ZeroIsOneEvent(comm: string, n: nat)
    ensures Events(ZeroAndPolls(comm, n)) == 1
  {
    if n > 0 {
      ZeroIsOneEvent(comm, n - 1);
    }
  }
}
