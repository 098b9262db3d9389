/**
  read_stat as an interleaving of fine-grained steps: any number of handlers, each a lookup
  followed by an add or an insert, and one poller, each time a lookup-and-print followed by a
  delete.

  A map entry is an element with its own identity. A handler keeps a pointer to the element its
  lookup found; once that element is deleted or replaced, the handler's add goes to an orphan.
  The second step of a handler that found nothing is a `BPF_ANY` update with value 1: it replaces
  an element that another handler inserted meanwhile.
 */
module ReadStat {
  import opened Bpf
  import opened Walks

  const MAX_ENTRIES: nat := 10240

  datatype Elem = Elem(id: nat, count: nat)

  /** A handler between its lookup and its second access. */
  datatype Handler = Found(pid: nat, id: nat) | Missing(pid: nat)

  /** The poller between printing a PID's value and deleting the PID. */
  datatype Poller = Scanning | Printed(pid: nat, id: nat, value: nat)

  datatype State = State(
    live: map<nat, Elem>,
    handlers: map<nat, Handler>,
    poller: Poller,
    nextId: nat,
    printed: seq<(nat, nat)>,
    events: seq<nat>)

  datatype Step =
    | Lookup(h: nat, pid: nat)
    | Finish(h: nat)
    | PollLookup(pid: nat)
    | PollDelete

  const IDLE := State(map[], map[], Scanning, 0, [], [])

  predicate Enabled(s: State, step: Step) {
    match step
    case Lookup(h, _) => h !in s.handlers
    case Finish(h) => h in s.handlers
    case PollLookup(_) => s.poller.Scanning?
    case PollDelete => s.poller.Printed?
  }

  /** One step; a step that is not enabled changes nothing. */
  function Next(s: State, step: Step): State {
    if !Enabled(s, step) then s else
    match step
    case Lookup(h, pid) =>
      var seen := if pid in s.live then Found(pid, s.live[pid].id) else Missing(pid);
      s.(handlers := s.handlers[h := seen], events := s.events + [pid])
    case Finish(h) =>
      var done := s.(handlers := s.handlers - {h});
      (match s.handlers[h]
       case Found(pid, id) =>
         if Holds(s.live, pid, id) then done.(live := s.live[pid := Elem(id, s.live[pid].count + 1)]) else done
       case Missing(pid) =>
         done.(live := Put(s.live, MAX_ENTRIES, pid, Elem(s.nextId, 1)), nextId := s.nextId + 1))
    case PollLookup(pid) =>
      if pid !in s.live then s else
        var e := s.live[pid];
        s.(poller := Printed(pid, e.id, e.count), printed := s.printed + [(pid, e.count)])
    case PollDelete =>
      s.(poller := Scanning, live := s.live - {s.poller.pid})
  }

  /** The element `id` is still the one in the map under `pid`. */
  predicate Holds(live: map<nat, Elem>, pid: nat, id: nat) {
    pid in live && live[pid].id == id
  }

  /** The state after an interleaving, given as the steps that were taken. */
  function After(tr: Trace<Step>): State {
    match tr
    case Start => IDLE
    case Then(before, step) => Next(After(before), step)
  }

  // ---- The account: where every event of a set of PIDs has gone ----

  function PrintedFor(out: seq<(nat, nat)>, who: iset<nat>): nat {
    if out == [] then 0 else
      var last := out[|out| - 1];
      PrintedFor(out[..|out| - 1], who) + if last.0 in who then last.1 else 0
  }

  function EventsFor(events: seq<nat>, who: iset<nat>): nat {
    if events == [] then 0 else
      EventsFor(events[..|events| - 1], who) + if events[|events| - 1] in who then 1 else 0
  }

  /** The part of a live count that has not been printed. */
  function Unread(s: State, pid: nat): nat
    requires pid in s.live
  {
    var e := s.live[pid];
    if s.poller.Printed? && s.poller.pid == pid && s.poller.id == e.id && s.poller.value <= e.count
    then e.count - s.poller.value else e.count
  }

  ghost function UnreadOf(s: State, who: iset<nat>): map<nat, nat> {
    map p | p in s.live && p in who :: Unread(s, p)
  }

  ghost function Unprinted(s: State, who: iset<nat>): nat {
    Total(UnreadOf(s, who))
  }

  ghost function FlyingOf(s: State, who: iset<nat>): map<nat, nat> {
    map h | h in s.handlers && s.handlers[h].pid in who :: 1
  }

  ghost function InFlight(s: State, who: iset<nat>): nat {
    Total(FlyingOf(s, who))
  }

  /** The events of `who` that a step loses: an add to an orphan, a replaced or dropped insert, a late add. */
  function Loss(s: State, step: Step, who: iset<nat>): nat {
    if !Enabled(s, step) then 0 else
    match step
    case Lookup(_, _) => 0
    case PollLookup(_) => 0
    case Finish(h) =>
      if s.handlers[h].pid !in who then 0 else
        (match s.handlers[h]
         case Found(pid, id) => if Holds(s.live, pid, id) then 0 else 1
         case Missing(pid) =>
           if pid in s.live then Unread(s, pid) else if |s.live| < MAX_ENTRIES then 0 else 1)
    case PollDelete =>
      if s.poller.pid in who && s.poller.pid in s.live then Unread(s, s.poller.pid) else 0
  }

  function Lost(tr: Trace<Step>, who: iset<nat>): nat {
    match tr
    case Start => 0
    case Then(before, step) => Lost(before, who) + Loss(After(before), step, who)
  }

  ghost predicate Wellformed(s: State) {
    && (forall p | p in s.live :: s.live[p].id < s.nextId)
    && (s.poller.Printed? ==> s.poller.id < s.nextId)
    && (s.poller.Printed? && Holds(s.live, s.poller.pid, s.poller.id) ==>
          s.poller.value <= s.live[s.poller.pid].count)
  }

  lemma StepStaysWellformed(s: State, step: Step)
    requires Wellformed(s)
    ensures Wellformed(Next(s, step))
  {
    var s' := Next(s, step);
    if step.Finish? && Enabled(s, step) {
      assert forall p | p in s'.live && p != s.handlers[step.h].pid :: p in s.live && s'.live[p] == s.live[p];
    }
  }

  lemma {:induction false} StaysWellformed(tr: Trace<Step>)
    ensures Wellformed(After(tr))
  {
    match tr {
      case Start =>
      case Then(before, step) =>
        StaysWellformed(before);
        StepStaysWellformed(After(before), step);
    }
  }

  /** The map is within its capacity, and an entry counts at least one event. */
  ghost predicate Bounded(live: map<nat, Elem>) {
    |live| <= MAX_ENTRIES && forall p | p in live :: live[p].count > 0
  }

  lemma StepStaysBounded(s: State, step: Step)
    requires Bounded(s.live)
    ensures Bounded(Next(s, step).live)
  {
    var live' := Next(s, step).live;
    if step.PollDelete? && Enabled(s, step) {
      SubsetSize(live'.Keys, s.live.Keys);
    } else if step.Finish? && Enabled(s, step) && s.handlers[step.h].pid in s.live {
      assert live'.Keys == s.live.Keys;
    }
    assert |live'| == |live'.Keys| && |s.live| == |s.live.Keys|;
  }

  lemma {:induction false} StaysBounded(tr: Trace<Step>)
    ensures Bounded(After(tr).live)
  {
    match tr {
      case Start =>
      case Then(before, step) =>
        StaysBounded(before);
        StepStaysBounded(After(before), step);
    }
  }

  /** What a change to one entry does to the unprinted total. */
  lemma UnprintedStep(s: State, s': State, who: iset<nat>, pid: nat)
    requires forall p | p != pid :: (p in s.live <==> p in s'.live) && (p in s.live ==> Unread(s, p) == Unread(s', p))
    ensures Unprinted(s', who) - (if pid in s'.live && pid in who then Unread(s', pid) else 0)
            == Unprinted(s, who) - (if pid in s.live && pid in who then Unread(s, pid) else 0)
  {
    TotalUpdate(UnreadOf(s, who), pid, 0);
    TotalUpdate(UnreadOf(s', who), pid, 0);
    assert UnreadOf(s, who) - {pid} == UnreadOf(s', who) - {pid};
  }

  /** What the start or the end of one handler does to the number in flight. */
  lemma InFlightStep(s: State, h: nat, x: Handler, who: iset<nat>)
    requires h !in s.handlers
    ensures InFlight(s.(handlers := s.handlers[h := x]), who) == InFlight(s, who) + (if x.pid in who then 1 else 0)
  {
    var s' := s.(handlers := s.handlers[h := x]);
    if x.pid in who {
      assert FlyingOf(s', who) == FlyingOf(s, who)[h := 1];
      TotalUpdate(FlyingOf(s, who), h, 1);
    } else {
      assert FlyingOf(s', who) == FlyingOf(s, who);
    }
  }

  lemma InFlightSame(s: State, s': State, who: iset<nat>)
    requires s.handlers == s'.handlers
    ensures InFlight(s', who) == InFlight(s, who)
  {
    assert FlyingOf(s', who) == FlyingOf(s, who);
  }

  /** A lookup brings its event into the account, in flight. */
  lemma LookupAccount(s: State, h: nat, pid: nat, who: iset<nat>)
    requires h !in s.handlers
    ensures (var s' := Next(s, Lookup(h, pid));
             EventsFor(s'.events, who) - EventsFor(s.events, who) == InFlight(s', who) - InFlight(s, who)
             && Unprinted(s', who) == Unprinted(s, who))
  {
    var s' := Next(s, Lookup(h, pid));
    assert s'.events[..|s.events|] == s.events;
    UnprintedStep(s, s', who, pid);
    InFlightStep(s, h, s'.handlers[h], who);
    InFlightSame(s', s.(handlers := s'.handlers), who);
  }

  /** The second step of a handler moves its event from flight to the map, or to the lost. */
  lemma FinishAccount(s: State, h: nat, who: iset<nat>)
    requires Wellformed(s) && h in s.handlers
    ensures (var s' := Next(s, Finish(h));
             InFlight(s, who) + Unprinted(s, who)
             == InFlight(s', who) + Unprinted(s', who) + Loss(s, Finish(h), who))
  {
    FinishLands(s, h, who);
    FinishUnread(s, h);
    FinishLoss(s, h, who);
  }

  lemma FinishLands(s: State, h: nat, who: iset<nat>)
    requires h in s.handlers
    ensures (var s', pid := Next(s, Finish(h)), s.handlers[h].pid;
      && InFlight(s, who) == InFlight(s', who) + (if pid in who then 1 else 0)
      && Unprinted(s', who) - (if pid in s'.live && pid in who then Unread(s', pid) else 0)
         == Unprinted(s, who) - (if pid in s.live && pid in who then Unread(s, pid) else 0))
  {
    var s', x := Next(s, Finish(h)), s.handlers[h];
    InFlightStep(s', h, x, who);
    assert s'.handlers[h := x] == s.handlers;
    InFlightSame(s, s'.(handlers := s.handlers), who);
    assert forall p | p != x.pid :: (p in s.live <==> p in s'.live) && (p in s.live ==> s'.live[p] == s.live[p]);
    UnprintedStep(s, s', who, x.pid);
  }

  lemma FinishLoss(s: State, h: nat, who: iset<nat>)
    requires h in s.handlers
    ensures Loss(s, Finish(h), who) == if s.handlers[h].pid in who then Loss(s, Finish(h), iset{s.handlers[h].pid}) else 0
  {
  }

  lemma FinishUnread(s: State, h: nat)
    requires Wellformed(s) && h in s.handlers
    ensures (var s', pid := Next(s, Finish(h)), s.handlers[h].pid;
             (if pid in s'.live then Unread(s', pid) else 0) + Loss(s, Finish(h), iset{pid})
             == (if pid in s.live then Unread(s, pid) else 0) + 1)
  {
  }

  /** The steps of the poller balance: a print moves a count from unprinted to printed, a delete drops what came late. */
  lemma PollerAccount(s: State, step: Step, who: iset<nat>)
    requires Wellformed(s) && Enabled(s, step) && (step.PollLookup? || step.PollDelete?)
    ensures (var s' := Next(s, step);
             && s'.events == s.events && InFlight(s', who) == InFlight(s, who)
             && PrintedFor(s'.printed, who) - PrintedFor(s.printed, who)
                + Unprinted(s', who) - Unprinted(s, who) + Loss(s, step, who) == 0)
  {
    var s' := Next(s, step);
    InFlightSame(s, s', who);
    if step.PollDelete? {
      UnprintedStep(s, s', who, s.poller.pid);
    } else if step.pid in s.live {
      assert s'.printed[..|s.printed|] == s.printed;
      UnprintedStep(s, s', who, step.pid);
    }
  }

  /**
    Conservation, for every interleaving and every set of PIDs: each event is printed, or live
    and unprinted, or in a handler still between its two steps, or was lost by a named step.
   */
  lemma {:induction false} EveryEventIsAccounted(tr: Trace<Step>, who: iset<nat>)
    ensures (var s := After(tr);
             EventsFor(s.events, who)
             == PrintedFor(s.printed, who) + Unprinted(s, who) + InFlight(s, who) + Lost(tr, who))
  {
    match tr {
      case Start =>
        assert UnreadOf(IDLE, who) == map[] && FlyingOf(IDLE, who) == map[];
      case Then(before, step) =>
        EveryEventIsAccounted(before, who);
        StaysWellformed(before);
        var s := After(before);
        if Enabled(s, step) {
          match step {
            case Lookup(h, pid) => LookupAccount(s, h, pid, who);
            case Finish(h) => FinishAccount(s, h, who);
            case _ => PollerAccount(s, step, who);
          }
        }
    }
  }

  /**
    Nothing is counted twice: in every interleaving the printed total plus the live, unprinted
    total never exceeds the number of events, for one PID, for all, or for any set of PIDs.
   */
  lemma NeverOvercounts(tr: Trace<Step>, who: iset<nat>)
    ensures (var s := After(tr);
             PrintedFor(s.printed, who) + Unprinted(s, who) <= EventsFor(s.events, who) <= |s.events|)
  {
    EveryEventIsAccounted(tr, who);
    EventsBound(After(tr).events, who);
  }

  lemma {:induction false} EventsBound(events: seq<nat>, who: iset<nat>)
    ensures EventsFor(events, who) <= |events|
  {
    if events != [] {
      EventsBound(events[..|events| - 1], who);
    }
  }

  /** A live count is at most the number of events: a u64 counter never wraps in practice. */
  lemma CountsAreBounded(tr: Trace<Step>, pid: nat)
    requires pid in After(tr).live
    ensures After(tr).live[pid].count <= |After(tr).events|
  {
    var s := After(tr);
    var who := iset{pid};
    NeverOvercounts(tr, who);
    StaysWellformed(tr);
    TotalUpdate(UnreadOf(s, who), pid, 0);
    if s.poller.Printed? && Holds(s.live, pid, s.poller.id) && s.poller.pid == pid {
      PrintedIsIncluded(tr, who);
    }
  }

  /** While the poller stands between print and delete, the value it printed is in the printed total. */
  lemma {:induction false} PrintedIsIncluded(tr: Trace<Step>, who: iset<nat>)
    ensures (var s := After(tr);
             s.poller.Printed? && s.poller.pid in who ==> s.poller.value <= PrintedFor(s.printed, who))
  {
    match tr {
      case Start =>
      case Then(before, step) =>
        PrintedIsIncluded(before, who);
        var s, s' := After(before), After(tr);
        if step.PollLookup? && step.pid in s.live {
          assert s'.printed[..|s.printed|] == s.printed;
        }
    }
  }

  // ---- Exactly when something is lost ----

  /** The poller has printed all of the live count of `pid`, and not deleted it yet. */
  predicate FullyPrinted(s: State, pid: nat)
    requires pid in s.live
  {
    s.poller == Printed(pid, s.live[pid].id, s.live[pid].count)
  }

  /**
    The guards under which a step loses events of `who`: the add of a handler whose element was
    deleted or replaced; an insert over a live count that is not fully printed, or into a full map;
    a delete of a live count that is not the one printed.
   */
  predicate Loses(s: State, step: Step, who: iset<nat>) {
    Enabled(s, step) &&
    match step
    case Lookup(_, _) => false
    case PollLookup(_) => false
    case Finish(h) =>
      s.handlers[h].pid in who &&
      (match s.handlers[h]
       case Found(pid, id) => !Holds(s.live, pid, id)
       case Missing(pid) => if pid in s.live then !FullyPrinted(s, pid) else |s.live| >= 10240)
    case PollDelete =>
      var pid := s.poller.pid;
      pid in who && pid in s.live && !FullyPrinted(s, pid)
  }

  lemma UnreadIffNotPrinted(s: State, pid: nat)
    requires Wellformed(s) && Bounded(s.live) && pid in s.live
    ensures Unread(s, pid) > 0 <==> !FullyPrinted(s, pid)
  {
  }

  /** In every reachable state a step loses events exactly when it meets one of the guards. */
  lemma StepLosesIff(tr: Trace<Step>, step: Step, who: iset<nat>)
    ensures Loss(After(tr), step, who) > 0 <==> Loses(After(tr), step, who)
  {
    var s := After(tr);
    StaysWellformed(tr);
    StaysBounded(tr);
    if step.Finish? && Enabled(s, step) && s.handlers[step.h].pid in s.live {
      UnreadIffNotPrinted(s, s.handlers[step.h].pid);
    }
    if step.PollDelete? && Enabled(s, step) && s.poller.pid in s.live {
      UnreadIffNotPrinted(s, s.poller.pid);
    }
  }

  /** No step of the run meets a guard. */
  predicate Safe(tr: Trace<Step>, who: iset<nat>) {
    tr.Then? ==> Safe(tr.before, who) && !Loses(After(tr.before), tr.event, who)
  }

  lemma {:induction false} NothingLostIff(tr: Trace<Step>, who: iset<nat>)
    ensures Lost(tr, who) == 0 <==> Safe(tr, who)
  {
    match tr {
      case Start =>
      case Then(before, step) =>
        NothingLostIff(before, who);
        StepLosesIff(before, step, who);
    }
  }

  /**
    The exact condition: in every interleaving, for every set of PIDs, each event is printed, live and
    unprinted, or in flight, if and only if no step of the run met one of the guards.
   */
  lemma EveryEventIsCountedIff(tr: Trace<Step>, who: iset<nat>)
    ensures (var s := After(tr);
             EventsFor(s.events, who) == PrintedFor(s.printed, who) + Unprinted(s, who) + InFlight(s, who)
             <==> Safe(tr, who))
  {
    EveryEventIsAccounted(tr, who);
    NothingLostIff(tr, who);
  }

  // ---- Runs without interference ----

  /** A read call handled, or a PID printed and deleted, without interruption. */
  datatype Op = ReadCall(pid: nat) | DrainPid(pid: nat)

  /** The run that takes the two steps of each operation one after the other. */
  function Serial(ops: Trace<Op>): Trace<Step> {
    match ops
    case Start => Start
    case Then(before, ReadCall(pid)) => Then(Then(Serial(before), Lookup(0, pid)), Finish(0))
    case Then(before, DrainPid(pid)) => Then(Then(Serial(before), PollLookup(pid)), PollDelete)
  }

  /** No read call of `who` meets a full map without an entry of its own. */
  predicate HasRoom(ops: Trace<Op>, who: iset<nat>) {
    ops.Then? ==>
      && HasRoom(ops.before, who)
      && (ops.event.ReadCall? && ops.event.pid in who ==>
            var live := After(Serial(ops.before)).live;
            ops.event.pid in live || |live| < 10240)
  }

  ghost predicate Quiescent(s: State) {
    s.handlers == map[] && s.poller.Scanning?
  }

  /** From any state, a handler that is not interrupted loses its event if and only if it is new to a full map. */
  lemma ReadCallSteps(tr: Trace<Step>, h: nat, pid: nat, who: iset<nat>)
    requires h !in After(tr).handlers
    ensures (var looked := Then(tr, Lookup(h, pid));
      && After(Then(looked, Finish(h))).handlers == After(tr).handlers
      && After(Then(looked, Finish(h))).poller == After(tr).poller
      && !Loses(After(tr), Lookup(h, pid), who)
      && (Loses(After(looked), Finish(h), who) <==>
            pid in who && pid !in After(tr).live && |After(tr).live| >= 10240))
  {
    var s1 := After(Then(tr, Lookup(h, pid)));
    assert s1.handlers - {h} == After(tr).handlers;
  }

  /** From any state between two PIDs, a print and its delete that are not interrupted lose nothing. */
  lemma DrainPidSteps(tr: Trace<Step>, pid: nat, who: iset<nat>)
    requires After(tr).poller.Scanning?
    ensures (var s, s' := After(tr), After(Then(Then(tr, PollLookup(pid)), PollDelete));
      && s'.handlers == s.handlers && s'.poller.Scanning? && s'.live == s.live - {pid}
      && s'.printed == s.printed + (if pid in s.live then [(pid, s.live[pid].count)] else []))
    ensures !Loses(After(tr), PollLookup(pid), who)
    ensures !Loses(After(Then(tr, PollLookup(pid))), PollDelete, who)
  {
    var s1 := After(Then(tr, PollLookup(pid)));
    if pid !in After(tr).live {
      assert s1 == After(tr) && s1.live - {pid} == s1.live;
    }
  }

  lemma {:induction false} SerialIsQuiescent(ops: Trace<Op>)
    ensures Quiescent(After(Serial(ops)))
  {
    match ops {
      case Start =>
      case Then(before, ReadCall(pid)) =>
        SerialIsQuiescent(before);
        ReadCallSteps(Serial(before), 0, pid, iset{});
      case Then(before, DrainPid(pid)) =>
        SerialIsQuiescent(before);
        DrainPidSteps(Serial(before), pid, iset{});
    }
  }

  /** Without interference, events are lost if and only if a new PID meets a full map. */
  lemma {:induction false} SerialLosesOnlyWhenFull(ops: Trace<Op>, who: iset<nat>)
    ensures Safe(Serial(ops), who) <==> HasRoom(ops, who)
  {
    match ops {
      case Start =>
      case Then(before, ReadCall(pid)) =>
        SerialLosesOnlyWhenFull(before, who);
        SerialIsQuiescent(before);
        ReadCallSteps(Serial(before), 0, pid, who);
        assert Safe(Then(Serial(before), Lookup(0, pid)), who) <==> Safe(Serial(before), who);
      case Then(before, DrainPid(pid)) =>
        SerialLosesOnlyWhenFull(before, who);
        SerialIsQuiescent(before);
        DrainPidSteps(Serial(before), pid, who);
        assert Safe(Then(Serial(before), PollLookup(pid)), who) <==> Safe(Serial(before), who);
    }
  }

  // ---- The drain of one poll ----

  /** The steps that print and delete the listed PIDs, one after the other. */
  function DrainAll(tr: Trace<Step>, out: seq<(nat, nat)>): Trace<Step> {
    if out == [] then tr else
      Then(Then(DrainAll(tr, out[..|out| - 1]), PollLookup(out[|out| - 1].0)), PollDelete)
  }

  ghost function KeySet(out: seq<(nat, nat)>): set<nat> {
    set i | 0 <= i < |out| :: out[i].0
  }

  lemma KeySetSnoc(out: seq<(nat, nat)>)
    requires out != [] && DistinctKeys(out)
    ensures KeySet(out) == KeySet(out[..|out| - 1]) + {out[|out| - 1].0}
    ensures out[|out| - 1].0 !in KeySet(out[..|out| - 1])
  {
    var n := |out| - 1;
    forall k | k in KeySet(out) ensures k in KeySet(out[..n]) + {out[n].0} {
      var i :| 0 <= i < |out| && out[i].0 == k;
      if i < n {
        assert out[..n][i].0 == k;
      }
    }
    forall k | k in KeySet(out[..n]) ensures k in KeySet(out) && k != out[n].0 {
      var i :| 0 <= i < n && out[..n][i].0 == k;
      assert out[i].0 == k;
    }
  }

  /** From `s` to `s'` exactly the entries `out` were printed, in order, and deleted. */
  ghost predicate Drained(s: State, s': State, out: seq<(nat, nat)>) {
    && s'.handlers == s.handlers && s'.poller.Scanning?
    && s'.printed == s.printed + out && s'.live == s.live - KeySet(out)
  }

  ghost predicate Entries(live: map<nat, Elem>, out: seq<(nat, nat)>) {
    DistinctKeys(out) && forall i | 0 <= i < |out| :: out[i].0 in live && live[out[i].0].count == out[i].1
  }

  lemma DrainedOneMore(s: State, mid: State, s': State, out: seq<(nat, nat)>)
    requires out != [] && Entries(s.live, out) && Drained(s, mid, out[..|out| - 1])
    requires Drained(mid, s', [out[|out| - 1]])
    ensures Drained(s, s', out)
  {
    var n := |out| - 1;
    KeySetSnoc(out);
    KeySetSnoc([out[n]]);
    assert s.live - KeySet(out[..n]) - {out[n].0} == s.live - KeySet(out);
    assert out[..n] + [out[n]] == out;
  }

  lemma DrainsOne(tr: Trace<Step>, s: State, out: seq<(nat, nat)>)
    requires out != [] && Entries(s.live, out) && Drained(s, After(tr), out[..|out| - 1])
    ensures var n := |out| - 1;
      Drained(After(tr), After(Then(Then(tr, PollLookup(out[n].0)), PollDelete)), [out[n]])
  {
    var n := |out| - 1;
    KeySetSnoc(out);
    KeySetSnoc([out[n]]);
    assert After(tr).live[out[n].0] == s.live[out[n].0];
    DrainPidSteps(tr, out[n].0, iset{});
  }

  lemma {:induction false} DrainAllPrints(tr: Trace<Step>, out: seq<(nat, nat)>)
    requires After(tr).poller.Scanning? && Entries(After(tr).live, out)
    ensures Drained(After(tr), After(DrainAll(tr, out)), out)
  {
    if out == [] {
      assert After(tr).live - KeySet(out) == After(tr).live;
    } else {
      var n := |out| - 1;
      var sofar := DrainAll(tr, out[..n]);
      DrainAllPrints(tr, out[..n]);
      DrainsOne(sofar, After(tr), out);
      DrainedOneMore(After(tr), After(sofar), After(DrainAll(tr, out)), out);
    }
  }

  lemma {:induction false} DrainAllIsSafe(tr: Trace<Step>, out: seq<(nat, nat)>, who: iset<nat>)
    requires After(tr).poller.Scanning?
    ensures After(DrainAll(tr, out)).poller.Scanning?
    ensures Safe(DrainAll(tr, out), who) <==> Safe(tr, who)
  {
    if out != [] {
      var n := |out| - 1;
      var sofar := DrainAll(tr, out[..n]);
      DrainAllIsSafe(tr, out[..n], who);
      DrainPidSteps(sofar, out[n].0, who);
      assert Safe(Then(sofar, PollLookup(out[n].0)), who) <==> Safe(sofar, who);
    }
  }

  lemma TailIsEntries(es: seq<(nat, nat)>, live: map<nat, Elem>, start: nat)
    requires Lists(es, Counts(live)) && start <= |es|
    ensures Entries(live, es[start..])
  {
    var out := es[start..];
    forall i | 0 <= i < |out| ensures out[i].0 in live && live[out[i].0].count == out[i].1 {
      assert out[i] == es[start + i];
      assert es[start + i].0 in Counts(live);
    }
  }

  /** The array of MAX_ENTRIES PIDs is never too short for the map of a run. */
  lemma CollectsAll(tr: Trace<Step>, es: seq<(nat, nat)>)
    requires Lists(es, Counts(After(tr).live))
    ensures Collected(es, MAX_ENTRIES) == es[Ahead(es, Some(0))..]
  {
    var live := After(tr).live;
    StaysBounded(tr);
    ListingLength(es, Counts(live));
    assert Counts(live).Keys == live.Keys && |Counts(live)| == |live|;
    CollectedIsAllIff(es, MAX_ENTRIES);
  }

  /**
    One poll of read_stat over the map of any run, in any order, with no handler step in between: the
    array of MAX_ENTRIES PIDs holds every PID ahead of key 0, each is printed with its count and
    deleted, nothing is lost, and the map is emptied if and only if it does not hold PID 0.
   */
  lemma PollDrains(tr: Trace<Step>, es: seq<(nat, nat)>, who: iset<nat>)
    requires After(tr).poller.Scanning? && Lists(es, Counts(After(tr).live))
    ensures (var out := Collected(es, MAX_ENTRIES);
      && out == es[Ahead(es, Some(0))..]
      && Drained(After(tr), After(DrainAll(tr, out)), out)
      && (Safe(DrainAll(tr, out), who) <==> Safe(tr, who))
      && (After(DrainAll(tr, out)).live == map[] <==> 0 !in After(tr).live))
  {
    CollectsAll(tr, es);
    TailIsEntries(es, After(tr).live, Ahead(es, Some(0)));
    DrainAllPrints(tr, Collected(es, MAX_ENTRIES));
    DrainAllIsSafe(tr, Collected(es, MAX_ENTRIES), who);
    DrainedIff(es, After(tr).live);
  }

  lemma ZeroStays(es: seq<(nat, nat)>)
    requires DistinctKeys(es) && Find(es, 0) < |es|
    ensures 0 !in KeySet(es[Ahead(es, Some(0))..])
  {
    ZeroIsNotAhead(es);
  }

  lemma EveryKeyGoes(es: seq<(nat, nat)>, live: map<nat, Elem>)
    requires Lists(es, Counts(live))
    ensures live.Keys <= KeySet(es)
  {
    forall p | p in live ensures p in KeySet(es) {
      assert p in Counts(live);
      var i :| 0 <= i < |es| && es[i].0 == p;
    }
  }

  lemma DrainedIff(es: seq<(nat, nat)>, live: map<nat, Elem>)
    requires Lists(es, Counts(live))
    ensures live - KeySet(es[Ahead(es, Some(0))..]) == map[] <==> 0 !in live
  {
    if 0 in live {
      assert 0 in Counts(live);
      ZeroStays(es);
      assert 0 in live - KeySet(es[Ahead(es, Some(0))..]);
    } else {
      WalkFromZero(es, Counts(live));
      EveryKeyGoes(es, live);
      assert es[0..] == es;
    }
  }

  /** A map that holds only PID 0 is never drained: the walk from key 0 collects nothing. */
  lemma PidZeroIsNotDrained() returns (tr: Trace<Step>, es: seq<(nat, nat)>)
    ensures |After(tr).events| == 1 && After(tr).handlers == map[]
    ensures Lists(es, Counts(After(tr).live)) && es == [(0, 1)] && Collected(es, MAX_ENTRIES) == []
  {
    var looked := Then(Start, Lookup(0, 0));
    tr, es := Then(looked, Finish(0)), [(0, 1)];
    assert After(looked) == State(map[], map[0 := Missing(0)], Scanning, 0, [], [0]);
    assert After(tr) == State(map[0 := Elem(0, 1)], map[], Scanning, 1, [], [0]);
    assert Counts(After(tr).live) == map[0 := 1] && es[0].0 == 0;
  }

  /** Two handlers that both miss the same PID lose an event: the second insert replaces the first. */
  lemma RaceLosesAnEvent()
    ensures exists tr: Trace<Step> ::
              && After(tr).handlers == map[] && After(tr).poller.Scanning?
              && |After(tr).events| == 2 && After(tr).live == map[7 := Elem(1, 1)] && After(tr).printed == []
  {
    var t1 := Then(Start, Lookup(0, 7));
    var t2 := Then(t1, Lookup(1, 7));
    var t3 := Then(t2, Finish(0));
    var t4 := Then(t3, Finish(1));
    assert After(t1) == State(map[], map[0 := Missing(7)], Scanning, 0, [], [7]);
    assert After(t2) == State(map[], map[0 := Missing(7), 1 := Missing(7)], Scanning, 0, [], [7, 7]);
    assert After(t3) == State(map[7 := Elem(0, 1)], map[1 := Missing(7)], Scanning, 1, [], [7, 7]);
    assert After(t4) == State(map[7 := Elem(1, 1)], map[], Scanning, 2, [], [7, 7]);
  }

  // ---- The handler as one atomic event ----

  class ReadStatProbe {
    var fileReadCounter: map<nat, u64>

    constructor ()
      ensures fileReadCounter == map[]
    {
      fileReadCounter := map[];
    }

    method HandleEnterRead(pid: nat)
      modifies this
      ensures fileReadCounter == Bump(old(fileReadCounter), MAX_ENTRIES, pid, 1)
    {
      if pid in fileReadCounter {
        fileReadCounter := fileReadCounter[pid := AddU64(fileReadCounter[pid], 1)];
      } else {
        fileReadCounter := Put(fileReadCounter, MAX_ENTRIES, pid, 1);
      }
    }
  }

  ghost predicate Small(live: map<nat, Elem>) {
    forall p | p in live :: live[p].count + 1 < U64
  }

  function Counts(live: map<nat, Elem>): map<nat, nat> {
    map p | p in live :: live[p].count
  }

  /** The two steps of a handler, run without interruption, are one atomic handler. */
  lemma UninterruptedIsAtomic(s: State, h: nat, pid: nat, counter: map<nat, u64>)
    requires h !in s.handlers && Small(s.live) && counter == Counts(s.live)
    ensures (var s' := Next(Next(s, Lookup(h, pid)), Finish(h));
             Counts(s'.live) == Bump(counter, MAX_ENTRIES, pid, 1) && s'.handlers == s.handlers)
  {
    assert counter.Keys == s.live.Keys && |counter| == |s.live|;
    var s1 := Next(s, Lookup(h, pid));
    assert s1.live == s.live && s1.handlers - {h} == s.handlers;
    var s' := Next(s1, Finish(h));
    assert s'.live == if pid in s.live then s.live[pid := Elem(s.live[pid].id, s.live[pid].count + 1)]
                      else Put(s.live, MAX_ENTRIES, pid, Elem(s.nextId, 1));
  }

  /** The counter map under whole handlers and whole prints-and-deletes. */
  function Atomic(ops: Trace<Op>): map<nat, u64> {
    match ops
    case Start => map[]
    case Then(before, ReadCall(pid)) => Bump(Atomic(before), MAX_ENTRIES, pid, 1)
    case Then(before, DrainPid(pid)) => Atomic(before) - {pid}
  }

  function Calls(ops: Trace<Op>): nat {
    match ops
    case Start => 0
    case Then(before, op) => Calls(before) + if op.ReadCall? then 1 else 0
  }

  lemma {:induction false} CallsAreEvents(ops: Trace<Op>)
    ensures |After(Serial(ops)).events| <= Calls(ops)
  {
    match ops {
      case Start =>
      case Then(before, op) => CallsAreEvents(before);
    }
  }

  lemma SerialIsSmall(ops: Trace<Op>)
    requires Calls(ops) + 1 < U64
    ensures Small(After(Serial(ops)).live)
  {
    forall p | p in After(Serial(ops)).live ensures After(Serial(ops)).live[p].count + 1 < U64 {
      CountsAreBounded(Serial(ops), p);
      CallsAreEvents(ops);
    }
  }

  /** A run without interference is a run of atomic handlers. */
  lemma {:induction false} SerialIsAtomic(ops: Trace<Op>)
    requires Calls(ops) < U64
    ensures Counts(After(Serial(ops)).live) == Atomic(ops)
  {
    match ops {
      case Start =>
      case Then(before, ReadCall(pid)) =>
        SerialIsAtomic(before);
        SerialIsQuiescent(before);
        SerialIsSmall(before);
        UninterruptedIsAtomic(After(Serial(before)), 0, pid, Atomic(before));
      case Then(before, DrainPid(pid)) =>
        SerialIsAtomic(before);
        SerialIsQuiescent(before);
        DrainPidSteps(Serial(before), pid, iset{});
        assert Counts(After(Serial(before)).live - {pid}) == Counts(After(Serial(before)).live) - {pid};
    }
  }
}
