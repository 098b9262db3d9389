/**
  tracecon: correlates getaddrinfo with tcp_v4_connect, so that a connection is reported by the
  name that was resolved to its address. Each probe is atomic; user memory and kernel reads (the
  host name, the resolved address, the socket's address) are inputs of the event.
 */
module Tracecon {
  import opened Bpf

  const MAX_ENTRIES: nat := 10240

  datatype Event =
    | ResolveEnter(tgid: nat, thread: nat, host: string)
    | ResolveExit(tgid: nat, thread: nat, ret: int, ip: nat)
    | ConnectEnter(tgid: nat, thread: nat, sock: nat)
    | ConnectExit(tgid: nat, thread: nat, ret: int, ip: nat)

  datatype Report = Ip(ip: nat) | Hostname(host: string)

  /** The maps, and the reports sent so far, each next to the address of its connection. */
  datatype Probe = Probe(
    lookups: map<nat, string>,
    hostnames: map<nat, string>,
    sockets: map<nat, nat>,
    out: seq<(nat, Report)>)

  /** `get_tid`: zero for a thread that is not traced. A zero `target` traces every process. */
  function GetTid(target: nat, tgid: nat, thread: nat): nat {
    if target != 0 && target != tgid then 0 else thread
  }

  class TraceconProbe {
    const target: nat
    var lookups: map<nat, string>
    var hostnames: map<nat, string>
    var sockets: map<nat, nat>
    var out: seq<(nat, Report)>

    function State(): Probe
      reads this
    {
      Probe(lookups, hostnames, sockets, out)
    }

    constructor (target: nat)
      ensures this.target == target && State() == LOADED
    {
      this.target := target;
      lookups, hostnames, sockets, out := map[], map[], map[], [];
    }

    method GetaddrinfoEnter(tgid: nat, thread: nat, host: string)
      modifies this
      ensures State() == Step(target, old(State()), ResolveEnter(tgid, thread, host))
    {
      var tid := GetTid(target, tgid, thread);
      if tid == 0 {
        return;
      }
      lookups := Put(lookups, MAX_ENTRIES, tid, host);
    }

    method GetaddrinfoExit(tgid: nat, thread: nat, ret: int, ip: nat)
      modifies this
      ensures State() == Step(target, old(State()), ResolveExit(tgid, thread, ret, ip))
    {
      var tid := GetTid(target, tgid, thread);
      if tid == 0 {
        return;
      }
      if ret == 0 {
        if tid !in lookups {
          return;
        }
        hostnames := Put(hostnames, MAX_ENTRIES, ip, lookups[tid]);
      }
      lookups := lookups - {tid};
    }

    method TcpV4ConnectEnter(tgid: nat, thread: nat, sock: nat)
      modifies this
      ensures State() == Step(target, old(State()), ConnectEnter(tgid, thread, sock))
    {
      var tid := GetTid(target, tgid, thread);
      if tid == 0 {
        return;
      }
      sockets := Put(sockets, MAX_ENTRIES, tid, sock);
    }

    method TcpV4ConnectExit(tgid: nat, thread: nat, ret: int, ip: nat)
      modifies this
      ensures State() == Step(target, old(State()), ConnectExit(tgid, thread, ret, ip))
    {
      var tid := GetTid(target, tgid, thread);
      if tid == 0 {
        return;
      }
      if ret == 0 {
        if tid !in sockets {
          return;
        }
        if ip !in hostnames {
          out := out + [(ip, Ip(ip))];
        } else {
          out := out + [(ip, Hostname(hostnames[ip]))];
          hostnames := hostnames - {ip};
        }
      }
      sockets := sockets - {tid};
    }
  }

  const LOADED := Probe(map[], map[], map[], [])

  function Step(target: nat, s: Probe, e: Event): Probe {
    var tid := GetTid(target, e.tgid, e.thread);
    if tid == 0 then s else
    match e
    case ResolveEnter(_, _, host) => s.(lookups := Put(s.lookups, MAX_ENTRIES, tid, host))
    case ResolveExit(_, _, ret, ip) =>
      s.(lookups := s.lookups - {tid},
         hostnames := if ret == 0 && tid in s.lookups
                      then Put(s.hostnames, MAX_ENTRIES, ip, s.lookups[tid]) else s.hostnames)
    case ConnectEnter(_, _, sock) => s.(sockets := Put(s.sockets, MAX_ENTRIES, tid, sock))
    case ConnectExit(_, _, ret, ip) =>
      var rest := s.(sockets := s.sockets - {tid});
      if ret != 0 || tid !in s.sockets then rest else
        rest.(out := s.out + [(ip, if ip in s.hostnames then Hostname(s.hostnames[ip]) else Ip(ip))],
              hostnames := s.hostnames - {ip})
  }

  function Run(target: nat, tr: Trace<Event>): Probe {
    match tr
    case Start => LOADED
    case Then(before, e) => Step(target, Run(target, before), e)
  }

  // ---- The history, defined without the maps ----

  /** An event of a thread of the target process, or of any process when there is no target; thread 0 is never traced. */
  predicate Traced(target: nat, e: Event) {
    (target == 0 || e.tgid == target) && e.thread != 0
  }

  /** The name a thread is resolving: that of its latest traced entry, unless it exited since. */
  function Resolving(target: nat, tr: Trace<Event>, thread: nat): Option<string> {
    match tr
    case Start => None
    case Then(before, e) =>
      if !Traced(target, e) || e.thread != thread then Resolving(target, before, thread)
      else if e.ResolveEnter? then Some(e.host)
      else if e.ResolveExit? then None
      else Resolving(target, before, thread)
  }

  /** The socket a thread is connecting. */
  function Connecting(target: nat, tr: Trace<Event>, thread: nat): Option<nat> {
    match tr
    case Start => None
    case Then(before, e) =>
      if !Traced(target, e) || e.thread != thread then Connecting(target, before, thread)
      else if e.ConnectEnter? then Some(e.sock)
      else if e.ConnectExit? then None
      else Connecting(target, before, thread)
  }

  /** The name that an event resolves successfully to `ip`. */
  function Resolved(target: nat, before: Trace<Event>, e: Event, ip: nat): Option<string> {
    if e.ResolveExit? && Traced(target, e) && e.ret == 0 && e.ip == ip
    then Resolving(target, before, e.thread) else None
  }

  /** The event is a successful connection to `ip`. */
  predicate Connected(target: nat, before: Trace<Event>, e: Event, ip: nat) {
    e.ConnectExit? && Traced(target, e) && e.ret == 0 && e.ip == ip && Connecting(target, before, e.thread).Some?
  }

  /** The latest name resolved to `ip` that no connection has consumed since. */
  function Pending(target: nat, tr: Trace<Event>, ip: nat): Option<string> {
    match tr
    case Start => None
    case Then(before, e) =>
      if Resolved(target, before, e, ip).Some? then Resolved(target, before, e, ip)
      else if Connected(target, before, e, ip) then None
      else Pending(target, before, ip)
  }

  /** What ought to be reported: every connection, by its pending name or by its address. */
  function Expected(target: nat, tr: Trace<Event>): seq<(nat, Report)> {
    match tr
    case Start => []
    case Then(before, e) =>
      if e.ConnectExit? && Connected(target, before, e, e.ip)
      then Expected(target, before) + [(e.ip, match Pending(target, before, e.ip)
                                              case Some(host) => Hostname(host)
                                              case None => Ip(e.ip))]
      else Expected(target, before)
  }

  // ---- In every run, even when maps are full ----

  /** `lookups` holds a thread only between its entry and its exit, with the name it entered with. */
  lemma {:induction false} LookupsAreOpen(target: nat, tr: Trace<Event>, thread: nat)
    ensures thread in Run(target, tr).lookups ==> Resolving(target, tr, thread) == Some(Run(target, tr).lookups[thread])
  {
    match tr {
      case Start =>
      case Then(before, e) => LookupsAreOpen(target, before, thread);
    }
  }

  lemma SocketAfterStep(target: nat, s: Probe, e: Event, thread: nat)
    requires thread in Step(target, s, e).sockets
    ensures var sock := Step(target, s, e).sockets[thread];
            if e.ConnectEnter? && Traced(target, e) && e.thread == thread then sock == e.sock
            else thread in s.sockets && s.sockets[thread] == sock && !(e.ConnectExit? && Traced(target, e) && e.thread == thread)
  {
  }

  /** `sockets` holds a thread only between its entry and its exit, with the socket it entered with. */
  lemma {:induction false} SocketsAreOpen(target: nat, tr: Trace<Event>, thread: nat)
    ensures thread in Run(target, tr).sockets ==> Connecting(target, tr, thread) == Some(Run(target, tr).sockets[thread])
  {
    match tr {
      case Start =>
      case Then(before, e) =>
        SocketsAreOpen(target, before, thread);
        if thread in Run(target, tr).sockets {
          SocketAfterStep(target, Run(target, before), e, thread);
        }
    }
  }

  /** Some event of the trace resolved `host` to `ip`. */
  predicate EverResolved(target: nat, tr: Trace<Event>, ip: nat, host: string) {
    match tr
    case Start => false
    case Then(before, e) =>
      EverResolved(target, before, ip, host) || Resolved(target, before, e, ip) == Some(host)
  }

  function Resolutions(target: nat, tr: Trace<Event>, ip: nat): nat {
    match tr
    case Start => 0
    case Then(before, e) =>
      Resolutions(target, before, ip) + if Resolved(target, before, e, ip).Some? then 1 else 0
  }

  function HostnameReports(out: seq<(nat, Report)>, ip: nat): nat {
    if out == [] then 0 else
      var last := out[|out| - 1];
      HostnameReports(out[..|out| - 1], ip) + if last.0 == ip && last.1.Hostname? then 1 else 0
  }

  lemma {:induction false} HostnamesWereResolved(target: nat, tr: Trace<Event>, ip: nat)
    ensures ip in Run(target, tr).hostnames ==> EverResolved(target, tr, ip, Run(target, tr).hostnames[ip])
  {
    match tr {
      case Start =>
      case Then(before, e) =>
        HostnamesWereResolved(target, before, ip);
        LookupsAreOpen(target, before, e.thread);
    }
  }

  /** A report is justified by a resolution of its name to the address of its connection. */
  predicate Justified(target: nat, tr: Trace<Event>, r: (nat, Report)) {
    match r.1
    case Ip(ip) => ip == r.0
    case Hostname(host) => EverResolved(target, tr, r.0, host)
  }

  /** Every report, in every run, is justified. */
  lemma {:induction false} ReportsAreJustified(target: nat, tr: Trace<Event>)
    ensures forall i | 0 <= i < |Run(target, tr).out| :: Justified(target, tr, Run(target, tr).out[i])
  {
    match tr {
      case Start =>
      case Then(before, e) =>
        ReportsAreJustified(target, before);
        var out, out' := Run(target, before).out, Run(target, tr).out;
        forall i | 0 <= i < |out'| ensures Justified(target, tr, out'[i]) {
          if i < |out| {
            assert Justified(target, before, out[i]);
          } else {
            HostnamesWereResolved(target, before, e.ip);
          }
        }
    }
  }

  /** The names reported for an address, and the one still pending. */
  function NamesGiven(s: Probe, ip: nat): nat {
    HostnameReports(s.out, ip) + if ip in s.hostnames then 1 else 0
  }

  lemma StepGivesNames(target: nat, s: Probe, e: Event, ip: nat)
    ensures NamesGiven(Step(target, s, e), ip)
            <= NamesGiven(s, ip)
               + if e.ResolveExit? && Traced(target, e) && e.ret == 0 && e.ip == ip && e.thread in s.lookups
                 then 1 else 0
  {
    var s' := Step(target, s, e);
    if e.ConnectExit? && s'.out != s.out {
      assert s'.out[..|s.out|] == s.out;
    }
  }

  /** Names reported for an address, and the one still pending, never outnumber its successful resolutions. */
  lemma {:induction false} ReportsNeverOutnumberResolutions(target: nat, tr: Trace<Event>, ip: nat)
    ensures NamesGiven(Run(target, tr), ip) <= Resolutions(target, tr, ip)
  {
    match tr {
      case Start =>
      case Then(before, e) =>
        ReportsNeverOutnumberResolutions(target, before, ip);
        LookupsAreOpen(target, before, e.thread);
        StepGivesNames(target, Run(target, before), e, ip);
    }
  }

  // ---- When the maps are large enough ----

  /** The threads inside getaddrinfo. */
  function ResolvingSet(target: nat, tr: Trace<Event>): set<nat> {
    match tr
    case Start => {}
    case Then(before, e) =>
      var s := ResolvingSet(target, before);
      if !Traced(target, e) then s
      else if e.ResolveEnter? then s + {e.thread}
      else if e.ResolveExit? then s - {e.thread}
      else s
  }

  /** The threads inside tcp_v4_connect. */
  function ConnectingSet(target: nat, tr: Trace<Event>): set<nat> {
    match tr
    case Start => {}
    case Then(before, e) =>
      var s := ConnectingSet(target, before);
      if !Traced(target, e) then s
      else if e.ConnectEnter? then s + {e.thread}
      else if e.ConnectExit? then s - {e.thread}
      else s
  }

  /** The addresses with a pending name. */
  function PendingSet(target: nat, tr: Trace<Event>): set<nat> {
    match tr
    case Start => {}
    case Then(before, e) =>
      var s := PendingSet(target, before);
      if e.ResolveExit? && Resolved(target, before, e, e.ip).Some? then s + {e.ip}
      else if e.ConnectExit? && Connected(target, before, e, e.ip) then s - {e.ip}
      else s
  }

  /** At no time were more threads resolving or connecting, or more names pending, than a map holds. */
  predicate Fits(target: nat, tr: Trace<Event>) {
    && |ResolvingSet(target, tr)| <= 10240
    && |ConnectingSet(target, tr)| <= 10240
    && |PendingSet(target, tr)| <= 10240
    && (tr.Then? ==> Fits(target, tr.before))
  }

  lemma {:induction false} SetsAreHistory(target: nat, tr: Trace<Event>, x: nat)
    ensures x in ResolvingSet(target, tr) <==> Resolving(target, tr, x).Some?
    ensures x in ConnectingSet(target, tr) <==> Connecting(target, tr, x).Some?
    ensures x in PendingSet(target, tr) <==> Pending(target, tr, x).Some?
  {
    match tr {
      case Start =>
      case Then(before, e) => SetsAreHistory(target, before, x);
    }
  }

  lemma {:induction false} LookupKeys(target: nat, tr: Trace<Event>)
    requires Fits(target, tr)
    ensures Run(target, tr).lookups.Keys == ResolvingSet(target, tr)
  {
    match tr {
      case Start =>
      case Then(before, e) =>
        LookupKeys(target, before);
        if e.ResolveEnter? && Traced(target, e) {
          PutFits(Run(target, before).lookups, MAX_ENTRIES, e.thread, e.host, ResolvingSet(target, tr));
        }
    }
  }

  lemma {:induction false} SocketKeys(target: nat, tr: Trace<Event>)
    requires Fits(target, tr)
    ensures Run(target, tr).sockets.Keys == ConnectingSet(target, tr)
  {
    match tr {
      case Start =>
      case Then(before, e) =>
        SocketKeys(target, before);
        if e.ConnectEnter? && Traced(target, e) {
          PutFits(Run(target, before).sockets, MAX_ENTRIES, e.thread, e.sock, ConnectingSet(target, tr));
        }
    }
  }

  lemma {:induction false} HostnameKeys(target: nat, tr: Trace<Event>)
    requires Fits(target, tr)
    ensures Run(target, tr).hostnames.Keys == PendingSet(target, tr)
  {
    match tr {
      case Start =>
      case Then(before, e) =>
        HostnameKeys(target, before);
        MapsAreHistory(target, before, e.thread);
        if e.ResolveExit? && Resolved(target, before, e, e.ip).Some? {
          var host := Run(target, before).lookups[e.thread];
          PutFits(Run(target, before).hostnames, MAX_ENTRIES, e.ip, host, PendingSet(target, tr));
        }
    }
  }

  /** With enough room, `lookups` and `sockets` hold exactly the threads between entry and exit. */
  lemma MapsAreHistory(target: nat, tr: Trace<Event>, thread: nat)
    requires Fits(target, tr)
    ensures Resolving(target, tr, thread)
            == if thread in Run(target, tr).lookups then Some(Run(target, tr).lookups[thread]) else None
    ensures Connecting(target, tr, thread)
            == if thread in Run(target, tr).sockets then Some(Run(target, tr).sockets[thread]) else None
  {
    LookupKeys(target, tr);
    SocketKeys(target, tr);
    SetsAreHistory(target, tr, thread);
    LookupsAreOpen(target, tr, thread);
    SocketsAreOpen(target, tr, thread);
  }

  /** With enough room, `hostnames[ip]` is always the latest resolved, not yet consumed name of `ip`. */
  lemma {:induction false} HostnamesAreHistory(target: nat, tr: Trace<Event>, ip: nat)
    requires Fits(target, tr)
    ensures Pending(target, tr, ip)
            == if ip in Run(target, tr).hostnames then Some(Run(target, tr).hostnames[ip]) else None
  {
    HostnameKeys(target, tr);
    SetsAreHistory(target, tr, ip);
    match tr {
      case Start =>
      case Then(before, e) =>
        HostnamesAreHistory(target, before, ip);
        MapsAreHistory(target, before, e.thread);
        var names, names' := Run(target, before).hostnames, Run(target, tr).hostnames;
        if ip in names' {
          assert names'[ip] == if Resolved(target, before, e, ip).Some?
                               then Run(target, before).lookups[e.thread] else names[ip];
        }
    }
  }

  /** With enough room, the reports are exactly those that the history calls for. */
  lemma {:induction false} ReportsAreExpected(target: nat, tr: Trace<Event>)
    requires Fits(target, tr)
    ensures Run(target, tr).out == Expected(target, tr)
  {
    match tr {
      case Start =>
      case Then(before, e) =>
        ReportsAreExpected(target, before);
        MapsAreHistory(target, before, e.thread);
        if e.ConnectExit? {
          HostnamesAreHistory(target, before, e.ip);
        }
    }
  }
}
