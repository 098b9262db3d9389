/**
  irq_stat from execve event to dashboard number: the poller prints its report as JSON objects, one
  per line, and the client reads them back and sums them per name.
 */
module IrqDashboard {
  import opened Bpf
  import opened Walks
  import opened Books
  import opened LinePattern
  import opened Metrics
  import opened Dashboard
  import I = IrqStat
  import L = OutputLog

  /** The name under which all merged counts are printed. */
  const OTHERS := "others"

  function NameOf(l: I.Line): string {
    match l.0
    case Some(name) => name
    case None => OTHERS
  }

  /** The printed lines of a report. */
  function Lines(report: seq<I.Line>): seq<LogLine> {
    seq(|report|, i requires 0 <= i < |report| => Object(NameOf(report[i]), report[i].1))
  }

  /** Everything printed in a run. */
  function Log(tr: Trace<I.Event>): seq<LogLine> {
    match tr
    case Start => []
    case Then(before, Execve(_)) => Log(before)
    case Then(before, Poll(_, ranked)) => Log(before) + Lines(I.Report(ranked))
  }

  /** The decoder reads back a line of each of these names, with any count. */
  ghost predicate ReadsBack(json: Json, names: set<string>) {
    forall name: string, count: nat | name in names :: Printable(json, Object(name, count))
  }

  // ---- The history of a name ----

  /** The execve events of a name. */
  function ExecvesOf(tr: Trace<I.Event>, k: string): nat {
    match tr
    case Start => 0
    case Then(before, e) => ExecvesOf(before, k) + if e == I.Execve(k) then 1 else 0
  }

  /** Those since the last poll. */
  function Since(tr: Trace<I.Event>, k: string): nat {
    match tr
    case Start => 0
    case Then(before, Poll(_, _)) => 0
    case Then(before, Execve(comm)) => Since(before, k) + if comm == k then 1 else 0
  }

  /** No poll ranked the name behind the fifth place. */
  predicate NeverMerged(tr: Trace<I.Event>, k: string) {
    tr.Then? ==>
      && NeverMerged(tr.before, k)
      && (tr.event.Poll? ==> Find(tr.event.ranked, k) < 5 || Find(tr.event.ranked, k) == |tr.event.ranked|)
  }

  /** What the polls showed of a name, and what they merged into the line of the others. */
  function ShownCount(ranked: seq<I.Entry>, k: string): nat {
    var i := Find(ranked, k);
    if i < 5 && i < |ranked| then ranked[i].1 else 0
  }

  function ShownOf(tr: Trace<I.Event>, k: string): nat {
    match tr
    case Start => 0
    case Then(before, Execve(_)) => ShownOf(before, k)
    case Then(before, Poll(_, ranked)) => ShownOf(before, k) + ShownCount(ranked, k)
  }

  function MergedCount(ranked: seq<I.Entry>, k: string): nat {
    var i := Find(ranked, k);
    if 5 <= i < |ranked| then ranked[i].1 else 0
  }

  function MergedOf(tr: Trace<I.Event>, k: string): nat {
    match tr
    case Start => 0
    case Then(before, Execve(_)) => MergedOf(before, k)
    case Then(before, Poll(_, ranked)) => MergedOf(before, k) + MergedCount(ranked, k)
  }

  /** Everything that the polls merged. */
  function AllMerged(tr: Trace<I.Event>): nat {
    match tr
    case Start => 0
    case Then(before, Execve(_)) => AllMerged(before)
    case Then(before, Poll(_, ranked)) => AllMerged(before) + EntrySum(I.Merged(ranked))
  }

  // ---- A ranked listing is a listing ----

  lemma TwiceInSequence<T>(s: seq<T>, i: nat, j: nat)
    requires i < j < |s| && s[i] == s[j]
    ensures multiset(s)[s[i]] >= 2
  {
    var x := s[i];
    assert s == (s[..i] + [x] + s[i + 1..j]) + [x] + s[j + 1..];
    assert multiset(s) == multiset(s[..i] + [x] + s[i + 1..j]) + multiset{x} + multiset(s[j + 1..]);
  }

  lemma OnceInListing(es: seq<I.Entry>, x: I.Entry)
    requires DistinctKeys(es)
    ensures multiset(es)[x] <= 1
  {
    if x in es {
      var i :| 0 <= i < |es| && es[i] == x;
      assert es == es[..i] + [x] + es[i + 1..];
      assert x !in es[..i] && x !in es[i + 1..];
    }
  }

  lemma RankedLists(listing: seq<I.Entry>, ranked: seq<I.Entry>, m: map<string, u64>)
    requires Lists(listing, m) && multiset(ranked) == multiset(listing)
    ensures Lists(ranked, m)
  {
    forall i | 0 <= i < |ranked| ensures ranked[i].0 in m && m[ranked[i].0] == ranked[i].1 {
      assert ranked[i] in multiset(listing);
      var j :| 0 <= j < |listing| && listing[j] == ranked[i];
    }
    forall k | k in m ensures exists i :: 0 <= i < |ranked| && ranked[i].0 == k {
      var j :| 0 <= j < |listing| && listing[j].0 == k;
      assert listing[j] in multiset(ranked);
      var i :| 0 <= i < |ranked| && ranked[i] == listing[j];
    }
    forall i, j | 0 <= i < j < |ranked| ensures ranked[i].0 != ranked[j].0 {
      if ranked[i].0 == ranked[j].0 {
        TwiceInSequence(ranked, i, j);
        OnceInListing(listing, ranked[i]);
      }
    }
  }

  /** A listed name is found once, shown or merged. */
  lemma FoundIsValue(ranked: seq<I.Entry>, m: map<string, u64>, k: string)
    requires Lists(ranked, m)
    ensures Find(ranked, k) < |ranked| <==> k in m
    ensures ShownCount(ranked, k) + MergedCount(ranked, k) == Value(m, k)
  {
    if k in m {
      var i :| 0 <= i < |ranked| && ranked[i].0 == k;
    }
  }

  // ---- The account of each name ----

  lemma {:induction false} SinceIsBounded(tr: Trace<I.Event>, k: string)
    ensures Since(tr, k) <= ExecvesOf(tr, k) <= I.Execves(tr)
  {
    match tr {
      case Start =>
      case Then(before, e) => SinceIsBounded(before, k);
    }
  }

  /** With at most 512 names, the map holds the events of each name since the last poll. */
  lemma {:induction false} LiveIsSince(tr: Trace<I.Event>, k: string)
    requires I.Execves(tr) < U64 && |I.Comms(tr)| <= 512
    ensures Value(I.Run(tr).live, k) == Since(tr, k)
    ensures k in I.Run(tr).live <==> Since(tr, k) > 0
  {
    match tr {
      case Start =>
      case Then(before, e) =>
        SubsetSize(I.Comms(before), I.Comms(tr));
        LiveIsSince(before, k);
        SinceIsBounded(tr, k);
        if e.Execve? {
          I.FewNamesDropNothing(before);
          PutFits(I.Run(before).live, I.MAX_ENTRIES, e.comm, 0, I.Comms(tr));
        }
    }
  }

  /** Every execve of a name has been shown, merged, or came after the last poll. */
  lemma {:induction false} NameAccount(tr: Trace<I.Event>, k: string)
    requires I.Feasible(tr) && I.Execves(tr) < U64 && |I.Comms(tr)| <= 512
    ensures ShownOf(tr, k) + MergedOf(tr, k) + Since(tr, k) == ExecvesOf(tr, k)
    ensures MergedOf(tr, k) == 0 <==> NeverMerged(tr, k)
  {
    match tr {
      case Start =>
      case Then(before, e) =>
        SubsetSize(I.Comms(before), I.Comms(tr));
        NameAccount(before, k);
        if e.Poll? {
          LiveIsSince(before, k);
          RankedLists(e.listing, e.ranked, I.Run(before).live);
          FoundIsValue(e.ranked, I.Run(before).live, k);
        }
    }
  }

  // ---- What the client reads back ----

  lemma {:induction false} ObjectsPointwise(log: seq<LogLine>)
    requires forall i | 0 <= i < |log| :: log[i].Object?
    ensures |MetricsOf(log)| == |log|
    ensures forall i | 0 <= i < |log| :: MetricsOf(log)[i] == (log[i].name, log[i].count as real)
  {
    if log != [] {
      ObjectsPointwise(log[..|log| - 1]);
    }
  }

  /** The named lines give each shown name its count. */
  lemma NamedGive(es: seq<I.Entry>, k: string)
    requires DistinctKeys(es)
    ensures (var items, i := MetricsOf(Lines(I.Named(es))), Find(es, k);
      SumFor(items, k) == (if i < |es| then es[i].1 as real else 0.0))
  {
    var items, i := MetricsOf(Lines(I.Named(es))), Find(es, k);
    ObjectsPointwise(Lines(I.Named(es)));
    assert forall j | 0 <= j < |es| :: items[j] == (es[j].0, es[j].1 as real);
    if i < |es| {
      SumDistinct(items, i);
    } else {
      SumAbsent(items, k);
    }
  }

  lemma LinesConcat(a: seq<I.Line>, b: seq<I.Line>)
    ensures Lines(a + b) == Lines(a) + Lines(b)
  {
  }

  /** The line of the others, when it is printed. */
  lemma OthersGive(others: u64, k: string)
    ensures (var rest: seq<I.Line> := if others > 0 then [(None, others)] else [];
      SumFor(MetricsOf(Lines(rest)), k) == (if k == OTHERS then others as real else 0.0))
  {
    var rest: seq<I.Line> := if others > 0 then [(None, others)] else [];
    ObjectsPointwise(Lines(rest));
    if others > 0 {
      assert MetricsOf(Lines(rest)) == [(OTHERS, others as real)];
      assert [(OTHERS, others as real)][..0] == [];
    }
  }

  /** One report gives a name its shown count, and the others what was merged. */
  lemma ReportGives(ranked: seq<I.Entry>, k: string)
    requires DistinctKeys(ranked) && EntrySum(I.Merged(ranked)) < U64
    ensures SumFor(MetricsOf(Lines(I.Report(ranked))), k)
            == (ShownCount(ranked, k) + if k == OTHERS then EntrySum(I.Merged(ranked)) else 0) as real
  {
    var shown, others := I.Shown(ranked), Wrap(EntrySum(I.Merged(ranked)));
    var rest: seq<I.Line> := if others > 0 then [(None, others)] else [];
    LinesConcat(I.Named(shown), rest);
    LogConcat(Lines(I.Named(shown)), Lines(rest));
    Metrics.SumConcat(MetricsOf(Lines(I.Named(shown))), MetricsOf(Lines(rest)), k);
    NamedGive(shown, k);
    OthersGive(others, k);
    FindShown(ranked, k);
  }

  lemma FindShown(ranked: seq<I.Entry>, k: string)
    ensures (var shown, i, j := I.Shown(ranked), Find(I.Shown(ranked), k), Find(ranked, k);
      ShownCount(ranked, k) == (if i < |shown| then shown[i].1 else 0))
  {
    var shown, i, j := I.Shown(ranked), Find(I.Shown(ranked), k), Find(ranked, k);
    assert forall n | 0 <= n < |shown| :: shown[n] == ranked[n];
  }

  /** What a poll merges is part of the map, so it fits a u64. */
  lemma MergedFits(before: Trace<I.Event>, e: I.Event)
    requires e.Poll? && I.Feasible(Then(before, e)) && I.Execves(before) < U64
    ensures DistinctKeys(e.ranked) && EntrySum(I.Merged(e.ranked)) < U64
  {
    var live := I.Run(before).live;
    RankedLists(e.listing, e.ranked, live);
    ListingTotal(e.ranked, live);
    I.EveryExecveIsAccounted(before);
    MergedAtMostAll(e.ranked);
  }

  lemma MergedAtMostAll(es: seq<I.Entry>)
    ensures EntrySum(I.Merged(es)) <= EntrySum(es)
  {
    assert es == I.Shown(es) + I.Merged(es);
    EntrySumConcat(I.Shown(es), I.Merged(es));
  }

  /** The whole log, name by name. */
  lemma {:induction false} LogGives(tr: Trace<I.Event>, k: string)
    requires I.Feasible(tr) && I.Execves(tr) < U64
    ensures SumFor(MetricsOf(Log(tr)), k) == (ShownOf(tr, k) + if k == OTHERS then AllMerged(tr) else 0) as real
  {
    match tr {
      case Start =>
      case Then(before, Execve(_)) => LogGives(before, k);
      case Then(before, Poll(_, ranked)) =>
        LogGives(before, k);
        MergedFits(before, tr.event);
        ReportGives(ranked, k);
        LogConcat(Log(before), Lines(I.Report(ranked)));
        Metrics.SumConcat(MetricsOf(Log(before)), MetricsOf(Lines(I.Report(ranked))), k);
    }
  }

  // ---- The log is readable, and within the client's limits ----

  lemma {:induction false} LogNames(tr: Trace<I.Event>)
    requires I.Feasible(tr)
    ensures forall i | 0 <= i < |Log(tr)| ::
              Log(tr)[i].Object? && Log(tr)[i].name in I.Comms(tr) + {OTHERS} && Log(tr)[i].count < U64
  {
    match tr {
      case Start =>
      case Then(before, Execve(_)) => LogNames(before);
      case Then(before, Poll(listing, ranked)) =>
        LogNames(before);
        I.FewNamesDropNothing(before);
        RankedLists(listing, ranked, I.Run(before).live);
        ReportNames(ranked, I.Comms(tr));
    }
  }

  lemma ReportNames(ranked: seq<I.Entry>, names: set<string>)
    requires forall i | 0 <= i < |ranked| :: ranked[i].0 in names
    ensures forall i | 0 <= i < |I.Report(ranked)| :: NameOf(I.Report(ranked)[i]) in names + {OTHERS}
  {
    var report := I.Report(ranked);
    forall i | 0 <= i < |report| ensures NameOf(report[i]) in names + {OTHERS} {
      if i < |I.Shown(ranked)| {
        assert report[i] == (Some(ranked[i].0), ranked[i].1);
      }
    }
  }

  function Polls(tr: Trace<I.Event>): nat {
    match tr
    case Start => 0
    case Then(before, e) => Polls(before) + if e.Poll? then 1 else 0
  }

  /** A poll prints at most six lines. */
  lemma {:induction false} LogLength(tr: Trace<I.Event>)
    requires I.Feasible(tr)
    ensures |Log(tr)| <= 6 * Polls(tr)
  {
    match tr {
      case Start =>
      case Then(before, e) =>
        LogLength(before);
        if e.Poll? {
          I.TopFive(e.ranked);
        }
    }
  }

  /** A process name has at most 15 characters. */
  ghost predicate ShortNames(names: set<string>) {
    forall name | name in names :: |name| <= 15
  }

  lemma LogIsNarrow(tr: Trace<I.Event>)
    requires I.Feasible(tr) && ShortNames(I.Comms(tr))
    ensures Narrow(Log(tr))
  {
    LogNames(tr);
    forall j | 0 <= j < |Log(tr)| ensures |LineText(Log(tr)[j])| < MAX_WIDTH {
      CounterLength(Log(tr)[j].count);
      assert |Log(tr)[j].name| <= 15;
    }
  }

  /** The output of at most 2500 polls reaches the parser as it was printed. */
  lemma ParserSeesAll(json: Json, tr: Trace<I.Event>, k: string)
    requires I.Feasible(tr) && ShortNames(I.Comms(tr)) && Polls(tr) <= MAX_POLLS
    requires ReadsBack(json, I.Comms(tr) + {OTHERS})
    ensures (var out := Dashboard.Shown(json, RawLines(Log(tr)));
      && (k in out <==> Mentions(MetricsOf(Log(tr)), k))
      && Get(out, k) == SumFor(MetricsOf(Log(tr)), k))
  {
    LogLength(tr);
    LogIsNarrow(tr);
    NarrowBytes(Log(tr));
    ParserSeesAllIff(Log(tr));
    LogNames(tr);
    forall i | 0 <= i < |Log(tr)| ensures Printable(json, Log(tr)[i]) {
      assert Printable(json, Object(Log(tr)[i].name, Log(tr)[i].count));
    }
    LogRoundTrip(json, Log(tr), k);
  }

  /**
    From execve to dashboard, for every run with at most 512 names and 2500 polls, whatever the order
    of walks and ties: the client shows of a name exactly what the polls showed of it, which is every
    execve of that name up to the last poll if and only if no poll ranked the name behind the fifth
    place. The key "others" also collects everything merged, next to a process of that name.
   */
  lemma NamesEndToEnd(json: Json, tr: Trace<I.Event>, k: string)
    requires I.Feasible(tr) && I.Execves(tr) < U64 && |I.Comms(tr)| <= 512
    requires ShortNames(I.Comms(tr)) && Polls(tr) <= MAX_POLLS && ReadsBack(json, I.Comms(tr) + {OTHERS})
    ensures (var shown := Get(Dashboard.Shown(json, RawLines(Log(tr))), k);
      && (k == "others" ==> shown == (ShownOf(tr, k) + AllMerged(tr)) as real)
      && (k != "others" ==>
            && 0.0 <= shown <= (ExecvesOf(tr, k) - Since(tr, k)) as real
            && (shown == (ExecvesOf(tr, k) - Since(tr, k)) as real <==> NeverMerged(tr, k))))
  {
    ParserSeesAll(json, tr, k);
    LogGives(tr, k);
    NameAccount(tr, k);
  }

  // ---- The sum over all names ----

  ghost function PickKey(m: map<string, real>): (k: string)
    requires m != map[]
    ensures k in m
  {
    var k :| k in m;
    k
  }

  /** `sum(metrics.values())` */
  ghost function SumOfValues(m: map<string, real>): real
    decreases |m|
  {
    if m == map[] then 0.0 else
      var k := PickKey(m);
      m[k] + SumOfValues(m - {k})
  }

  lemma {:induction false} SumRemove(m: map<string, real>, k: string)
    requires k in m
    ensures SumOfValues(m) == m[k] + SumOfValues(m - {k})
    decreases |m|
  {
    var j := PickKey(m);
    if j != k {
      SumRemove(m - {j}, k);
      SumRemove(m - {k}, j);
      assert m - {j} - {k} == m - {k} - {j};
    }
  }

  lemma SumAfterAdd(out: map<string, real>, item: (string, real))
    ensures SumOfValues(Add(out, item)) == SumOfValues(out) + item.1
  {
    var out' := Add(out, item);
    SumRemove(out', item.0);
    assert out' - {item.0} == out - {item.0};
    if item.0 in out {
      SumRemove(out, item.0);
    } else {
      assert out - {item.0} == out;
    }
  }

  function SumOfItems(items: seq<(string, real)>): real {
    if items == [] then 0.0 else SumOfItems(items[..|items| - 1]) + items[|items| - 1].1
  }

  lemma {:induction false} ValuesAddUp(items: seq<(string, real)>)
    ensures SumOfValues(Accumulate(map[], items)) == SumOfItems(items)
  {
    if items != [] {
      var n := |items| - 1;
      ValuesAddUp(items[..n]);
      SumAfterAdd(Accumulate(map[], items[..n]), items[n]);
    }
  }

  lemma {:induction false} ItemsConcatSum(a: seq<(string, real)>, b: seq<(string, real)>)
    ensures SumOfItems(a + b) == SumOfItems(a) + SumOfItems(b)
    decreases |b|
  {
    if b == [] {
      assert a + b == a;
    } else {
      var n := |b| - 1;
      ItemsConcatSum(a, b[..n]);
      assert (a + b)[..|a + b| - 1] == a + b[..n];
    }
  }

  lemma {:induction false} ReportSum(report: seq<I.Line>)
    ensures SumOfItems(MetricsOf(Lines(report))) == EntrySum(report) as real
  {
    if report != [] {
      var n := |report| - 1;
      ReportSum(report[..n]);
      assert Lines(report)[..n] == Lines(report[..n]);
    }
  }

  lemma {:induction false} LogSum(tr: Trace<I.Event>)
    ensures SumOfItems(MetricsOf(Log(tr))) == I.Run(tr).printed as real
  {
    match tr {
      case Start =>
      case Then(before, Execve(_)) => LogSum(before);
      case Then(before, Poll(_, ranked)) =>
        LogSum(before);
        ReportSum(I.Report(ranked));
        LogConcat(Log(before), Lines(I.Report(ranked)));
        ItemsConcatSum(MetricsOf(Log(before)), MetricsOf(Lines(I.Report(ranked))));
    }
  }

  /** And the sum that the client reports over all names is, after a poll, the number of execve events. */
  lemma TotalEndToEnd(json: Json, tr: Trace<I.Event>)
    requires I.Feasible(tr) && I.Execves(tr) < U64 && |I.Comms(tr)| <= 512 && tr.Then? && tr.event.Poll?
    requires ShortNames(I.Comms(tr)) && Polls(tr) <= MAX_POLLS && ReadsBack(json, I.Comms(tr) + {OTHERS})
    ensures SumOfValues(Dashboard.Shown(json, RawLines(Log(tr)))) == I.Execves(tr) as real
  {
    var out, items := Dashboard.Shown(json, RawLines(Log(tr))), MetricsOf(Log(tr));
    forall k ensures k in out <==> Mentions(items, k)
             ensures Get(out, k) == SumFor(items, k) {
      ParserSeesAll(json, tr, k);
    }
    SumsAreAccumulated(out, items);
    ValuesAddUp(items);
    LogSum(tr);
    I.PrintedIsEveryExecve(tr);
  }

  lemma SumsAreAccumulated(out: map<string, real>, items: seq<(string, real)>)
    requires forall k :: (k in out <==> Mentions(items, k)) && Get(out, k) == SumFor(items, k)
    ensures out == Accumulate(map[], items)
  {
    var all := Accumulate(map[], items);
    forall k ensures (k in out <==> k in all) && Get(out, k) == Get(all, k) {
      AccumulateIsSum(map[], items, k);
    }
    assert out.Keys == all.Keys;
    forall k | k in out ensures out[k] == all[k] {
      assert Get(out, k) == Get(all, k);
    }
  }
}
