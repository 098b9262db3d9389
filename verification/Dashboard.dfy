/**
  The last link from kernel event to dashboard: the client parses what its bounded log kept, and
  that is the tool's whole output exactly when the limits were not exceeded.
 */
module Dashboard {
  import opened Bpf
  import opened LinePattern
  import opened Metrics
  import L = OutputLog
  import D = DiskRead

  /** The lines of a log as `readline` returns them. */
  function RawLines(log: seq<LogLine>): seq<L.Line> {
    if log == [] then [] else RawLines(log[..|log| - 1]) + [LineText(log[|log| - 1]) + "\n"]
  }

  /** `"".join(log_content)` */
  function Join(lines: seq<L.Line>): string {
    if lines == [] then "" else Join(lines[..|lines| - 1]) + lines[|lines| - 1]
  }

  lemma JoinSnoc(lines: seq<L.Line>, line: L.Line)
    ensures Join(lines + [line]) == Join(lines) + line
  {
    assert (lines + [line])[..|lines|] == lines;
  }

  lemma {:induction false} JoinRawLines(log: seq<LogLine>)
    ensures |RawLines(log)| == |log| && Join(RawLines(log)) == Render(log)
  {
    if log != [] {
      var n := |log| - 1;
      JoinRawLines(log[..n]);
      JoinSnoc(RawLines(log[..n]), LineText(log[n]) + "\n");
    }
  }

  /** A tool's output reaches the parser unchanged if and only if it is within both limits. */
  lemma ParserSeesAllIff(log: seq<LogLine>)
    ensures (var kept := L.Stream(RawLines(log)).log;
      && (|log| <= L.MAX_LINES && L.Bytes(RawLines(log)) <= L.MAX_BYTES <==> kept == RawLines(log))
      && (kept == RawLines(log) ==> Join(kept) == Render(log)))
  {
    JoinRawLines(log);
    L.MarkerIffTooLong(RawLines(log));
  }

  /** The metrics that the client shows for a run. */
  function Shown(json: Json, output: seq<L.Line>): map<string, real> {
    Parse(json, Join(L.Stream(output).log))
  }

  // ---- How much disk_read_delay writes ----

  /** The longest line with its newline, the most lines of a poll, and the polls that surely fit the limits. */
  const MAX_WIDTH: nat := 48
  const MAX_POLL_LINES: nat := 8
  const MAX_POLLS: nat := 2500
  /** `%d` of a 32-bit int. */
  const MAX_INT_WIDTH: nat := 11

  lemma {:induction false} DecLength(n: nat, k: nat)
    requires k > 0 && n < Pow10(k)
    ensures |Dec(n)| <= k
  {
    if n >= 10 {
      DecLength(n / 10, k - 1);
    }
  }

  /** `%llu` prints at most 20 digits. */
  lemma CounterLength(x: u64)
    ensures |Dec(x)| <= 20 && |Dec(x / 1000)| <= 17
  {
    assert Pow10(3) == 1000;
    assert Pow10(17) == 100_000_000_000_000_000;
    assert Pow10(20) == 100_000_000_000_000_000_000;
    DecLength(x, 20);
    DecLength(x / 1000, 17);
  }

  lemma FixedLength(x: u64, i: nat)
    ensures |Fixed(x, D.Decimals(i))| <= 21
  {
    assert Pow10(3) == 1000;
    CounterLength(x);
  }

  ghost predicate Narrow(log: seq<LogLine>) {
    forall j | 0 <= j < |log| :: |LineText(log[j])| < MAX_WIDTH
  }

  lemma ReportIsNarrow(delta: seq<u64>)
    requires |delta| == D.STATS
    ensures Narrow(D.Report(delta))
  {
    forall i | 0 <= i < D.STATS ensures |LineText(D.Report(delta)[i])| < MAX_WIDTH {
      FixedLength(delta[i], i);
      assert |D.KEYS[i]| <= 24;
    }
  }

  lemma {:induction false} ComplaintsAreNarrow(stats: map<nat, u64>, err: string, n: nat)
    requires n <= D.STATS && |err| <= MAX_INT_WIDTH
    ensures Narrow(D.Complaints(stats, err, n)) && |D.Complaints(stats, err, n)| <= n
  {
    if n > 0 {
      ComplaintsAreNarrow(stats, err, n - 1);
      DecLength(n - 1, 1);
    }
  }

  /** Every complaint ends in the decimal error code of a failed lookup. */
  predicate ShortErrors(ops: Trace<D.Op>) {
    ops.Then? ==> ShortErrors(ops.before) && (ops.event.PollNow? ==> |ops.event.err| <= MAX_INT_WIDTH)
  }

  /** A poll writes at most eight lines of at most 47 characters. */
  lemma {:induction false} LogIsSmall(ops: Trace<D.Op>)
    requires ShortErrors(ops)
    ensures |D.Log(ops)| <= MAX_POLL_LINES * D.Polls(ops) && Narrow(D.Log(ops))
  {
    match ops {
      case Start =>
      case Then(before, op) =>
        LogIsSmall(before);
        if op.PollNow? {
          var stats := D.Run(D.KernelOf(before)).stats;
          ComplaintsAreNarrow(stats, op.err, D.STATS);
          ReportIsNarrow(D.Deltas(D.Current(stats), D.LastPolled(before)));
        }
    }
  }

  lemma {:induction false} NarrowBytes(log: seq<LogLine>)
    requires Narrow(log)
    ensures L.Bytes(RawLines(log)) <= MAX_WIDTH * |log|
  {
    if log != [] {
      var n := |log| - 1;
      NarrowBytes(log[..n]);
      L.BytesSnoc(RawLines(log[..n]), LineText(log[n]) + "\n");
    }
  }

  /** So the output of at most 2500 polls is within both limits. */
  lemma FewPollsFit(ops: Trace<D.Op>)
    requires ShortErrors(ops) && D.Polls(ops) <= MAX_POLLS
    ensures |D.Log(ops)| <= L.MAX_LINES && L.Bytes(RawLines(D.Log(ops))) <= L.MAX_BYTES
  {
    LogIsSmall(ops);
    NarrowBytes(D.Log(ops));
  }

  /**
    From kernel event to dashboard: for every interleaving of disk events, on a monotone clock, with
    at most 2500 polls (a run lasts at most 300 seconds, with one poll a second), with room for every
    start and sums that fit a u64, the client shows exactly the true latencies, in microseconds, and
    numbers of operations, as the history defines them, up to the last poll.
   */
  lemma DiskReadsEndToEnd(json: Json, t0: u64, ops: Trace<D.Op>)
    requires D.Quiet(json, ops) && ShortErrors(ops) && D.Polls(ops) <= MAX_POLLS
    requires D.Monotone(t0, D.KernelOf(ops)) && D.Roomy(D.KernelOf(ops)) && D.Fits(D.KernelOf(ops))
    ensures (var out, tr := Shown(json, RawLines(D.Log(ops))), D.UpToLastPoll(ops);
      && 1000.0 * Get(out, "disk_read_vfs_total_us") == D.Nanoseconds(tr, D.Vfs) as real
      && Get(out, "disk_read_vfs_count") == D.Operations(tr, D.Vfs) as real
      && 1000.0 * Get(out, "disk_read_block_total_us") == D.Nanoseconds(tr, D.Block) as real
      && Get(out, "disk_read_block_count") == D.Operations(tr, D.Block) as real)
  {
    FewPollsFit(ops);
    ParserSeesAllIff(D.Log(ops));
    D.DashboardIsExact(json, t0, ops);
  }
}
