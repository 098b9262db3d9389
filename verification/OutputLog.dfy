/**
  The client's bounded log: while a tool runs, each line it writes is kept and forwarded as long as
  the limits on lines and bytes allow, and dropped otherwise; the first drop forwards a marker.
 */
module OutputLog {
  import opened Bpf

  const MAX_BYTES: nat := 2 * 1024 * 1024
  const MAX_LINES: nat := 20_000

  /** A line as the bytes that were read. */
  type Line = string

  datatype Message = Forward(line: Line) | Truncated

  datatype State = State(log: seq<Line>, bytes: nat, lines: nat, truncated: bool, sent: seq<Message>)

  const EMPTY := State([], 0, 0, false, [])

  function Feed(s: State, line: Line): State {
    if s.lines < MAX_LINES && s.bytes + |line| <= MAX_BYTES
    then State(s.log + [line], s.bytes + |line|, s.lines + 1, s.truncated, s.sent + [Forward(line)])
    else if s.truncated then s
    else s.(truncated := true, sent := s.sent + [Truncated])
  }

  function Stream(input: seq<Line>): State {
    if input == [] then EMPTY else Feed(Stream(input[..|input| - 1]), input[|input| - 1])
  }

  /** The read loop of `event_generator`, over the lines it reads before it stops. */
  method ReadLoop(input: seq<Line>) returns (logContent: seq<Line>, sent: seq<Message>, outputBytes: nat, outputLines: nat)
    ensures logContent == Stream(input).log && sent == Stream(input).sent
    ensures outputBytes == Stream(input).bytes && outputLines == Stream(input).lines
  {
    logContent, sent, outputBytes, outputLines := [], [], 0, 0;
    var outputTruncated := false;
    for i := 0 to |input|
      invariant State(logContent, outputBytes, outputLines, outputTruncated, sent) == Stream(input[..i])
    {
      var line := input[i];
      assert input[..i + 1][..i] == input[..i];
      if outputLines < MAX_LINES && outputBytes + |line| <= MAX_BYTES {
        logContent := logContent + [line];
        outputLines := outputLines + 1;
        outputBytes := outputBytes + |line|;
        sent := sent + [Forward(line)];
      } else if !outputTruncated {
        outputTruncated := true;
        sent := sent + [Truncated];
      }
    }
    assert input[..|input|] == input;
  }

  function Bytes(lines: seq<Line>): nat {
    if lines == [] then 0 else Bytes(lines[..|lines| - 1]) + |lines[|lines| - 1]|
  }

  /** The lines among the messages sent. */
  function Forwarded(sent: seq<Message>): seq<Line> {
    if sent == [] then [] else
      var n := |sent| - 1;
      if sent[n].Forward? then Forwarded(sent[..n]) + [sent[n].line] else Forwarded(sent[..n])
  }

  function Markers(sent: seq<Message>): nat {
    if sent == [] then 0 else
      var n := |sent| - 1;
      Markers(sent[..n]) + if sent[n].Truncated? then 1 else 0
  }

  lemma SentSnoc(sent: seq<Message>, m: Message)
    ensures Forwarded(sent + [m]) == if m.Forward? then Forwarded(sent) + [m.line] else Forwarded(sent)
    ensures Markers(sent + [m]) == Markers(sent) + if m.Truncated? then 1 else 0
  {
    assert (sent + [m])[..|sent|] == sent;
  }

  lemma BytesSnoc(lines: seq<Line>, l: Line)
    ensures Bytes(lines + [l]) == Bytes(lines) + |l|
  {
    assert (lines + [l])[..|lines|] == lines;
  }

  /** The counters count the log, within the limits, and what was sent is the log with at most one marker. */
  predicate Exact(s: State) {
    && s.lines == |s.log| <= 20_000
    && s.bytes == Bytes(s.log) <= 2_097_152
    && Sent(s)
  }

  predicate Sent(s: State) {
    && Forwarded(s.sent) == s.log
    && Markers(s.sent) == if s.truncated then 1 else 0
  }

  lemma FeedSends(s: State, line: Line)
    requires Sent(s)
    ensures Sent(Feed(s, line))
  {
    SentSnoc(s.sent, if Feed(s, line).log == s.log then Truncated else Forward(line));
  }

  lemma FeedIsExact(s: State, line: Line)
    requires Exact(s)
    ensures Exact(Feed(s, line))
  {
    FeedSends(s, line);
    BytesSnoc(s.log, line);
  }

  lemma FeedIsSubsequence(s: State, input: seq<Line>, line: Line)
    requires Subsequence(s.log, input)
    ensures Subsequence(Feed(s, line).log, input + [line])
  {
    SubsequenceSnoc(s.log, input, line);
  }

  /**
    For every stream: the log is a subsequence of it within both limits, the counters count exactly
    the log, and what was forwarded is the log with at most one marker.
   */
  lemma {:induction false} LogIsBounded(input: seq<Line>)
    ensures Subsequence(Stream(input).log, input) && Exact(Stream(input))
  {
    LogIsSubsequence(input);
    if input != [] {
      LogIsBounded(input[..|input| - 1]);
      FeedIsExact(Stream(input[..|input| - 1]), input[|input| - 1]);
    }
  }

  lemma {:induction false} LogIsSubsequence(input: seq<Line>)
    ensures Subsequence(Stream(input).log, input)
  {
    if input != [] {
      var init, line := input[..|input| - 1], input[|input| - 1];
      LogIsSubsequence(init);
      FeedIsSubsequence(Stream(init), init, line);
      assert input == init + [line];
    }
  }

  lemma {:induction false} DropsAreTruncation(input: seq<Line>)
    ensures var s := Stream(input);
            && |s.log| <= |input|
            && (s.truncated <==> |s.log| < |input|)
            && (!s.truncated ==> s.log == input)
  {
    if input != [] {
      DropsAreTruncation(input[..|input| - 1]);
    }
  }

  lemma {:induction false} WithinLimitsIsKept(input: seq<Line>)
    requires |input| <= MAX_LINES && Bytes(input) <= MAX_BYTES
    ensures !Stream(input).truncated
  {
    if input != [] {
      var init, line := input[..|input| - 1], input[|input| - 1];
      assert input == init + [line];
      BytesSnoc(init, line);
      WithinLimitsIsKept(init);
      LogIsBounded(init);
      DropsAreTruncation(init);
    }
  }

  /**
    The marker is sent exactly when some line was dropped, which is exactly when the stream exceeds
    a limit; otherwise the log is the whole stream.
   */
  lemma MarkerIffTooLong(input: seq<Line>)
    ensures Markers(Stream(input).sent) == 1 <==> |Stream(input).log| < |input|
    ensures Markers(Stream(input).sent) == 1 <==> |input| > MAX_LINES || Bytes(input) > MAX_BYTES
    ensures Markers(Stream(input).sent) != 1 ==> Stream(input).log == input
  {
    LogIsBounded(input);
    DropsAreTruncation(input);
    if |input| <= MAX_LINES && Bytes(input) <= MAX_BYTES {
      WithinLimitsIsKept(input);
    }
  }

  // ---- Which lines are kept, and what is sent ----

  /** The lines marked as kept. */
  function Select(input: seq<Line>, kept: seq<bool>): seq<Line>
    requires |input| == |kept|
  {
    if input == [] then [] else
      var n := |input| - 1;
      Select(input[..n], kept[..n]) + if kept[n] then [input[n]] else []
  }

  /** Kept lines are forwarded, and the first line that is not kept is announced, in its place. */
  function Announce(input: seq<Line>, kept: seq<bool>): seq<Message>
    requires |input| == |kept|
  {
    if input == [] then [] else
      var n := |input| - 1;
      Announce(input[..n], kept[..n]) +
      if kept[n] then [Forward(input[n])] else if false in kept[..n] then [] else [Truncated]
  }

  /** A line is marked exactly when it fits the budget that the lines kept in front of it leave. */
  ghost predicate Greedy(input: seq<Line>, kept: seq<bool>) {
    |input| == |kept| && forall i | 0 <= i < |input| :: kept[i] <==> Fits(Select(input[..i], kept[..i]), input[i])
  }

  lemma GreedyInit(input: seq<Line>, kept: seq<bool>)
    requires Greedy(input, kept) && input != []
    ensures Greedy(input[..|input| - 1], kept[..|input| - 1])
  {
    var n := |input| - 1;
    forall i | 0 <= i < n
      ensures kept[..n][i] <==> Fits(Select(input[..n][..i], kept[..n][..i]), input[..n][i])
    {
      assert input[..n][..i] == input[..i] && kept[..n][..i] == kept[..i];
    }
  }

  /** One line, in terms of the log alone. */
  lemma FeedByBudget(s: State, line: Line)
    requires Exact(s)
    ensures (var s', fits := Feed(s, line), Fits(s.log, line);
      && s'.log == s.log + (if fits then [line] else [])
      && s'.sent == s.sent + (if fits then [Forward(line)] else if s.truncated then [] else [Truncated])
      && (s'.truncated <==> s.truncated || !fits))
  {
  }

  /**
    For every stream: the log is exactly the lines that fit the budget left by the lines kept in front
    of them, and the marker stands exactly where the first line was dropped.
   */
  lemma {:induction false} LogIsGreedy(input: seq<Line>, kept: seq<bool>)
    requires Greedy(input, kept)
    ensures Stream(input).log == Select(input, kept)
    ensures Stream(input).sent == Announce(input, kept)
    ensures Stream(input).truncated <==> false in kept
  {
    if input != [] {
      var n := |input| - 1;
      GreedyInit(input, kept);
      LogIsGreedy(input[..n], kept[..n]);
      LogIsBounded(input[..n]);
      FeedByBudget(Stream(input[..n]), input[n]);
      LastMark(kept);
    }
  }

  lemma LastMark(kept: seq<bool>)
    requires kept != []
    ensures false in kept <==> false in kept[..|kept| - 1] || !kept[|kept| - 1]
  {
    assert kept == kept[..|kept| - 1] + [kept[|kept| - 1]];
  }

  lemma SelectPrefix(input: seq<Line>, kept: seq<bool>, line: Line, k: bool, i: nat)
    requires |input| == |kept| && i <= |input|
    ensures (input + [line])[..i] == input[..i] && (kept + [k])[..i] == kept[..i]
  {
  }

  /** Every stream has such a marking. */
  lemma {:induction false} GreedyExists(input: seq<Line>) returns (kept: seq<bool>)
    ensures Greedy(input, kept)
  {
    kept := [];
    if input != [] {
      var n := |input| - 1;
      var init := GreedyExists(input[..n]);
      kept := init + [Fits(Select(input[..n], init), input[n])];
      forall i | 0 <= i < |input| ensures kept[i] <==> Fits(Select(input[..i], kept[..i]), input[i]) {
        SelectPrefix(input[..n], init, input[n], kept[n], i);
        assert input[..n] + [input[n]] == input;
      }
    }
  }

  // ---- When the log is a prefix of the stream ----

  predicate WithinLimits(lines: seq<Line>) {
    |lines| <= 20_000 && Bytes(lines) <= 2_097_152
  }

  /** The length of the longest prefix within both limits: where the first line is dropped, if any is. */
  function FirstDropped(input: seq<Line>): (n: nat)
    ensures n <= |input|
  {
    if input == [] then 0 else
      var n := FirstDropped(input[..|input| - 1]);
      if n == |input| - 1 && WithinLimits(input) then |input| else n
  }

  /** A line that still fits the budget that `kept` leaves. */
  predicate Fits(kept: seq<Line>, line: Line) {
    |kept| < 20_000 && Bytes(kept) + |line| <= 2_097_152
  }

  /** Behind the first dropped line, no line fits the budget that the lines in front of it leave. */
  predicate NoneFitsLater(input: seq<Line>) {
    NoneFits(input[..FirstDropped(input)], input, FirstDropped(input) + 1)
  }

  /** No line from position `from` on fits the budget that `kept` leaves. */
  predicate NoneFits(kept: seq<Line>, lines: seq<Line>, from: nat) {
    forall j | from <= j < |lines| :: !Fits(kept, lines[j])
  }

  lemma NoneFitsSplits(kept: seq<Line>, lines: seq<Line>, last: Line, from: nat)
    requires from <= |lines|
    ensures NoneFits(kept, lines + [last], from) <==> NoneFits(kept, lines, from) && !Fits(kept, last)
  {
    var all := lines + [last];
    assert all[|lines|] == last;
    assert forall j | 0 <= j < |lines| :: all[j] == lines[j];
  }

  lemma FirstDroppedSnoc(init: seq<Line>, last: Line)
    ensures FirstDropped(init + [last])
            == if FirstDropped(init) == |init| && WithinLimits(init + [last]) then |init| + 1 else FirstDropped(init)
  {
    assert (init + [last])[..|init|] == init;
  }

  lemma TakeSnoc(init: seq<Line>, last: Line, n: nat)
    requires n <= |init|
    ensures (init + [last])[..n] == init[..n]
  {
  }

  /** The condition, line by line. */
  lemma LaterSplits(init: seq<Line>, last: Line)
    requires FirstDropped(init + [last]) <= |init|
    ensures (var n := FirstDropped(init);
      && FirstDropped(init + [last]) == n && (init + [last])[..n] == init[..n]
      && (NoneFitsLater(init + [last]) <==> NoneFitsLater(init) && (n < |init| ==> !Fits(init[..n], last))))
  {
    var n := FirstDropped(init);
    FirstDroppedSnoc(init, last);
    TakeSnoc(init, last, n);
    if n < |init| {
      NoneFitsSplits(init[..n], init, last, n + 1);
    }
  }

  lemma {:induction false} FirstDroppedIsFirst(input: seq<Line>)
    ensures WithinLimits(input[..FirstDropped(input)])
    ensures FirstDropped(input) < |input| ==> !Fits(input[..FirstDropped(input)], input[FirstDropped(input)])
  {
    if input != [] {
      var m := |input| - 1;
      var n := FirstDropped(input[..m]);
      FirstDroppedIsFirst(input[..m]);
      assert input[..m][..n] == input[..n] && input[..|input|] == input;
      if n == m {
        BytesSnoc(input[..m], input[m]);
        assert input[..m] + [input[m]] == input;
      }
    }
  }

  /** Until a later line fits, the log is exactly the prefix in front of the first dropped line. */
  lemma {:induction false} PrefixIsKept(input: seq<Line>)
    requires NoneFitsLater(input)
    ensures Stream(input).log == input[..FirstDropped(input)]
  {
    var n := FirstDropped(input);
    FirstDroppedIsFirst(input);
    if n == |input| {
      assert input[..n] == input;
      WithinLimitsIsKept(input);
      DropsAreTruncation(input);
    } else {
      var init := input[..|input| - 1];
      assert input == init + [input[|init|]];
      LaterSplits(init, input[|init|]);
      PrefixIsKept(init);
      LogIsBounded(init);
    }
  }

  /** Once a later line fits, the log differs from the stream at the first dropped line: there it has a shorter one. */
  lemma {:induction false} LaterLineIsKept(input: seq<Line>)
    requires !NoneFitsLater(input)
    ensures (var n, log := FirstDropped(input), Stream(input).log;
      n < |input| && |log| > n && log[..n] == input[..n] && |log[n]| < |input[n]|)
  {
    var m := |input| - 1;
    var init, n := input[..m], FirstDropped(input);
    assert input == init + [input[m]];
    LaterSplits(init, input[m]);
    if !NoneFitsLater(init) {
      LaterLineIsKept(init);
    } else {
      PrefixIsKept(init);
      LogIsBounded(init);
      FirstDroppedIsFirst(input);
    }
  }

  /**
    The exact condition: the log is a prefix of the stream if and only if, behind the first line that
    is dropped, no line fits the budget that is left.
   */
  lemma LogIsPrefixIff(input: seq<Line>)
    ensures Stream(input).log <= input <==> NoneFitsLater(input)
  {
    if NoneFitsLater(input) {
      PrefixIsKept(input);
    } else {
      LaterLineIsKept(input);
    }
  }

  /** A line of at most this length is returned by `readline`: the default limit of an asyncio stream. */
  const READ_LIMIT: nat := 64 * 1024

  function Repeat(line: Line, n: nat): seq<Line> {
    if n == 0 then [] else Repeat(line, n - 1) + [line]
  }

  lemma {:induction false} RepeatBytes(line: Line, n: nat)
    ensures |Repeat(line, n)| == n && Bytes(Repeat(line, n)) == n * |line|
    ensures forall i | 0 <= i < n :: Repeat(line, n)[i] == line
  {
    if n > 0 {
      RepeatBytes(line, n - 1);
      BytesSnoc(Repeat(line, n - 1), line);
      OneMoreTime(n, |line|);
    }
  }

  lemma OneMoreTime(n: nat, k: nat)
    requires n > 0
    ensures n * k == (n - 1) * k + k
  {
  }

  lemma StreamTwo(kept: seq<Line>, a: Line, b: Line)
    ensures Stream(kept + [a] + [b]) == Feed(Feed(Stream(kept), a), b)
  {
    assert (kept + [a])[..|kept|] == kept;
    assert (kept + [a] + [b])[..|kept| + 1] == kept + [a];
  }

  /** Behind any output within the limits, a line that does not fit is dropped and a shorter one that fits is kept. */
  lemma KeptBehindDropped(kept: seq<Line>, dropped: Line, short: Line)
    requires WithinLimits(kept) && !Fits(kept, dropped) && Fits(kept, short)
    ensures (var input := kept + [dropped] + [short];
      Stream(input).log == kept + [short] && !(Stream(input).log <= input))
  {
    WithinLimitsIsKept(kept);
    LogIsBounded(kept);
    DropsAreTruncation(kept);
    StreamTwo(kept, dropped, short);
    assert (kept + [short])[|kept|] == short && (kept + [dropped] + [short])[|kept|] == dropped;
  }

  /**
    The log need not be a prefix: behind 32 lines of 65535 bytes, a line of 33 bytes is dropped and the
    empty line after it is kept. All are whole lines that `readline` returns.
   */
  lemma KeptAfterDropped() returns (input: seq<Line>)
    ensures forall i | 0 <= i < |input| :: 0 < |input[i]| <= READ_LIMIT && input[i][|input[i]| - 1] == '\n'
    ensures !(Stream(input).log <= input) && !NoneFitsLater(input)
  {
    var n: nat :| n == 32;
    var long, dropped, short := seq(READ_LIMIT - 2, _ => 'x') + "\n", seq(32, _ => 'x') + "\n", "\n";
    RepeatBytes(long, n);
    KeptBehindDropped(Repeat(long, n), dropped, short);
    input := Repeat(long, n) + [dropped] + [short];
    LogIsPrefixIff(input);
  }
}
