/**
  `parse_output_metrics` of the client: tool output, line by line, into per-key sums; and the
  printers whose lines it reads back. Numbers are exact, and the JSON decoder is a parameter that
  yields the numeric items of a line that is a JSON object, and nothing otherwise.
 */
module Metrics {
  import opened Bpf
  import opened LinePattern

  const MAX_KEY: nat := 128

  /** 2^1024 - 2^970: a decimal number of at least this size becomes an infinite float. */
  const FLOAT_LIMIT: real :=
    0xFFFFFFFFFFFFFC000000000000000000_00000000000000000000000000000000_00000000000000000000000000000000_00000000000000000000000000000000_00000000000000000000000000000000_00000000000000000000000000000000_00000000000000000000000000000000_00000000000000000000000000000000 as real

  /** `math.isfinite` of the float nearest to `v`. */
  predicate Finite(v: real) {
    -FLOAT_LIMIT < v < FLOAT_LIMIT
  }

  /** The numeric items of a line that is a JSON object; none for any other line. */
  type Json = string -> seq<(string, real)>

  predicate KeyFits(item: (string, real)) {
    |item.0| <= MAX_KEY
  }

  function Filter(items: seq<(string, real)>): seq<(string, real)> {
    if items == [] then [] else
      var n := |items| - 1;
      if KeyFits(items[n]) then Filter(items[..n]) + [items[n]] else Filter(items[..n])
  }

  lemma MatchedDigits(s: string)
    ensures MatchLine(s).Some? ==> All(Digit, MatchLine(s).value.1.digits)
  {
    if MatchLine(s).Some? {
      var p := MatchedIsCut(s);
      CutIsMatched(p);
    }
  }

  /** What one line contributes. A line that matches the pattern is never tried as JSON. */
  function Contribution(json: Json, line: string): seq<(string, real)> {
    MatchedDigits(line);
    match MatchLine(line)
    case Some((key, n)) => if |key| <= MAX_KEY && Finite(ValueOf(n)) then [(key, ValueOf(n))] else []
    case None => Filter(json(line))
  }

  function Items(json: Json, lines: seq<string>): seq<(string, real)> {
    if lines == [] then [] else
      var n := |lines| - 1;
      Items(json, lines[..n]) + Contribution(json, lines[n])
  }

  function Get(out: map<string, real>, k: string): real {
    if k in out then out[k] else 0.0
  }

  function Add(out: map<string, real>, item: (string, real)): map<string, real> {
    out[item.0 := Get(out, item.0) + item.1]
  }

  function Accumulate(out: map<string, real>, items: seq<(string, real)>): map<string, real> {
    if items == [] then out else
      var n := |items| - 1;
      Add(Accumulate(out, items[..n]), items[n])
  }

  function Parse(json: Json, text: string): map<string, real> {
    Accumulate(map[], Items(json, SplitLines(text)))
  }

  /** The loop of `parse_output_metrics`. */
  method ParseOutputMetrics(json: Json, output: string) returns (out: map<string, real>)
    ensures out == Parse(json, output)
  {
    out := map[];
    var lines := SplitLines(output);
    for i := 0 to |lines|
      invariant out == Accumulate(map[], Items(json, lines[..i]))
    {
      AccumulateLine(json, lines, i);
      out := ParseLine(json, out, lines[i]);
    }
    assert lines[..|lines|] == lines;
  }

  lemma AccumulateLine(json: Json, lines: seq<string>, i: nat)
    requires i < |lines|
    ensures Accumulate(map[], Items(json, lines[..i + 1]))
            == Accumulate(Accumulate(map[], Items(json, lines[..i])), Contribution(json, lines[i]))
  {
    assert lines[..i + 1] == lines[..i] + [lines[i]];
    ItemsSnoc(json, lines[..i], lines[i]);
    AccumulateConcat(map[], Items(json, lines[..i]), Contribution(json, lines[i]));
  }

  /** The body of that loop. */
  method ParseLine(json: Json, out: map<string, real>, line: string) returns (r: map<string, real>)
    ensures r == Accumulate(out, Contribution(json, line))
  {
    MatchedDigits(line);
    r := out;
    match MatchLine(line) {
      case Some((key, n)) =>
        var val := ValueOf(n);
        if |key| <= MAX_KEY && Finite(val) {
          r := AddItem(out, (key, val));
        }
      case None =>
        r := ParseJson(out, json(line));
    }
  }

  method AddItem(out: map<string, real>, item: (string, real)) returns (r: map<string, real>)
    ensures r == Accumulate(out, [item])
  {
    r := out[item.0 := Get(out, item.0) + item.1];
    assert [item][..0] == [];
  }

  /** The inner loop, over the items of a JSON object. */
  method ParseJson(out: map<string, real>, items: seq<(string, real)>) returns (r: map<string, real>)
    ensures r == Accumulate(out, Filter(items))
  {
    r := out;
    for i := 0 to |items|
      invariant r == Accumulate(out, Filter(items[..i]))
    {
      assert items[..i + 1][..i] == items[..i];
      if |items[i].0| <= MAX_KEY {
        AccumulateConcat(out, Filter(items[..i]), [items[i]]);
        r := AddItem(r, items[i]);
      }
    }
    assert items[..|items|] == items;
  }

  // ---- The result is the per-key sums ----

  function SumFor(items: seq<(string, real)>, k: string): real {
    if items == [] then 0.0 else
      var n := |items| - 1;
      SumFor(items[..n], k) + if items[n].0 == k then items[n].1 else 0.0
  }

  predicate Mentions(items: seq<(string, real)>, k: string) {
    if items == [] then false else
      var n := |items| - 1;
      items[n].0 == k || Mentions(items[..n], k)
  }

  lemma {:induction false} AccumulateConcat(out: map<string, real>, a: seq<(string, real)>, b: seq<(string, real)>)
    ensures Accumulate(out, a + b) == Accumulate(Accumulate(out, a), b)
    decreases |b|
  {
    if b == [] {
      assert a + b == a;
    } else {
      var n := |b| - 1;
      AccumulateConcat(out, a, b[..n]);
      assert (a + b)[..|a + b| - 1] == a + b[..n];
    }
  }

  lemma {:induction false} SumConcat(a: seq<(string, real)>, b: seq<(string, real)>, k: string)
    ensures SumFor(a + b, k) == SumFor(a, k) + SumFor(b, k)
    ensures Mentions(a + b, k) <==> Mentions(a, k) || Mentions(b, k)
    decreases |b|
  {
    if b == [] {
      assert a + b == a;
    } else {
      var n := |b| - 1;
      SumConcat(a, b[..n], k);
      assert (a + b)[..|a + b| - 1] == a + b[..n];
    }
  }

  lemma {:induction false} AccumulateIsSum(out: map<string, real>, items: seq<(string, real)>, k: string)
    ensures k in Accumulate(out, items) <==> k in out || Mentions(items, k)
    ensures Get(Accumulate(out, items), k) == Get(out, k) + SumFor(items, k)
  {
    if items != [] {
      AccumulateIsSum(out, items[..|items| - 1], k);
    }
  }

  lemma ItemsSnoc(json: Json, lines: seq<string>, line: string)
    ensures Items(json, lines + [line]) == Items(json, lines) + Contribution(json, line)
  {
    assert (lines + [line])[..|lines|] == lines;
  }

  lemma {:induction false} ItemsConcat(json: Json, a: seq<string>, b: seq<string>)
    ensures Items(json, a + b) == Items(json, a) + Items(json, b)
    decreases |b|
  {
    if b == [] {
      EmptyConcat(a);
      EmptyConcat(Items(json, a));
    } else {
      var c, l := b[..|b| - 1], b[|b| - 1];
      ItemsConcat(json, a, c);
      ItemsConcatSnoc(json, a, c, l);
      CutLast(b);
    }
  }

  lemma CutLast<T>(s: seq<T>)
    requires s != []
    ensures s[..|s| - 1] + [s[|s| - 1]] == s
  {
  }

  lemma ItemsConcatSnoc(json: Json, a: seq<string>, c: seq<string>, l: string)
    requires Items(json, a + c) == Items(json, a) + Items(json, c)
    ensures Items(json, a + (c + [l])) == Items(json, a) + Items(json, c + [l])
  {
    Associative(a, c, [l]);
    ItemsSnoc(json, c, l);
    ItemsSnoc(json, a + c, l);
    Associative(Items(json, a), Items(json, c), Contribution(json, l));
  }

  lemma ParseIsItems(json: Json, text: string, k: string)
    ensures k in Parse(json, text) <==> Mentions(Items(json, SplitLines(text)), k)
    ensures Get(Parse(json, text), k) == SumFor(Items(json, SplitLines(text)), k)
  {
    AccumulateIsSum(map[], Items(json, SplitLines(text)), k);
  }

  // ---- What a line gives to a key, without the parser ----

  /**
    A line gives something to key `k`, of at most 128 characters: it is a metric of that key with a
    finite value, or no metric and a JSON object with that key among its numeric items.
   */
  predicate Gives(json: Json, line: string, k: string) {
    MatchedDigits(line);
    |k| <= 128 &&
    match MatchLine(line)
    case Some((key, n)) => key == k && Finite(ValueOf(n))
    case None => exists i :: 0 <= i < |json(line)| && json(line)[i].0 == k
  }

  /** How much: the value of the metric, or the sum of the items with that key. */
  function Gift(json: Json, line: string, k: string): real {
    MatchedDigits(line);
    if !Gives(json, line, k) then 0.0 else
    match MatchLine(line)
    case Some((_, n)) => ValueOf(n)
    case None => SumFor(json(line), k)
  }

  function Gifts(json: Json, lines: seq<string>, k: string): real {
    if lines == [] then 0.0 else Gifts(json, lines[..|lines| - 1], k) + Gift(json, lines[|lines| - 1], k)
  }

  lemma {:induction false} MentionsIsExists(items: seq<(string, real)>, k: string)
    ensures Mentions(items, k) <==> exists i :: 0 <= i < |items| && items[i].0 == k
  {
    if items != [] {
      var n := |items| - 1;
      MentionsIsExists(items[..n], k);
      assert Mentions(items[..n], k) ==> exists i :: 0 <= i < n && items[i].0 == k;
    }
  }

  lemma FilterSnoc(items: seq<(string, real)>)
    requires items != []
    ensures (var n := |items| - 1;
      Filter(items) == Filter(items[..n]) + if KeyFits(items[n]) then [items[n]] else [])
  {
  }

  /** The accepted items have exactly the short keys, each with its whole sum. */
  lemma {:induction false} FilterKeepsShortKeys(items: seq<(string, real)>, k: string)
    ensures Mentions(Filter(items), k) <==> |k| <= MAX_KEY && Mentions(items, k)
    ensures SumFor(Filter(items), k) == if |k| <= MAX_KEY then SumFor(items, k) else 0.0
  {
    if items != [] {
      var n := |items| - 1;
      FilterKeepsShortKeys(items[..n], k);
      FilterSnoc(items);
      var last := if KeyFits(items[n]) then [items[n]] else [];
      SumConcat(Filter(items[..n]), last, k);
      assert [items[n]][..0] == [];
    }
  }

  lemma {:induction false} SumUnmentioned(items: seq<(string, real)>, k: string)
    requires !Mentions(items, k)
    ensures SumFor(items, k) == 0.0
  {
    if items != [] {
      SumUnmentioned(items[..|items| - 1], k);
    }
  }

  lemma ContributionIsGift(json: Json, line: string, k: string)
    ensures Mentions(Contribution(json, line), k) <==> Gives(json, line, k)
    ensures SumFor(Contribution(json, line), k) == Gift(json, line, k)
  {
    MatchedDigits(line);
    match MatchLine(line) {
      case Some((key, n)) =>
        assert [(key, ValueOf(n))][..0] == [];
      case None =>
        MentionsIsExists(json(line), k);
        FilterKeepsShortKeys(json(line), k);
        if !Mentions(json(line), k) {
          SumUnmentioned(json(line), k);
        }
    }
  }

  /** Some line gives something to `k`. */
  ghost predicate Given(json: Json, lines: seq<string>, k: string) {
    exists i :: 0 <= i < |lines| && Gives(json, lines[i], k)
  }

  lemma GivenSnoc(json: Json, lines: seq<string>, line: string, k: string)
    ensures Given(json, lines + [line], k) <==> Given(json, lines, k) || Gives(json, line, k)
  {
    var all := lines + [line];
    if Given(json, lines, k) {
      var i :| 0 <= i < |lines| && Gives(json, lines[i], k);
      assert Gives(json, all[i], k);
    }
    if Gives(json, line, k) {
      assert Gives(json, all[|lines|], k);
    }
  }

  lemma {:induction false} ItemsAreGifts(json: Json, lines: seq<string>, k: string)
    ensures Mentions(Items(json, lines), k) <==> Given(json, lines, k)
    ensures SumFor(Items(json, lines), k) == Gifts(json, lines, k)
  {
    if lines != [] {
      var init, last := lines[..|lines| - 1], lines[|lines| - 1];
      CutLast(lines);
      ItemsAreGifts(json, init, k);
      GivenSnoc(json, init, last, k);
      ContributionIsGift(json, last, k);
      SumConcat(Items(json, init), Contribution(json, last), k);
    }
  }

  /** The parser returns exactly the keys to which some line gives something, each with the sum of what it is given. */
  lemma ParseIsSums(json: Json, text: string, k: string)
    ensures k in Parse(json, text) <==> Given(json, SplitLines(text), k)
    ensures Get(Parse(json, text), k) == Gifts(json, SplitLines(text), k)
  {
    ParseIsItems(json, text, k);
    ItemsAreGifts(json, SplitLines(text), k);
  }

  /**
    A line that is no metric parses to exactly the keys, of at most 128 characters, of its JSON items,
    each with the sum of its items.
   */
  lemma JsonLineParses(json: Json, line: string, k: string)
    requires line != [] && All(Inline, line) && MatchLine(line).None?
    ensures k in Parse(json, line) <==> |k| <= 128 && exists i :: 0 <= i < |json(line)| && json(line)[i].0 == k
    ensures k in Parse(json, line) ==> Parse(json, line)[k] == SumFor(json(line), k)
  {
    assert SplitLines(line) == [line];
    OneLine(json, line);
    ParseIsItems(json, line, k);
    ContributionIsGift(json, line, k);
  }

  /** Parsing a block of whole lines followed by any text is the pointwise sum of the two parses. */
  lemma ParseIsAdditive(json: Json, a: string, b: string, k: string)
    requires a == [] || a[|a| - 1] == '\n'
    ensures k in Parse(json, a + b) <==> k in Parse(json, a) || k in Parse(json, b)
    ensures Get(Parse(json, a + b), k) == Get(Parse(json, a), k) + Get(Parse(json, b), k)
  {
    SplitConcat(a, b);
    ItemsConcat(json, SplitLines(a), SplitLines(b));
    SumConcat(Items(json, SplitLines(a)), Items(json, SplitLines(b)), k);
    ParseIsItems(json, a, k);
    ParseIsItems(json, b, k);
    ParseIsItems(json, a + b, k);
  }

  // ---- The printers: `%llu` and `%.3f` of a whole number of thousandths ----

  /** `%llu` */
  function Dec(n: nat): string {
    if n < 10 then [DigitOf(n)] else Dec(n / 10) + [DigitOf(n % 10)]
  }

  /** The last `k` digits of `n`, with leading zeros. */
  function Pad(n: nat, k: nat): (r: string)
    ensures |r| == k
  {
    if k == 0 then [] else Pad(n / 10, k - 1) + [DigitOf(n % 10)]
  }

  function Quotient(m: nat, p: nat): (q: nat)
    requires p > 0
  {
    m / p
  }

  function Remainder(m: nat, p: nat): (r: nat)
    requires p > 0
    ensures r < p && m == Quotient(m, p) * p + r
  {
    m % p
  }

  /** `mantissa / 10^decimals`, printed with exactly that many decimals. */
  function Fixed(mantissa: nat, decimals: nat): string {
    if decimals == 0 then Dec(mantissa)
    else Dec(Quotient(mantissa, Pow10(decimals))) + ("." + Pad(Remainder(mantissa, Pow10(decimals)), decimals))
  }

  /** `key: value` */
  function MetricLine(key: string, mantissa: nat, decimals: nat): string {
    key + (": " + Fixed(mantissa, decimals))
  }

  lemma DecValSnoc(s: string, n: nat)
    requires All(Digit, s) && n < 10
    ensures All(Digit, s + [DigitOf(n)]) && DecVal(s + [DigitOf(n)]) == 10 * DecVal(s) + n
  {
    var t := s + [DigitOf(n)];
    assert t[..|t| - 1] == s;
  }

  lemma {:induction false} DecRoundTrip(n: nat)
    ensures Dec(n) != [] && All(Digit, Dec(n)) && DecVal(Dec(n)) == n
  {
    if n < 10 {
      DecValSnoc("", n);
      assert "" + [DigitOf(n)] == [DigitOf(n)];
    } else {
      DecRoundTrip(n / 10);
      DecValSnoc(Dec(n / 10), n % 10);
    }
  }

  lemma {:induction false} PadRoundTrip(n: nat, k: nat)
    requires n < Pow10(k)
    ensures All(Digit, Pad(n, k)) && DecVal(Pad(n, k)) == n
  {
    if k > 0 {
      PadRoundTrip(n / 10, k - 1);
      DecValSnoc(Pad(n / 10, k - 1), n % 10);
    }
  }

  lemma DecValLast(s: string)
    requires s != [] && All(Digit, s)
    ensures var n := |s| - 1;
            All(Digit, s[..n]) && DecVal(s) == 10 * DecVal(s[..n]) + (s[n] as int - '0' as int)
  {
  }

  lemma ShiftDigit(x: nat, p: nat, y: nat, d: nat)
    ensures 10 * (x * p + y) + d == x * (10 * p) + (10 * y + d)
  {
  }

  lemma {:induction false} DecValConcat(a: string, b: string)
    requires All(Digit, a) && All(Digit, b)
    ensures All(Digit, a + b) && DecVal(a + b) == DecVal(a) * Pow10(|b|) + DecVal(b)
    decreases |b|
  {
    if b == [] {
      assert a + b == a;
    } else {
      var n := |b| - 1;
      DecValConcat(a, b[..n]);
      assert (a + b)[..|a + b| - 1] == a + b[..n];
      DecValLast(b);
      DecValLast(a + b);
      ShiftDigit(DecVal(a), Pow10(n), DecVal(b[..n]), b[n] as int - '0' as int);
    }
  }

  /** How a printed line is cut along the pattern. */
  function CutOf(key: string, mantissa: nat, decimals: nat): Parts {
    if decimals == 0 then Parts("", key, "", ':', " ", "", "", false, Dec(mantissa), "")
    else Parts("", key, "", ':', " ", "", Dec(Quotient(mantissa, Pow10(decimals))), true,
               Pad(Remainder(mantissa, Pow10(decimals)), decimals), "")
  }

  lemma CutOfMatches(key: string, mantissa: nat, decimals: nat)
    requires key != [] && All(KeyChar, key)
    ensures CutOf(key, mantissa, decimals).Matches()
  {
    DecRoundTrip(mantissa);
    DecRoundTrip(Quotient(mantissa, Pow10(decimals)));
    PadRoundTrip(Remainder(mantissa, Pow10(decimals)), decimals);
  }

  lemma CutOfText(key: string, mantissa: nat, decimals: nat)
    ensures CutOf(key, mantissa, decimals).Text() == MetricLine(key, mantissa, decimals)
  {
    CutOfUnsigned(key, mantissa, decimals);
    PlainText(CutOf(key, mantissa, decimals));
  }

  lemma PlainText(p: Parts)
    requires p.w1 == "" && p.w2 == "" && p.sep == ':' && p.w3 == " " && p.sign == ""
    ensures p.Text() == p.key + (": " + p.Unsigned())
  {
    EmptyConcat(p.Unsigned());
    EmptyConcat(p.AfterKey());
    EmptyConcat(p.key + p.AfterKey());
    assert p.AfterKey() == ": " + p.Unsigned();
  }

  lemma CutOfUnsigned(key: string, mantissa: nat, decimals: nat)
    ensures CutOf(key, mantissa, decimals).Unsigned() == Fixed(mantissa, decimals)
  {
    EmptyConcat(CutOf(key, mantissa, decimals).frac);
  }

  lemma EmptyConcat<T>(s: seq<T>)
    ensures [] + s == s && s + [] == s
  {
  }

  lemma CutOfDigits(key: string, mantissa: nat, decimals: nat)
    ensures var v := CutOf(key, mantissa, decimals).Value();
            !v.negative && v.frac == decimals && All(Digit, v.digits) && DecVal(v.digits) == mantissa
  {
    var p := CutOf(key, mantissa, decimals);
    if decimals == 0 {
      DecRoundTrip(mantissa);
      EmptyConcat(p.frac);
    } else {
      DecRoundTrip(Quotient(mantissa, Pow10(decimals)));
      PadRoundTrip(Remainder(mantissa, Pow10(decimals)), decimals);
      DecValConcat(p.whole, p.frac);
    }
  }

  /**
    What is printed is read back: the line of a key and a value contributes exactly that key and value,
    unless the value is too large for a float, when it contributes nothing.
   */
  lemma PrintedLineParses(json: Json, key: string, mantissa: nat, decimals: nat)
    requires key != [] && All(KeyChar, key) && |key| <= MAX_KEY
    ensures (var v := Scaled(mantissa as real, decimals);
      Contribution(json, MetricLine(key, mantissa, decimals)) == if Finite(v) then [(key, v)] else [])
  {
    var p := CutOf(key, mantissa, decimals);
    CutOfMatches(key, mantissa, decimals);
    CutOfText(key, mantissa, decimals);
    CutOfDigits(key, mantissa, decimals);
    CutIsMatched(p);
    MatchedContributes(json, MetricLine(key, mantissa, decimals), p.key, p.Value());
  }

  /** A signed number is read with its sign. */
  lemma SignedLineParses(json: Json, key: string, sign: string, mantissa: nat, decimals: nat)
    requires key != [] && All(KeyChar, key) && |key| <= MAX_KEY && (sign == "+" || sign == "-")
    ensures (var v := Scaled(mantissa as real, decimals);
      Contribution(json, key + (": " + (sign + Fixed(mantissa, decimals))))
      == if !Finite(v) then [] else if sign == "-" then [(key, -v)] else [(key, v)])
  {
    var p := SignedCut(key, sign, mantissa, decimals);
    CutIsMatched(p);
    MatchedContributes(json, p.Text(), p.key, p.Value());
  }

  lemma SignedCut(key: string, sign: string, mantissa: nat, decimals: nat) returns (p: Parts)
    requires key != [] && All(KeyChar, key) && (sign == "+" || sign == "-")
    ensures p.Matches() && p.key == key && p.Text() == key + (": " + (sign + Fixed(mantissa, decimals)))
    ensures p.Value().negative == (sign == "-") && p.Value().frac == decimals
    ensures All(Digit, p.Value().digits) && DecVal(p.Value().digits) == mantissa
  {
    var q := CutOf(key, mantissa, decimals);
    p := q.(sign := sign);
    CutOfMatches(key, mantissa, decimals);
    CutOfUnsigned(key, mantissa, decimals);
    assert p.Unsigned() == q.Unsigned();
    SignedText(p);
    CutOfDigits(key, mantissa, decimals);
  }

  lemma SignedText(p: Parts)
    requires p.w1 == "" && p.w2 == "" && p.sep == ':' && p.w3 == " "
    ensures p.Text() == p.key + (": " + (p.sign + p.Unsigned()))
  {
    EmptyConcat(p.AfterKey());
    EmptyConcat(p.key + p.AfterKey());
    assert p.AfterKey() == ": " + p.Number();
  }

  lemma MatchedContributes(json: Json, line: string, key: string, n: Numeral)
    requires MatchLine(line) == Some((key, n)) && |key| <= MAX_KEY
    ensures All(Digit, n.digits)
    ensures Contribution(json, line) == if Finite(ValueOf(n)) then [(key, ValueOf(n))] else []
  {
    MatchedDigits(line);
  }

  /** A line whose first word is followed by another word is no metric. */
  lemma TwoWordsAreNoMetric(head: string, body: string)
    requires head != [] && All(KeyChar, head)
    requires body != [] && !IsSpace(body[0]) && body[0] != ':' && body[0] != '='
    ensures MatchLine(head + (" " + body)) == None
  {
    var s := head + (" " + body);
    TrimOf("", s);
    EmptyConcat(s);
    SpanOf(KeyChar, head, " " + body);
    TrimOf(" ", body);
  }

  // ---- Whole logs ----

  /** A `key: value` line, a JSON object of one name and its count, or any other text. */
  datatype LogLine =
    | Metric(key: string, mantissa: nat, decimals: nat)
    | Object(name: string, count: nat)
    | Noise(text: string)

  /** `{"name": count}` */
  function ObjectLine(name: string, count: nat): string {
    "{\"" + (name + ("\": " + (Dec(count) + "}")))
  }

  function LineText(l: LogLine): string {
    match l
    case Metric(key, mantissa, decimals) => MetricLine(key, mantissa, decimals)
    case Object(name, count) => ObjectLine(name, count)
    case Noise(text) => text
  }

  /**
    A metric with an accepted key and a value that fits a float, an object with an accepted name that
    the decoder reads back, or one line of text that contributes nothing.
   */
  predicate Printable(json: Json, l: LogLine) {
    match l
    case Metric(key, mantissa, decimals) =>
      && key != [] && All(KeyChar, key) && |key| <= MAX_KEY
      && Finite(Scaled(mantissa as real, decimals))
    case Object(name, count) =>
      All(Inline, name) && |name| <= MAX_KEY && json(ObjectLine(name, count)) == [(name, count as real)]
    case Noise(text) => All(Inline, text) && Contribution(json, text) == []
  }

  /** Every counter, in any printed unit, fits a float. */
  lemma CounterIsFinite(x: u64, decimals: nat)
    ensures Finite(Scaled(x as real, decimals))
  {
    ScaledShrinks(x as real, decimals);
  }

  function Render(log: seq<LogLine>): string {
    if log == [] then "" else
      var n := |log| - 1;
      Render(log[..n]) + (LineText(log[n]) + "\n")
  }

  /** The keys and exact values of the metrics of a log, in order. */
  function MetricsOf(log: seq<LogLine>): seq<(string, real)> {
    if log == [] then [] else
      var n := |log| - 1;
      MetricsOf(log[..n]) +
      match log[n]
      case Metric(key, mantissa, decimals) => [(key, Scaled(mantissa as real, decimals))]
      case Object(name, count) => [(name, count as real)]
      case Noise(_) => []
  }

  lemma FixedIsInline(mantissa: nat, decimals: nat)
    ensures All(Inline, Fixed(mantissa, decimals))
  {
    DecRoundTrip(mantissa);
    DecRoundTrip(Quotient(mantissa, Pow10(decimals)));
    PadRoundTrip(Remainder(mantissa, Pow10(decimals)), decimals);
    assert forall c | In(Digit, c) :: In(Inline, c);
  }

  lemma LineTextIsInline(json: Json, l: LogLine)
    requires Printable(json, l)
    ensures All(Inline, LineText(l))
  {
    if l.Metric? {
      FixedIsInline(l.mantissa, l.decimals);
      assert forall c | In(KeyChar, c) :: In(Inline, c);
    } else if l.Object? {
      ObjectIsInline(l.name, l.count);
    }
  }

  lemma ObjectIsInline(name: string, count: nat)
    requires All(Inline, name)
    ensures All(Inline, ObjectLine(name, count))
  {
    DecRoundTrip(count);
    assert forall c | In(Digit, c) :: In(Inline, c);
    assert All(Inline, "{\"") && All(Inline, "\": ") && All(Inline, "}");
  }

  /** An object is no metric: a brace starts no key. */
  lemma ObjectIsNoMetric(name: string, count: nat)
    ensures MatchLine(ObjectLine(name, count)).None?
  {
    var s := ObjectLine(name, count);
    assert s[0] == '{';
    assert Span(Space, s) == 0 && s[0..] == s;
    assert Span(KeyChar, s) == 0;
  }

  lemma ObjectContributes(json: Json, name: string, count: nat)
    requires Printable(json, Object(name, count))
    ensures Contribution(json, ObjectLine(name, count)) == [(name, count as real)]
  {
    ObjectIsNoMetric(name, count);
    var items := [(name, count as real)];
    FilterSnoc(items);
    assert items[..0] == [];
  }

  lemma {:induction false} RenderedItems(json: Json, log: seq<LogLine>)
    requires forall i | 0 <= i < |log| :: Printable(json, log[i])
    ensures Render(log) == [] || Render(log)[|Render(log)| - 1] == '\n'
    ensures Items(json, SplitLines(Render(log))) == MetricsOf(log)
  {
    if log != [] {
      var n := |log| - 1;
      var line := LineText(log[n]);
      RenderedItems(json, log[..n]);
      MetricsOfSnoc(log);
      SplitConcat(Render(log[..n]), line + "\n");
      LineItems(json, log[n]);
      ItemsConcat(json, SplitLines(Render(log[..n])), [line]);
    }
  }

  /** One rendered line, alone. */
  lemma LineItems(json: Json, l: LogLine)
    requires Printable(json, l)
    ensures SplitLines(LineText(l) + "\n") == [LineText(l)]
    ensures Items(json, [LineText(l)]) == MetricsOf([l])
  {
    LineTextIsInline(json, l);
    SplitFirst(LineText(l), "");
    assert LineText(l) + ("\n" + "") == LineText(l) + "\n";
    OneLine(json, LineText(l));
    assert [l][..0] == [];
    if l.Metric? {
      PrintedLineParses(json, l.key, l.mantissa, l.decimals);
    } else if l.Object? {
      ObjectContributes(json, l.name, l.count);
    }
  }

  lemma MetricsOfSnoc(log: seq<LogLine>)
    requires log != []
    ensures MetricsOf(log) == MetricsOf(log[..|log| - 1]) + MetricsOf([log[|log| - 1]])
  {
    var l := log[|log| - 1];
    assert [l][..0] == [];
  }

  /** The metrics of two logs, one behind the other. */
  lemma {:induction false} LogConcat(a: seq<LogLine>, b: seq<LogLine>)
    ensures MetricsOf(a + b) == MetricsOf(a) + MetricsOf(b)
    decreases |b|
  {
    if b == [] {
      assert a + b == a;
    } else {
      var n := |b| - 1;
      LogConcat(a, b[..n]);
      assert (a + b)[..|a + b| - 1] == a + b[..n];
      MetricsOfSnoc(b);
      MetricsOfSnoc(a + b);
      Associative(MetricsOf(a), MetricsOf(b[..n]), MetricsOf([b[n]]));
    }
  }

  lemma OneLine(json: Json, line: string)
    ensures Items(json, [line]) == Contribution(json, line)
  {
    assert [line][..0] == [];
  }

  /**
    Parser and printers undo each other: parsing any sequence of metric lines and JSON objects, mixed
    with lines that contribute nothing, yields exactly the per-key sums of what was printed.
   */
  lemma LogRoundTrip(json: Json, log: seq<LogLine>, k: string)
    requires forall i | 0 <= i < |log| :: Printable(json, log[i])
    ensures k in Parse(json, Render(log)) <==> Mentions(MetricsOf(log), k)
    ensures Get(Parse(json, Render(log)), k) == SumFor(MetricsOf(log), k)
  {
    RenderedItems(json, log);
    ParseIsItems(json, Render(log), k);
  }

  /** A log of metrics only gives one item per line. */
  lemma {:induction false} MetricsPointwise(log: seq<LogLine>)
    requires forall i | 0 <= i < |log| :: log[i].Metric?
    ensures |MetricsOf(log)| == |log|
    ensures forall i | 0 <= i < |log| ::
              MetricsOf(log)[i] == (log[i].key, Scaled(log[i].mantissa as real, log[i].decimals))
  {
    if log != [] {
      MetricsPointwise(log[..|log| - 1]);
    }
  }

  lemma {:induction false} SumAbsent(items: seq<(string, real)>, k: string)
    requires forall i | 0 <= i < |items| :: items[i].0 != k
    ensures SumFor(items, k) == 0.0 && !Mentions(items, k)
  {
    if items != [] {
      SumAbsent(items[..|items| - 1], k);
    }
  }

  /** Under distinct keys, each key's sum is its one value. */
  lemma {:induction false} SumDistinct(items: seq<(string, real)>, i: nat)
    requires i < |items| && forall a, b | 0 <= a < b < |items| :: items[a].0 != items[b].0
    ensures SumFor(items, items[i].0) == items[i].1 && Mentions(items, items[i].0)
  {
    var n := |items| - 1;
    if i == n {
      SumAbsent(items[..n], items[i].0);
    } else {
      SumDistinct(items[..n], i);
    }
  }
}
