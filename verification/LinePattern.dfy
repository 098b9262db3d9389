/**
  The line pattern of the client's parser, `^\s*([A-Za-z0-9_.-]+)\s*(?:[:=])\s*([-+]?\d*\.?\d+)\s*$`,
  as a scanner and as a set of cuts, and `str.splitlines`. Text is ASCII.
 */
module LinePattern {
  import opened Bpf

  // ---- Character classes and spans ----

  /** `\s` */
  predicate IsSpace(c: char) {
    9 <= c as int <= 13 || 28 <= c as int <= 32
  }

  /** The characters at which `str.splitlines` ends a line. */
  predicate IsBreak(c: char) {
    10 <= c as int <= 13 || 28 <= c as int <= 30
  }

  predicate IsDigit(c: char) {
    '0' <= c <= '9'
  }

  /** `[A-Za-z0-9_.-]` */
  predicate IsKeyChar(c: char) {
    'A' <= c <= 'Z' || 'a' <= c <= 'z' || IsDigit(c) || c == '_' || c == '.' || c == '-'
  }

  /** The classes, character by character, for ASCII. */
  lemma ClassesAre(c: char)
    ensures IsDigit(c) <==> c in "0123456789"
    ensures IsKeyChar(c) <==> IsDigit(c) || c in "ABCDEFGHIJKLMNOPQRSTUVWXYZ" || c in "abcdefghijklmnopqrstuvwxyz" || c in "_.-"
    ensures IsSpace(c) <==> c in " \t\n\r\U{000B}\U{000C}\U{001C}\U{001D}\U{001E}\U{001F}"
    ensures IsBreak(c) <==> c in "\n\r\U{000B}\U{000C}\U{001C}\U{001D}\U{001E}"
  {
    DigitsAre(c);
    UpperCaseIs(c);
    LowerCaseIs(c);
  }

  lemma DigitsAre(c: char)
    ensures '0' <= c <= '9' <==> c in "0123456789"
  {
    var s := "0123456789";
    if '0' <= c <= '9' {
      assert s[c as int - '0' as int] == c;
    }
  }

  lemma UpperCaseIs(c: char)
    ensures 'A' <= c <= 'Z' <==> c in "ABCDEFGHIJKLMNOPQRSTUVWXYZ"
  {
    var s := "ABCDEFGHIJKLMNOPQRSTUVWXYZ";
    if 'A' <= c <= 'Z' {
      assert s[c as int - 'A' as int] == c;
    }
  }

  lemma LowerCaseIs(c: char)
    ensures 'a' <= c <= 'z' <==> c in "abcdefghijklmnopqrstuvwxyz"
  {
    var s := "abcdefghijklmnopqrstuvwxyz";
    if 'a' <= c <= 'z' {
      assert s[c as int - 'a' as int] == c;
    }
  }

  datatype Class = Space | KeyChar | Digit | Inline

  predicate In(p: Class, c: char) {
    match p
    case Space => IsSpace(c)
    case KeyChar => IsKeyChar(c)
    case Digit => IsDigit(c)
    case Inline => !IsBreak(c)
  }

  predicate All(p: Class, s: string) {
    forall i | 0 <= i < |s| :: In(p, s[i])
  }

  /** The end of the longest run of characters of class `p` that starts at `i`. */
  function RunEnd(p: Class, s: string, i: nat): (n: nat)
    requires i <= |s|
    ensures i <= n <= |s| && forall j | i <= j < n :: In(p, s[j])
    ensures n < |s| ==> !In(p, s[n])
    decreases |s| - i
  {
    if i == |s| || !In(p, s[i]) then i else RunEnd(p, s, i + 1)
  }

  /** The length of the longest prefix of characters of class `p`. */
  function Span(p: Class, s: string): (n: nat)
    ensures n <= |s| && forall i | 0 <= i < n :: In(p, s[i])
    ensures n < |s| ==> !In(p, s[n])
  {
    RunEnd(p, s, 0)
  }

  lemma SpanOf(p: Class, a: string, b: string)
    requires All(p, a) && (b == [] || !In(p, b[0]))
    ensures Span(p, a + b) == |a| && (a + b)[..|a|] == a && (a + b)[|a|..] == b
  {
    var n := Span(p, a + b);
    assert forall i | 0 <= i < |a| :: (a + b)[i] == a[i];
    assert b != [] ==> (a + b)[|a|] == b[0];
  }

  lemma CutAt(s: string, n: nat)
    requires n <= |s|
    ensures s[..n] + s[n..] == s
  {
  }

  function Trim(s: string): string {
    s[Span(Space, s)..]
  }

  lemma TrimOf(w: string, t: string)
    requires All(Space, w) && (t == [] || !IsSpace(t[0]))
    ensures Trim(w + t) == t
  {
    SpanOf(Space, w, t);
  }

  // ---- Decimal numbers ----

  function Pow10(n: nat): (r: nat)
    ensures r > 0
  {
    if n == 0 then 1 else 10 * Pow10(n - 1)
  }

  function DigitOf(n: nat): (c: char)
    requires n < 10
    ensures IsDigit(c) && c as int == '0' as int + n
  {
    '0' + n as char
  }

  function DecVal(s: string): nat
    requires All(Digit, s)
  {
    if s == [] then 0 else 10 * DecVal(s[..|s| - 1]) + (s[|s| - 1] as int - '0' as int)
  }

  /** A matched number: its sign, its digits, and how many of them stand behind the point. */
  datatype Numeral = Numeral(negative: bool, digits: string, frac: nat)

  /** `v` with the decimal point moved `n` places to the left. */
  function Scaled(v: real, n: nat): real {
    if n == 0 then v else Scaled(v, n - 1) / 10.0
  }

  /** That is v / 10^n. */
  lemma {:induction false} ScaledIsQuotient(v: real, n: nat)
    ensures Scaled(v, n) * Pow10(n) as real == v
  {
    if n > 0 {
      ScaledIsQuotient(v, n - 1);
      TenTenths(Scaled(v, n - 1), Pow10(n - 1) as real);
    }
  }

  lemma TenTenths(x: real, p: real)
    ensures x / 10.0 * (10.0 * p) == x * p
  {
  }

  lemma {:induction false} ScaledAdds(v: real, w: real, n: nat)
    ensures Scaled(v, n) + Scaled(w, n) == Scaled(v + w, n)
  {
    if n > 0 {
      ScaledAdds(v, w, n - 1);
    }
  }

  lemma {:induction false} ScaledShrinks(v: real, n: nat)
    requires v >= 0.0
    ensures 0.0 <= Scaled(v, n) <= v
  {
    if n > 0 {
      ScaledShrinks(v, n - 1);
    }
  }

  /** Its exact value. */
  function ValueOf(n: Numeral): real
    requires All(Digit, n.digits)
  {
    var v := Scaled(DecVal(n.digits) as real, n.frac);
    if n.negative then -v else v
  }

  // ---- The line pattern: \s* key \s* [:=] \s* [-+]? \d* \.? \d+ \s* ----

  /** `\d*\.?\d+\s*$` */
  function MatchUnsigned(u: string, negative: bool): Option<Numeral> {
    var n := Span(Digit, u);
    if n < |u| && u[n] == '.' then
      var w := u[n + 1..];
      var m := Span(Digit, w);
      if m > 0 && Trim(w[m..]) == [] then Some(Numeral(negative, u[..n] + w[..m], m)) else None
    else if n > 0 && Trim(u[n..]) == [] then Some(Numeral(negative, u[..n], 0))
    else None
  }

  /** `[-+]?` and the rest. */
  function MatchNumber(s: string): Option<Numeral> {
    if s != [] && (s[0] == '+' || s[0] == '-') then MatchUnsigned(s[1..], s[0] == '-')
    else MatchUnsigned(s, false)
  }

  /** `[:=]\s*` and the rest. */
  function MatchValue(u: string): Option<Numeral> {
    if u == [] || (u[0] != ':' && u[0] != '=') then None else MatchNumber(Trim(u[1..]))
  }

  /** `[A-Za-z0-9_.-]+\s*` and the rest. */
  function MatchKey(t: string): Option<(string, Numeral)> {
    var k := Span(KeyChar, t);
    if k == 0 then None else
    match MatchValue(Trim(t[k..]))
    case None => None
    case Some(v) => Some((t[..k], v))
  }

  /** A line that matches the pattern, as its key and value. */
  function MatchLine(s: string): Option<(string, Numeral)> {
    MatchKey(Trim(s))
  }

  /** The pattern itself: the ways to cut a line into its parts. */
  datatype Parts = Parts(
    w1: string, key: string, w2: string, sep: char, w3: string,
    sign: string, whole: string, dot: bool, frac: string, w4: string)
  {
    ghost predicate SignOk() {
      sign == "" || sign == "+" || sign == "-"
    }

    ghost predicate DigitsOk() {
      All(Digit, whole) && frac != [] && All(Digit, frac) && All(Space, w4)
    }

    ghost predicate NumberOk() {
      SignOk() && DigitsOk()
    }

    ghost predicate ValueOk() {
      (sep == ':' || sep == '=') && All(Space, w3) && NumberOk()
    }

    ghost predicate KeyOk() {
      key != [] && All(KeyChar, key) && All(Space, w2)
    }

    ghost predicate Matches() {
      All(Space, w1) && KeyOk() && ValueOk()
    }

    function Unsigned(): string {
      if dot then whole + ("." + (frac + w4)) else (whole + frac) + w4
    }

    function Number(): string {
      sign + Unsigned()
    }

    function AfterKey(): string {
      [sep] + (w3 + Number())
    }

    function Text(): string {
      w1 + (key + (w2 + AfterKey()))
    }

    function Value(): Numeral {
      Numeral(sign == "-", whole + frac, if dot then |frac| else 0)
    }
  }

  lemma TrailingSpace(w: string)
    ensures Trim(w) == [] <==> All(Space, w)
  {
    assert w[..|w|] == w;
    if All(Space, w) {
      TrimOf(w, []);
      assert w + [] == w;
    }
  }

  lemma PointMatches(whole: string, frac: string, w: string)
    requires All(Digit, whole) && All(Digit, frac) && frac != [] && All(Space, w)
    ensures forall neg :: MatchUnsigned(whole + ("." + (frac + w)), neg) == Some(Numeral(neg, whole + frac, |frac|))
  {
    var tail := "." + (frac + w);
    SpanOf(Digit, whole, tail);
    assert (whole + tail)[|whole| + 1..] == tail[1..] == frac + w;
    SpanOf(Digit, frac, w);
    TrailingSpace(w);
  }

  lemma DigitsMatch(digits: string, w: string)
    requires All(Digit, digits) && digits != [] && All(Space, w)
    ensures forall neg :: MatchUnsigned(digits + w, neg) == Some(Numeral(neg, digits, 0))
  {
    SpanOf(Digit, digits, w);
    TrailingSpace(w);
  }

  lemma UnsignedStarts(p: Parts)
    requires p.NumberOk()
    ensures p.Unsigned() != [] && (IsDigit(p.Unsigned()[0]) || p.Unsigned()[0] == '.')
  {
    assert p.Unsigned()[0] == if p.whole != [] then p.whole[0] else if p.dot then '.' else p.frac[0];
  }

  lemma UnsignedMatches(p: Parts)
    requires p.NumberOk()
    ensures MatchUnsigned(p.Unsigned(), p.sign == "-") == Some(p.Value())
  {
    if p.dot {
      PointMatches(p.whole, p.frac, p.w4);
    } else {
      DigitsMatch(p.whole + p.frac, p.w4);
    }
  }

  lemma SignedMatches(sign: string, u: string)
    requires sign == "" || sign == "+" || sign == "-"
    requires u != [] && u[0] != '+' && u[0] != '-'
    ensures MatchNumber(sign + u) == MatchUnsigned(u, sign == "-")
  {
    if sign == "" {
      assert sign + u == u;
    } else {
      assert (sign + u)[0] == sign[0] && (sign + u)[1..] == u;
    }
  }

  lemma NumberMatches(p: Parts)
    requires p.NumberOk()
    ensures MatchNumber(p.Number()) == Some(p.Value())
  {
    UnsignedStarts(p);
    UnsignedMatches(p);
    SignedMatches(p.sign, p.Unsigned());
  }

  lemma NumberStarts(p: Parts)
    requires p.NumberOk()
    ensures p.Number() != [] && !IsSpace(p.Number()[0])
  {
    UnsignedStarts(p);
    assert p.Number()[0] == if p.sign == "" then p.Unsigned()[0] else p.sign[0];
  }

  lemma ValueMatches(p: Parts)
    requires p.Matches()
    ensures MatchValue(p.AfterKey()) == Some(p.Value())
  {
    NumberMatches(p);
    NumberStarts(p);
    assert p.AfterKey()[1..] == p.w3 + p.Number();
    TrimOf(p.w3, p.Number());
  }

  /** Every cut of a line along the pattern is what the scanner finds. */
  lemma CutIsMatched(p: Parts)
    requires p.Matches()
    ensures MatchLine(p.Text()) == Some((p.key, p.Value()))
  {
    var rest := p.w2 + p.AfterKey();
    assert rest[0] == if p.w2 != [] then p.w2[0] else p.sep;
    assert (p.key + rest)[0] == p.key[0];
    TrimOf(p.w1, p.key + rest);
    SpanOf(KeyChar, p.key, rest);
    TrimOf(p.w2, p.AfterKey());
    ValueMatches(p);
  }

  lemma PointIsCut(u: string, n: nat, m: nat)
    requires n == Span(Digit, u) < |u| && u[n] == '.' && m == Span(Digit, u[n + 1..])
    ensures u == u[..n] + ("." + (u[n + 1..][..m] + u[n + 1..][m..]))
  {
    CutAt(u, n);
    CutAt(u[n + 1..], m);
    HeadTail(u, n, '.');
  }

  lemma HeadTail(u: string, n: nat, c: char)
    requires n < |u| && u[n] == c
    ensures u[n..] == [c] + u[n + 1..]
  {
  }

  lemma SpanIsAll(p: Class, s: string)
    ensures All(p, s[..Span(p, s)])
  {
  }

  lemma WithPoint(base: Parts, u: string, n: nat, m: nat) returns (p: Parts)
    requires n == Span(Digit, u) < |u| && u[n] == '.' && 0 < m == Span(Digit, u[n + 1..])
    requires Trim(u[n + 1..][m..]) == []
    ensures p == base.(whole := u[..n], dot := true, frac := u[n + 1..][..m], w4 := u[n + 1..][m..])
    ensures p.DigitsOk() && p.Unsigned() == u
  {
    PointIsCut(u, n, m);
    SpanIsAll(Digit, u);
    SpanIsAll(Digit, u[n + 1..]);
    TrailingSpace(u[n + 1..][m..]);
    p := base.(whole := u[..n], dot := true, frac := u[n + 1..][..m], w4 := u[n + 1..][m..]);
  }

  lemma WithoutPoint(base: Parts, u: string, n: nat) returns (p: Parts)
    requires 0 < n == Span(Digit, u) && Trim(u[n..]) == []
    ensures p == base.(whole := "", dot := false, frac := u[..n], w4 := u[n..])
    ensures p.DigitsOk() && p.Unsigned() == u
  {
    CutAt(u, n);
    TrailingSpace(u[n..]);
    assert "" + u[..n] == u[..n];
    p := base.(whole := "", dot := false, frac := u[..n], w4 := u[n..]);
  }

  /** What the scanner finds behind the sign is a cut along the pattern. */
  lemma UnsignedIsCut(base: Parts, u: string, neg: bool) returns (p: Parts)
    requires MatchUnsigned(u, neg).Some?
    ensures p == base.(whole := p.whole, dot := p.dot, frac := p.frac, w4 := p.w4)
    ensures p.DigitsOk() && p.Unsigned() == u
  {
    var n := Span(Digit, u);
    if n < |u| && u[n] == '.' {
      p := WithPoint(base, u, n, Span(Digit, u[n + 1..]));
    } else {
      p := WithoutPoint(base, u, n);
    }
  }

  lemma NumberIsCut(base: Parts, s: string) returns (p: Parts)
    requires MatchNumber(s).Some?
    ensures p == base.(sign := p.sign, whole := p.whole, dot := p.dot, frac := p.frac, w4 := p.w4)
    ensures p.SignOk() && p.DigitsOk() && p.Number() == s
  {
    var n := if s != [] && (s[0] == '+' || s[0] == '-') then 1 else 0;
    CutAt(s, n);
    assert s[0..] == s;
    p := UnsignedIsCut(base.(sign := s[..n]), s[n..], n == 1 && s[0] == '-');
  }

  lemma TrimIsCut(s: string) returns (w: string)
    ensures All(Space, w) && s == w + Trim(s)
  {
    w := s[..Span(Space, s)];
  }

  lemma ValueIsCut(base: Parts, u: string) returns (p: Parts)
    requires MatchValue(u).Some?
    ensures p == base.(sep := p.sep, w3 := p.w3, sign := p.sign, whole := p.whole, dot := p.dot, frac := p.frac, w4 := p.w4)
    ensures p.ValueOk() && p.AfterKey() == u
  {
    var w3 := TrimIsCut(u[1..]);
    p := NumberIsCut(base.(sep := u[0], w3 := w3), Trim(u[1..]));
    CutAt(u, 1);
    assert u[..1] == [u[0]];
  }

  lemma KeyIsCut(base: Parts, t: string) returns (p: Parts)
    requires MatchKey(t).Some?
    ensures p.w1 == base.w1 && p.KeyOk() && p.ValueOk() && p.key + (p.w2 + p.AfterKey()) == t
  {
    var k := Span(KeyChar, t);
    var w2 := TrimIsCut(t[k..]);
    p := ValueIsCut(base.(key := t[..k], w2 := w2), Trim(t[k..]));
    CutAt(t, k);
  }

  /** What the scanner finds is a cut of the line along the pattern. */
  lemma MatchedIsCut(s: string) returns (p: Parts)
    requires MatchLine(s).Some?
    ensures p.Matches() && p.Text() == s
  {
    var w1 := TrimIsCut(s);
    p := KeyIsCut(Parts(w1, "", "", ':', "", "", "", false, "", ""), Trim(s));
  }

  /** The scanner accepts exactly the pattern: a line yields (k, v) if and only if it can be cut that way. */
  lemma ScannerIsPattern(s: string, k: string, v: Numeral)
    ensures MatchLine(s) == Some((k, v)) <==>
            exists p: Parts :: p.Matches() && p.Text() == s && p.key == k && p.Value() == v
  {
    if MatchLine(s) == Some((k, v)) {
      var p := MatchedIsCut(s);
      CutIsMatched(p);
    }
    if p: Parts :| p.Matches() && p.Text() == s && p.key == k && p.Value() == v {
      CutIsMatched(p);
    }
  }

  // ---- Lines ----

  /** `str.splitlines`: a carriage return followed by a newline ends one line. */
  function SplitLines(s: string): seq<string> {
    if s == [] then [] else
      var n := Span(Inline, s);
      if n == |s| then [s] else [s[..n]] + SplitLines(AfterFirst(s))
  }

  lemma SplitFirst(line: string, rest: string)
    requires All(Inline, line)
    ensures SplitLines(line + ("\n" + rest)) == [line] + SplitLines(rest)
  {
    var s := line + ("\n" + rest);
    SpanOf(Inline, line, "\n" + rest);
    assert s[|line|] == '\n' && s[|line| + 1..] == rest;
  }

  /** What ends a line: one break character, or a carriage return and a newline together. */
  ghost predicate LineEnd(brk: string, rest: string) {
    brk == "\r\n" || (|brk| == 1 && IsBreak(brk[0]) && !(brk == "\r" && rest != [] && rest[0] == '\n'))
  }

  /** The first line ends there, and the rest is split in the same way. */
  lemma SplitAtLineEnd(line: string, brk: string, rest: string)
    requires All(Inline, line) && LineEnd(brk, rest)
    ensures SplitLines(line + (brk + rest)) == [line] + SplitLines(rest)
  {
    var s := line + (brk + rest);
    SpanOf(Inline, line, brk + rest);
    assert s[|line|] == brk[0] && (|brk| == 2 ==> s[|line| + 1] == brk[1]);
    assert s[|line| + |brk|..] == rest;
    assert |brk| == 1 && rest != [] ==> s[|line| + 1] == rest[0];
  }

  /** Lines, each with a newline. */
  function Unlines(lines: seq<string>): string {
    if lines == [] then "" else lines[0] + ("\n" + Unlines(lines[1..]))
  }

  /** Splitting undoes joining; text behind the last newline is a line of its own. */
  lemma {:induction false} SplitJoined(lines: seq<string>, tail: string)
    requires (forall i | 0 <= i < |lines| :: All(Inline, lines[i])) && All(Inline, tail)
    ensures SplitLines(Unlines(lines) + tail) == lines + if tail == [] then [] else [tail]
  {
    if lines == [] {
      assert Unlines(lines) + tail == tail;
      LastLine(tail);
    } else {
      var rest := Unlines(lines[1..]) + tail;
      Regroup(lines[0], "\n", Unlines(lines[1..]), tail);
      SplitAtLineEnd(lines[0], "\n", rest);
      SplitJoined(lines[1..], tail);
      assert [lines[0]] + lines[1..] == lines;
      Associative([lines[0]], lines[1..], if tail == [] then [] else [tail]);
    }
  }

  lemma Regroup(a: string, b: string, c: string, d: string)
    ensures a + (b + c) + d == a + (b + (c + d))
  {
  }

  lemma LastLine(tail: string)
    requires All(Inline, tail)
    ensures SplitLines(tail) == if tail == [] then [] else [tail]
  {
    assert Span(Inline, tail) == |tail|;
  }

  /** The position behind the first line break. */
  function BreakEnd(s: string): (k: nat)
    requires Span(Inline, s) < |s|
    ensures Span(Inline, s) < k <= |s|
  {
    var n := Span(Inline, s);
    if s[n] == '\r' && n + 1 < |s| && s[n + 1] == '\n' then n + 2 else n + 1
  }

  /** The text behind the first line of a text that has a line break. */
  function AfterFirst(s: string): string
    requires Span(Inline, s) < |s|
  {
    s[BreakEnd(s)..]
  }

  /** A text that ends with a newline has a first line, and another follows or it ends there. */
  lemma FirstLine(a: string)
    requires a != [] && a[|a| - 1] == '\n'
    ensures Span(Inline, a) < |a|
    ensures AfterFirst(a) == [] || AfterFirst(a)[|AfterFirst(a)| - 1] == '\n'
  {
    assert Span(Inline, a) < |a|;
  }

  /** The first line does not depend on what follows a text that ends with a newline. */
  lemma FirstLineOfConcat(a: string, b: string)
    requires a != [] && a[|a| - 1] == '\n'
    ensures Span(Inline, a) == Span(Inline, a + b) < |a|
    ensures AfterFirst(a + b) == AfterFirst(a) + b
  {
    FirstLine(a);
    BreakOfConcat(a, b);
    DropOfConcat(a, b, BreakEnd(a));
  }

  lemma BreakOfConcat(a: string, b: string)
    requires Span(Inline, a) < |a| && a[|a| - 1] == '\n'
    ensures Span(Inline, a) == Span(Inline, a + b) && BreakEnd(a + b) == BreakEnd(a)
  {
    SpanOfConcat(a, b);
    var n := Span(Inline, a);
    assert (a + b)[n] == a[n];
    if n + 1 < |a| {
      assert (a + b)[n + 1] == a[n + 1];
    }
  }

  lemma SpanOfConcat(a: string, b: string)
    requires Span(Inline, a) < |a|
    ensures Span(Inline, a + b) == Span(Inline, a)
  {
    var n := Span(Inline, a);
    CutAt(a, n);
    assert a + b == a[..n] + (a[n..] + b);
    SpanOf(Inline, a[..n], a[n..] + b);
  }

  lemma DropOfConcat(a: string, b: string, k: nat)
    requires k <= |a|
    ensures (a + b)[k..] == a[k..] + b
  {
  }

  /** A block of whole lines splits off. */
  lemma {:induction false} SplitConcat(a: string, b: string)
    requires a == [] || a[|a| - 1] == '\n'
    ensures SplitLines(a + b) == SplitLines(a) + SplitLines(b)
    decreases |a|
  {
    if a == [] {
      assert a + b == b;
    } else {
      FirstLine(a);
      FirstLineOfConcat(a, b);
      SplitConcat(AfterFirst(a), b);
      TakeOfConcat(a, b, Span(Inline, a));
      SplitOff(a);
      SplitOff(a + b);
      Associative([a[..Span(Inline, a)]], SplitLines(AfterFirst(a)), SplitLines(b));
    }
  }

  lemma TakeOfConcat(a: string, b: string, k: nat)
    requires k <= |a|
    ensures (a + b)[..k] == a[..k]
  {
  }

  lemma Associative<T>(x: seq<T>, y: seq<T>, z: seq<T>)
    ensures x + (y + z) == x + y + z
  {
  }

  lemma SplitOff(s: string)
    requires Span(Inline, s) < |s|
    ensures SplitLines(s) == [s[..Span(Inline, s)]] + SplitLines(AfterFirst(s))
  {
  }
}
