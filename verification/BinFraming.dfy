/**
 The framing of the binary protocol "hiapi": a handshake from the server, then messages in either
 direction, each a decimal length, a newline and that many bytes, with the byte `k` between messages
 as a keep-alive towards the server. A framing is given as a machine that consumes one byte at a time.
 */
module BinFraming {
  import opened Machine
  import opened Numbers
  import opened Wrappers

  const HANDSHAKE := "hiapi_connected"
  const KEEP_ALIVE := 'k'
  const NL := '\n'

  /** `HIAPI_BINREQUEST_MAX_SIZE` and `MESSAGE_SIZE_LIMIT`. */
  const REQUEST_LIMIT: nat := 1024 * 1024 * 3
  const RESPONSE_LIMIT: nat := 1024 * 1024

  // ----- decimal numbers

  predicate AllDigits(s: string) { forall c :: c in s ==> IsNum(c) }

  function Value(s: string): nat
    requires AllDigits(s)
  {
    if s == "" then 0
    else
      var n := |s| - 1;
      assert s[n] in s && forall c :: c in s[..n] ==> c in s;
      10 * Value(s[..n]) + Digit(s[n])
  }

  predicate IsSpace(c: char) { c == ' ' || '\t' <= c <= '\r' }

  function SkipSpaces(s: string): string { if s != "" && IsSpace(s[0]) then SkipSpaces(s[1..]) else s }

  function LeadingDigits(s: string): (ds: string)
    ensures AllDigits(ds) && ds <= s
  {
    if s != "" && IsNum(s[0]) then
      assert s == [s[0]] + s[1..];
      [s[0]] + LeadingDigits(s[1..])
    else ""
  }

  /**
   `string_to_uint64`, which is `sscanf` with `%llu`: white space and a sign may come first, what follows
   the digits is ignored, a number that is too large becomes the largest one, and a minus sign negates in
   64 bits. `None` when there are no digits, so that the result is left unset.
   */
  function ScanSize(s: string): Option<nat> {
    var t := SkipSpaces(s);
    var signed := t != "" && (t[0] == '+' || t[0] == '-');
    var ds := LeadingDigits(if signed then t[1..] else t);
    if ds == "" then None
    else if Value(ds) > ULLONG_MAX then Some(ULLONG_MAX)
    else if signed && t[0] == '-' then Some((ULLONG_MAX + 1 - Value(ds)) % (ULLONG_MAX + 1))
    else Some(Value(ds))
  }

  function DigitChar(d: nat): (c: char)
    requires d < 10
    ensures IsNum(c) && Digit(c) == d
  {
    (d + '0' as int) as char
  }

  /** A length as `operator<<` writes it. */
  function Decimal(n: nat): (s: string)
    ensures s != "" && AllDigits(s)
  {
    (if n < 10 then "" else Decimal(n / 10)) + [DigitChar(n % 10)]
  }

  lemma {:induction false} AllLeading(s: string)
    requires AllDigits(s)
    ensures LeadingDigits(s) == s
  {
    if s != "" {
      assert s[0] in s && forall c :: c in s[1..] ==> c in s;
      assert s == [s[0]] + s[1..];
      AllLeading(s[1..]);
    }
  }

  /** Writing a length and scanning it gives the length back. */
  lemma ScanDecimal(n: nat)
    ensures ScanSize(Decimal(n)) == Some(if n > ULLONG_MAX then ULLONG_MAX else n)
  {
    hide Value, Decimal, LeadingDigits;
    ValueDecimal(n);
    ScanDigits(Decimal(n));
  }

  /** A line that is a plain number is scanned as that number. */
  lemma ScanDigits(s: string)
    requires s != "" && AllDigits(s)
    ensures ScanSize(s) == Some(if Value(s) > ULLONG_MAX then ULLONG_MAX else Value(s))
  {
    hide Value, LeadingDigits;
    assert s[0] in s && IsNum(s[0]);
    AllLeading(s);
  }

  lemma {:induction false} ValueDecimal(n: nat)
    ensures Value(Decimal(n)) == n
  {
    var s := Decimal(n);
    var k := |s| - 1;
    assert s[k] == DigitChar(n % 10);
    if n < 10 {
      assert s[..k] == "";
    } else {
      assert s[..k] == Decimal(n / 10);
      ValueDecimal(n / 10);
    }
  }

  function Frame(d: string): string { Decimal(|d|) + [NL] + d }

  // ----- the machine

  /** Where a receiver is in its stream. A payload under way is shorter than its size. */
  datatype Mode =
    | Handshaking(got: string)
    | SizeLine(line: string)
    | Payload(size: nat, got: string)

  const READY := SizeLine("")

  datatype Event = Connected | Message(data: string)

  /** What a receiver makes of a size line. */
  datatype SizeVerdict = Bad | Empty | Expect(size: nat)

  function JudgeSize(line: string, limit: nat): (v: SizeVerdict)
    ensures v.Expect? ==> v.size > 0
  {
    match ScanSize(line)
    case None => Bad
    case Some(n) => if n > limit then Bad else if n == 0 then Empty else Expect(n)
  }

  /** One byte, for a receiver that accepts messages up to `limit` and may skip keep-alives. */
  function FrameStep(limit: nat, keepAlives: bool, m: Mode, ch: char): Stepped<Mode, Event> {
    match m
    case Handshaking(got) =>
      var h := got + [ch];
      if |h| < |HANDSHAKE| then Stepped(Handshaking(h), [], Continue)
      else if h == HANDSHAKE then Stepped(READY, [Connected], Continue)
      else Stepped(m, [], Reject)
    case SizeLine(line) =>
      if keepAlives && line == "" && ch == KEEP_ALIVE then Stepped(m, [], Continue)
      else if ch != NL then Stepped(SizeLine(line + [ch]), [], Continue)
      else (
        match JudgeSize(line, limit)
        case Bad => Stepped(m, [], Reject)
        case Empty => Stepped(READY, [Message("")], Continue)
        case Expect(n) => Stepped(Payload(n, ""), [], Continue)
      )
    case Payload(size, got) =>
      var h := got + [ch];
      if |h| < size then Stepped(Payload(size, h), [], Continue) else Stepped(READY, [Message(h)], Continue)
  }

  function ServerStep(m: Mode, ch: char): Stepped<Mode, Event> { FrameStep(REQUEST_LIMIT, true, m, ch) }

  function ClientStep(m: Mode, ch: char): Stepped<Mode, Event> { FrameStep(RESPONSE_LIMIT, false, m, ch) }

  /** `step` frames messages with the given limit, with or without keep-alives. */
  ghost predicate Frames(step: (Mode, char) -> Stepped<Mode, Event>, limit: nat, keepAlives: bool) {
    forall m, ch :: step(m, ch) == FrameStep(limit, keepAlives, m, ch)
  }

  lemma ServerFrames()
    ensures Frames(ServerStep, REQUEST_LIMIT, true)
  {}

  lemma ClientFrames()
    ensures Frames(ClientStep, RESPONSE_LIMIT, false)
  {}

  // ----- what the machine does with whole pieces

  /** A size line that has not ended. */
  lemma {:induction false} LineRun(step: (Mode, char) -> Stepped<Mode, Event>, limit: nat, ka: bool, line: string)
    requires Frames(step, limit, ka) && NL !in line && (line != "" && ka ==> line[0] != KEEP_ALIVE)
    ensures Runs(step, READY, line, SizeLine(line), [])
  {
    if line == "" {
      RunsNothing(step, READY);
    } else {
      var n := |line| - 1;
      assert line == line[..n] + [line[n]] && line[n] in line;
      assert NL !in line[..n];
      LineRun(step, limit, ka, line[..n]);
      assert step(SizeLine(line[..n]), line[n]) == FrameStep(limit, ka, SizeLine(line[..n]), line[n]);
      RunsOne(step, SizeLine(line[..n]), line[n], SizeLine(line), []);
      RunsThen(step, READY, line[..n], SizeLine(line[..n]), [], [line[n]], SizeLine(line), []);
    }
  }

  /** A payload that has not ended. */
  lemma {:induction false} PartRun(step: (Mode, char) -> Stepped<Mode, Event>, limit: nat, ka: bool,
                                size: nat, d: string)
    requires Frames(step, limit, ka) && |d| < size
    ensures Runs(step, Payload(size, ""), d, Payload(size, d), [])
  {
    if d == "" {
      RunsNothing(step, Payload(size, ""));
    } else {
      var n := |d| - 1;
      assert d == d[..n] + [d[n]];
      PartRun(step, limit, ka, size, d[..n]);
      assert step(Payload(size, d[..n]), d[n]) == FrameStep(limit, ka, Payload(size, d[..n]), d[n]);
      RunsOne(step, Payload(size, d[..n]), d[n], Payload(size, d), []);
      RunsThen(step, Payload(size, ""), d[..n], Payload(size, d[..n]), [], [d[n]], Payload(size, d), []);
    }
  }

  lemma PayloadRun(step: (Mode, char) -> Stepped<Mode, Event>, limit: nat, ka: bool, d: string)
    requires Frames(step, limit, ka) && d != ""
    ensures Runs(step, Payload(|d|, ""), d, READY, [Message(d)])
  {
    var n := |d| - 1;
    assert d == d[..n] + [d[n]];
    PartRun(step, limit, ka, |d|, d[..n]);
    assert step(Payload(|d|, d[..n]), d[n]) == FrameStep(limit, ka, Payload(|d|, d[..n]), d[n]);
    RunsOne(step, Payload(|d|, d[..n]), d[n], READY, [Message(d)]);
    RunsThen(step, Payload(|d|, ""), d[..n], Payload(|d|, d[..n]), [], [d[n]], READY, [Message(d)]);
    var none: seq<Event> := [];
    assert none + [Message(d)] == [Message(d)];
  }

  lemma SizeLineEnd(step: (Mode, char) -> Stepped<Mode, Event>, limit: nat, ka: bool, line: string)
    requires Frames(step, limit, ka) && NL !in line && (line != "" && ka ==> line[0] != KEEP_ALIVE)
    ensures match JudgeSize(line, limit)
      case Bad => Fold(step, READY, line + [NL]) == Result(SizeLine(line), [], |line|, true)
      case Empty => Runs(step, READY, line + [NL], READY, [Message("")])
      case Expect(n) => Runs(step, READY, line + [NL], Payload(n, ""), [])
  {
    hide ScanSize;
    LineRun(step, limit, ka, line);
    assert step(SizeLine(line), NL) == FrameStep(limit, ka, SizeLine(line), NL);
    FoldOne(step, SizeLine(line), NL);
    FoldAfter(step, READY, line, SizeLine(line), [], [NL]);
    hide Fold;
    var es := Fold(step, SizeLine(line), [NL]).events;
    assert [] + es == es;
  }

  /** A frame is received as its payload, whatever bytes that contains; one that is too long is rejected. */
  lemma FrameRun(step: (Mode, char) -> Stepped<Mode, Event>, limit: nat, ka: bool, d: string)
    requires Frames(step, limit, ka) && limit < ULLONG_MAX
    ensures |d| <= limit ==> Runs(step, READY, Frame(d), READY, [Message(d)])
    ensures |d| > limit ==> Fold(step, READY, Frame(d)).stopped && Fold(step, READY, Frame(d)).events == []
  {
    hide Fold, Runs, ScanSize;
    var line := Decimal(|d|);
    assert NL !in line && line[0] != KEEP_ALIVE by {
      assert line[0] in line;
    }
    ScanDecimal(|d|);
    SizeLineEnd(step, limit, ka, line);
    if |d| > limit {
      FoldConcat(step, READY, line + [NL], d);
    } else if d == "" {
      assert Frame(d) == line + [NL];
    } else {
      PayloadRun(step, limit, ka, d);
      RunsThen(step, READY, line + [NL], Payload(|d|, ""), [], d, READY, [Message(d)]);
      var none: seq<Event> := [];
      assert none + [Message(d)] == [Message(d)];
    }
  }

  // ----- streams

  /** What a client writes once it is connected: frames and keep-alives. */
  datatype Item = Ping | Data(payload: string)

  function Write(items: seq<Item>): string {
    if items == [] then ""
    else Write(items[..|items| - 1]) + (match items[|items| - 1] case Ping => [KEEP_ALIVE] case Data(d) => Frame(d))
  }

  function Messages(items: seq<Item>): seq<Event> {
    if items == [] then []
    else Messages(items[..|items| - 1]) + (match items[|items| - 1] case Ping => [] case Data(d) => [Message(d)])
  }

  lemma PingRun()
    ensures Runs(ServerStep, READY, [KEEP_ALIVE], READY, [])
  {
    RunsOne(ServerStep, READY, KEEP_ALIVE, READY, []);
  }

  /** Payloads framed with keep-alives between them come out of the server's framing as they went in. */
  lemma {:induction false} StreamRoundTrip(items: seq<Item>)
    requires forall i :: 0 <= i < |items| && items[i].Data? ==> |items[i].payload| <= REQUEST_LIMIT
    ensures Runs(ServerStep, READY, Write(items), READY, Messages(items))
  {
    hide Runs, Frame;
    if items == [] {
      RunsNothing(ServerStep, READY);
    } else {
      var n := |items| - 1;
      StreamRoundTrip(items[..n]);
      ServerFrames();
      match items[n]
      case Ping =>
        PingRun();
        RunsThen(ServerStep, READY, Write(items[..n]), READY, Messages(items[..n]), [KEEP_ALIVE], READY, []);
      case Data(d) =>
        FrameRun(ServerStep, REQUEST_LIMIT, true, d);
        RunsThen(ServerStep, READY, Write(items[..n]), READY, Messages(items[..n]), Frame(d), READY, [Message(d)]);
    }
  }

  // ----- the handshake

  lemma {:induction false} HandshakePartRun(got: string)
    requires |got| < |HANDSHAKE|
    ensures Runs(ClientStep, Handshaking(""), got, Handshaking(got), [])
  {
    if got == "" {
      RunsNothing(ClientStep, Handshaking(""));
    } else {
      var n := |got| - 1;
      assert got == got[..n] + [got[n]];
      HandshakePartRun(got[..n]);
      RunsOne(ClientStep, Handshaking(got[..n]), got[n], Handshaking(got), []);
      RunsThen(ClientStep, Handshaking(""), got[..n], Handshaking(got[..n]), [], [got[n]], Handshaking(got), []);
    }
  }

  /** Fifteen bytes decide: they are the handshake, or the connection is refused. */
  lemma HandshakeRun(h: string)
    requires |h| == |HANDSHAKE|
    ensures h == HANDSHAKE ==> Runs(ClientStep, Handshaking(""), h, READY, [Connected])
    ensures h != HANDSHAKE ==>
      Fold(ClientStep, Handshaking(""), h).stopped && Fold(ClientStep, Handshaking(""), h).events == []
  {
    var n := |h| - 1;
    HandshakePartRun(h[..n]);
    assert h == h[..n] + [h[n]];
    FoldOne(ClientStep, Handshaking(h[..n]), h[n]);
    FoldAfter(ClientStep, Handshaking(""), h[..n], Handshaking(h[..n]), [], [h[n]]);
  }

  function WriteReplies(ds: seq<string>): string {
    if ds == [] then HANDSHAKE else WriteReplies(ds[..|ds| - 1]) + Frame(ds[|ds| - 1])
  }

  function ReplyEvents(ds: seq<string>): seq<Event> {
    if ds == [] then [Connected] else ReplyEvents(ds[..|ds| - 1]) + [Message(ds[|ds| - 1])]
  }

  /** The handshake and the framed replies after it come out of the client's framing as they went in. */
  lemma {:induction false} ReplyRoundTrip(ds: seq<string>)
    requires forall d :: d in ds ==> |d| <= RESPONSE_LIMIT
    ensures Runs(ClientStep, Handshaking(""), WriteReplies(ds), READY, ReplyEvents(ds))
  {
    hide Runs, Frame;
    if ds == [] {
      HandshakeRun(HANDSHAKE);
    } else {
      var n := |ds| - 1;
      assert forall d :: d in ds[..n] ==> d in ds;
      ReplyRoundTrip(ds[..n]);
      ClientFrames();
      FrameRun(ClientStep, RESPONSE_LIMIT, false, ds[n]);
      RunsThen(ClientStep, Handshaking(""), WriteReplies(ds[..n]), READY, ReplyEvents(ds[..n]), Frame(ds[n]), READY,
        [Message(ds[n])]);
    }
  }

  // ----- finding a line

  /** `find`: the first position of `c`, or the length of `s` if there is none. */
  function IndexOf(s: string, c: char): (i: nat)
    ensures i <= |s| && c !in s[..i]
    ensures i < |s| ==> s[i] == c
  {
    if s == "" || s[0] == c then 0
    else
      var i := 1 + IndexOf(s[1..], c);
      assert s[..i] == [s[0]] + s[1..][..i - 1];
      i
  }
}
