/**
 Why the opening of a binary connection works: the bytes the client opens with are a request, and the
 HTTP parser leaves them to the new protocol after exactly their last byte, however they arrive.
 */
module RpcOpening {
  import opened HttpTypes
  import opened Numbers
  import opened Machine
  import opened HttpStep
  import opened HttpHeaders
  import opened HttpRequestLine
  import opened HttpMessages
  import BinFraming
  import RpcLink

  /** A value on one line, behind one space. */
  function Plainly(name: string, text: string): Header { Header(name, ":", [HttpHeaders.Line(" ", text, CRLF)]) }

  const OPENING_HEADERS := [Plainly("Host", "hiapi"), Plainly("Connection", "keep-alive"), Plainly("Upgrade", "hiapi")]

  const OPENING_LINE := RequestLine("", GET, "", Origin("/"), Version("", "1", "0"), CRLF)

  const OPENING_REQUEST := Request(OPENING_LINE, OPENING_HEADERS, CRLF, NoBody)

  lemma PlainHeader(name: string, text: string)
    requires IsName(name) && IsValue(text) && text != "" && TokenLowered(name) != CONTENT_LENGTH
    ensures ValidHeader(Plainly(name, text)) && RenderHeader(Plainly(name, text)) == name + ": " + text + "\r\n"
    ensures forall m :: HeaderMeaning(m, Plainly(name, text)) == WordsMeaning(m, TokenLowered(name), text)
  {
    var lines := Plainly(name, text).lines;
    assert lines[1..] == [] && RenderLines(lines[1..]) == "";
    assert Filled(lines) == lines;
    assert RenderLines(lines) == " " + text + "\r\n";
    assert name + ":" + (" " + text + "\r\n") == name + ": " + text + "\r\n";
    hide IsName, IsValue, TokenLowered, WordsMeaning;
  }

  lemma HeaderNames()
    ensures TokenLowered("Host") == "host"
    ensures TokenLowered("Connection") == CONNECTION && TokenLowered("Upgrade") == UPGRADE
    ensures |"host"| == 4 && |CONTENT_LENGTH| == 14 && |CONNECTION| == 10 && |UPGRADE| == 7
    ensures |TRANSFER_ENCODING| == 17 && |PROXY_CONNECTION| == 16
  {}

  /** The three header lines are valid, each with its own meaning. */
  lemma HeadersValid()
    ensures ValidHeaders(OPENING_HEADERS)
    ensures forall m :: HeaderMeaning(m, OPENING_HEADERS[0]) == WordsMeaning(m, "host", "hiapi")
    ensures forall m :: HeaderMeaning(m, OPENING_HEADERS[1]) == WordsMeaning(m, CONNECTION, "keep-alive")
    ensures forall m :: HeaderMeaning(m, OPENING_HEADERS[2]) == WordsMeaning(m, UPGRADE, "hiapi")
  {
    HeaderNames();
    PlainHeader("Host", "hiapi");
    PlainHeader("Connection", "keep-alive");
    PlainHeader("Upgrade", "hiapi");
    hide TokenLowered, WordsMeaning, HeaderMeaning, ValidHeader, Plainly;
  }

  lemma KeepAliveIsAWord()
    ensures IsWord("keep-alive", KEEP_ALIVE)
  {
    assert "keep-alive"[..|KEEP_ALIVE|] == "keep-alive";
    assert Lowered("keep-alive") == KEEP_ALIVE;
  }

  lemma TwoHeaders()
    ensures ValidHeaders(OPENING_HEADERS[..2])
    ensures HeadersMeaning(OPENING_HEADERS[..2]) == Meaning(NO_FLAGS.(keepAlive := true), ULLONG_MAX)
  {
    HeadersValid();
    HeaderNames();
    KeepAliveIsAWord();
    hide ValidHeader, HeaderMeaning, IsWord, Plainly;
    var hs := OPENING_HEADERS;
    assert hs[..2][..1] == hs[..1] && hs[..1][..0] == [];
    var m := Meaning(NO_FLAGS, ULLONG_MAX);
    assert MeaningFrom(m, []) == m;
    assert MeaningFrom(m, hs[..1]) == HeaderMeaning(MeaningFrom(m, []), hs[0]);
    assert MeaningFrom(m, hs[..2]) == HeaderMeaning(MeaningFrom(m, hs[..1]), hs[1]);
  }

  lemma VersionOneZero()
    ensures ValidVersion(Version("", "1", "0")) && MinorOf(Version("", "1", "0")) == 0
  {
    assert "1"[..0] == "" && "0"[..0] == "" && Decimal("") == 0;
    assert Decimal("1") == 1 && Decimal("0") == 0;
  }

  /** The opening asks for another protocol on a connection that stays open, and has no body. */
  lemma OpeningMeaning()
    ensures ValidRequest(OPENING_REQUEST) && KeepsAlive(OPENING_REQUEST) && Upgrades(OPENING_REQUEST)
  {
    HeadersValid();
    TwoHeaders();
    VersionOneZero();
    hide ValidHeader, HeaderMeaning, IsWord, Plainly, ValidVersion, MajorOf, MinorOf;
    assert IsPath("/");
    assert HeadersMeaning(OPENING_HEADERS) == HeaderMeaning(HeadersMeaning(OPENING_HEADERS[..2]), OPENING_HEADERS[2]);
  }

  lemma HostText()
    ensures RenderHeader(OPENING_HEADERS[0]) == "Host: hiapi\r\n"
  {
    HeaderNames();
    PlainHeader("Host", "hiapi");
    hide *;
    assert "Host" + ": " + "hiapi" + "\r\n" == "Host: hiapi\r\n";
  }

  lemma ConnectionText()
    ensures RenderHeader(OPENING_HEADERS[1]) == "Connection: keep-alive\r\n"
  {
    HeaderNames();
    PlainHeader("Connection", "keep-alive");
    hide *;
    assert "Connection" + ": " + "keep-alive" + "\r\n" == "Connection: keep-alive\r\n";
  }

  lemma UpgradeText()
    ensures RenderHeader(OPENING_HEADERS[2]) == "Upgrade: hiapi\r\n"
  {
    HeaderNames();
    PlainHeader("Upgrade", "hiapi");
    hide *;
    assert "Upgrade" + ": " + "hiapi" + "\r\n" == "Upgrade: hiapi\r\n";
  }

  lemma HeaderLines()
    ensures RenderHeaders(OPENING_HEADERS) == "Host: hiapi\r\n" + "Connection: keep-alive\r\n" + "Upgrade: hiapi\r\n"
  {
    HostText();
    ConnectionText();
    UpgradeText();
    hide Plainly, RenderHeader;
    var hs := OPENING_HEADERS;
    assert hs[..1][..0] == [] && hs[..2][..1] == hs[..1];
    assert RenderHeaders(hs[..1][..0]) == "";
    assert RenderHeaders(hs[..1]) == "" + RenderHeader(hs[0]);
    assert RenderHeaders(hs[..2]) == RenderHeaders(hs[..1]) + RenderHeader(hs[1]);
  }

  lemma OpeningLine()
    ensures RenderRequestLine(OPENING_LINE) == "GET / HTTP/1.0\r\n"
  {
    assert RenderVersion(Version("", "1", "0")) == " HTTP/1.0";
  }

  /** It is what the client's connection sends first. */
  lemma OpeningRendered()
    ensures ValidRequest(OPENING_REQUEST)
    ensures Render(OPENING_REQUEST) == RenderHead(OPENING_REQUEST) == RpcLink.OPENING
  {
    OpeningMeaning();
    HeaderLines();
    OpeningLine();
    hide RenderHeaders, ValidRequest, RenderRequestLine;
    assert RenderHead(OPENING_REQUEST) == "GET / HTTP/1.0\r\n" + RenderHeaders(OPENING_HEADERS) + CRLF;
    assert RenderHead(OPENING_REQUEST) + "" == RenderHead(OPENING_REQUEST);
  }

  /** Everything but the empty line's second byte is taken without completing a message. */
  lemma BeforeTheEnd() returns (g: Fields)
    ensures var n := |RpcLink.OPENING| - 1;
      Runs(Step, INIT, RpcLink.OPENING[..n], g, HeadEvents(OPENING_REQUEST))
  {
    OpeningMeaning();
    OpeningRendered();
    hide Runs, Step, HeadEvents, RenderHeaders, ValidRequestLine, ValidHeaders, RenderRequestLine, MeaningFrom;
    var r := OPENING_REQUEST;
    var h := HeadRun(INIT, r);
    StepEmptyCr(h);
    g := h.(state := HeadersAlmostDone, nread := h.nread + 1);
    RunsOne(Step, h, CR, g, []);
    var head := RenderRequestLine(r.line) + RenderHeaders(r.headers);
    RunsThen(Step, INIT, head, h, HeadEvents(r), [CR], g, []);
    assert HeadEvents(r) + [] == HeadEvents(r);
    assert RenderHead(r) == head + CRLF;
    assert RpcLink.OPENING[..|RpcLink.OPENING| - 1] == head + [CR];
  }

  lemma {:induction false} HeadersNeverComplete(hs: seq<Header>)
    ensures Complete !in HeadersEvents(hs) && HeadersComplete !in HeadersEvents(hs)
  {
    if hs != [] {
      HeadersNeverComplete(hs[..|hs| - 1]);
    }
  }

  /** No beginning of the opening completes a message or its headers, or stops the parser. */
  lemma OpeningUnfinished(x: string)
    requires x < RpcLink.OPENING
    ensures var r := Run(INIT, x); !r.stopped && Complete !in r.events && HeadersComplete !in r.events
  {
    hide Step, Fold;
    var n := |RpcLink.OPENING| - 1;
    var _ := BeforeTheEnd();
    var rest := RpcLink.OPENING[|x|..n];
    assert RpcLink.OPENING[..n] == x + rest;
    FoldConcat(Step, INIT, x, rest);
    HeadersNeverComplete(OPENING_HEADERS);
    assert Complete !in HeadEvents(OPENING_REQUEST) && HeadersComplete !in HeadEvents(OPENING_REQUEST);
    var r := Run(INIT, x);
    var q := Fold(Step, r.f, rest);
    assert forall i :: 0 <= i < |r.events| ==> r.events[i] == (r.events + q.events)[i];
  }

  /**
   The parser leaves the connection to the new protocol after exactly the opening: once for the whole
   of it, whatever follows, and never before. The connection is to be kept alive.
   */
  lemma OpeningFinished(x: string) returns (g: Fields)
    requires RpcLink.OPENING <= x
    ensures Run(INIT, x) == Result(g, Events(OPENING_REQUEST), |RpcLink.OPENING|, true)
    ensures g.errno == Ok && g.upgrade && g.state.StartReq? && ShouldKeepAlive(g)
    ensures Complete in Events(OPENING_REQUEST)
  {
    OpeningMeaning();
    OpeningRendered();
    hide Step, Fold, HeadEvents, RenderHeaders, ValidHeaders, HeadersMeaning, RenderHead, Render;
    var n := |RpcLink.OPENING|;
    g := RequestRun(INIT, OPENING_REQUEST);
    assert x[..n] == RpcLink.OPENING;
    FoldStopped(Step, INIT, x, n);
  }
}
