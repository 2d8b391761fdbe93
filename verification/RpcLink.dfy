/**
 One connection of the binary protocol, end to end: the client's half, the bytes on the wire in both
 directions and the server's half, each with the operations the program performs on it. The bytes
 that a `send` or a `recv` moves are the environment's choice.
 */
module RpcLink {
  import opened Machine
  import opened BinFraming
  import opened Numbers
  import opened BinParsers

  /** The upgrade request a client opens a connection with. */
  const OPENING :=
    "GET / HTTP/1.0\r\n" + ("Host: hiapi\r\n" + "Connection: keep-alive\r\n" + "Upgrade: hiapi\r\n") + "\r\n"

  datatype Request = Request(id: nat, data: string)

  // ----- the client's half

  /** `hiapi::client::Connection`: `mode` is the state of its response parser. */
  datatype Client = Client(active: bool, mode: Mode, sendBuf: string, sent: seq<Request>)

  const NEW_CLIENT := Client(false, Handshaking(""), OPENING, [])

  function AddRequest(c: Client, r: Request): Client {
    c.(sent := c.sent + [r], sendBuf := c.sendBuf + Frame(r.data))
  }

  function KeepAlive(c: Client): Client {
    if c.sendBuf == "" then c.(sendBuf := [KEEP_ALIVE]) else c
  }

  /** The messages among `events`. */
  function Payloads(events: seq<Event>): seq<string> {
    if events == [] then []
    else
      var n := |events| - 1;
      Payloads(events[..n]) + (match events[n] case Connected => [] case Message(d) => [d])
  }

  lemma {:induction false} PayloadsWrapped(ds: seq<string>)
    ensures Payloads(Wrapped(ds)) == ds
  {
    if ds != [] {
      var n := |ds| - 1;
      PayloadsWrapped(ds[..n]);
      assert Wrapped(ds)[..n] == Wrapped(ds[..n]);
    }
  }

  // ----- the server's half

  datatype Phase = Http(got: string) | Upgraded(mode: Mode) | Refused

  /**
   `HttpConnection` with the queue entries of its server that belong to it: `outq` for `m_resp_queue` and
   `m_custom_resp_queue`, `resps` for `m_resps`. `registered` says that the server still finds it in
   `m_reading_connections`.
   */
  datatype Server = Server(
    phase: Phase, requests: seq<string>, waiting: bool,
    outq: seq<string>, resps: seq<string>, sendBuf: string, registered: bool)

  const NEW_SERVER := Server(Http(""), [], false, [], [], "", true)

  /** `handleWaitingRequests` for a handler that answers at once; without registration the answer is dropped. */
  function HandleWaiting(h: string -> string, s: Server): Server {
    if s.waiting || s.requests == [] then s
    else
      s.(waiting := true, requests := s.requests[1..],
         outq := if s.registered then s.outq + [Frame(h(s.requests[0]))] else s.outq)
  }

  /** The answer to an upgrade request that is not granted. */
  predicate IsHttpReply(r: string) { "HTTP/1.1 " <= r }

  /** `performRecv` on the bytes `d`: the end of the opening request, or requests of the new protocol. */
  function ServerRead(h: string -> string, s: Server, d: string, grant: bool, refusal: string): Server {
    match s.phase
    case Http(got) =>
      if OPENING <= got + d then
        if grant then s.(phase := Upgraded(READY), outq := s.outq + [HANDSHAKE], waiting := false)
        else s.(phase := Refused, outq := s.outq + [refusal], waiting := true)
      else s.(phase := Http(got + d))
    case Upgraded(mode) =>
      var r := Fold(ServerStep, mode, d);
      if r.stopped then s.(registered := false)
      else HandleWaiting(h, s.(phase := Upgraded(r.f), requests := s.requests + Payloads(r.events)))
    case Refused => s
  }

  /** The next queued response becomes the one to send, if nothing is being sent. */
  function Refill(s: Server): Server {
    if s.sendBuf == "" && s.resps != [] then s.(sendBuf := s.resps[0], resps := s.resps[1..]) else s
  }

  // ----- the connection

  datatype Link = Link(c: Client, up: string, down: string, s: Server)

  const NEW_LINK := Link(NEW_CLIENT, "", "", NEW_SERVER)

  function Cat(ss: seq<string>): string { if ss == [] then "" else ss[0] + Cat(ss[1..]) }

  /** Everything the server has still to receive, and everything the client has. */
  function ToServer(l: Link): string { l.up + l.c.sendBuf }

  function ToClient(l: Link): string { l.down + l.s.sendBuf + Cat(l.s.resps) + Cat(l.s.outq) }

  /** The opening request followed by keep-alives, as far as it has arrived. */
  predicate OpeningPart(x: string) {
    forall i :: 0 <= i < |x| ==> x[i] == if i < |OPENING| then OPENING[i] else KEEP_ALIVE
  }

  lemma OpeningPartIs(x: string)
    requires OpeningPart(x)
    ensures if |x| < |OPENING| then x < OPENING else OPENING <= x
  {
    hide OPENING;
    if |x| < |OPENING| {
      assert x == OPENING[..|x|];
    } else {
      assert x[..|OPENING|] == OPENING;
    }
  }

  predicate IsOpening(x: string) { |OPENING| <= |x| && OpeningPart(x) }

  /** The answers to messages. */
  function Answers(h: string -> string, events: seq<Event>): (r: seq<Event>)
    ensures |r| == |events|
  {
    seq(|events|, i requires 0 <= i < |events| =>
      match events[i] case Connected => Connected case Message(d) => Message(h(d)))
  }

  function Asked(sent: seq<Request>): (es: seq<Event>)
    ensures |es| == |sent|
  {
    seq(|sent|, i requires 0 <= i < |sent| => Message(sent[i].data))
  }

  /** What the client is owed: the handshake, then the answers to what it has sent, in order. */
  function Due(h: string -> string, c: Client): seq<Event> {
    Announced(!c.active) + Answers(h, Asked(c.sent))
  }

  /** What is on its way to the client, and what the server will find in what is on its way there. */
  ghost function Coming(l: Link): Result<Mode, Event> { Fold(ClientStep, l.c.mode, ToClient(l)) }

  ghost function Going(l: Link): Result<Mode, Event>
    requires l.s.phase.Upgraded?
  {
    Fold(ServerStep, l.s.phase.mode, ToServer(l))
  }

  /** Before the upgrade there is nothing but the opening request and keep-alives. */
  ghost predicate OpeningInv(l: Link)
    requires l.s.phase.Http?
  {
    && !l.c.active && l.c.sent == [] && l.c.mode == Handshaking("")
    && l.down == "" && l.s.sendBuf == "" && l.s.resps == [] && l.s.outq == [] && l.s.requests == []
    && |l.s.phase.got| < |OPENING| && IsOpening(l.s.phase.got + ToServer(l))
  }

  /** After a refusal the client can only read the beginning of something that is not the handshake, and
   sends keep-alives only. */
  ghost predicate RefusedInv(l: Link) {
    && !l.c.active && l.c.sent == [] && l.s.requests == []
    && (forall i :: 0 <= i < |ToServer(l)| ==> ToServer(l)[i] == KEEP_ALIVE)
    && l.c.mode.Handshaking? && |l.c.mode.got| < |HANDSHAKE|
    && var x := l.c.mode.got + ToClient(l); x == "" || x[0] == 'H'
  }

  /**
   After the upgrade the answers under way, followed by the answers to the requests under way, are
   what the client is owed; a prefix of it, once something too long has been sent or the server has
   dropped the connection.
   */
  ghost predicate UpgradedInv(h: string -> string, l: Link)
    requires l.s.phase.Upgraded?
  {
    var coming := Coming(l);
    var going := Going(l);
    && (!coming.stopped ==> coming.f == READY)
    && (l.s.registered && !going.stopped ==> going.f == READY)
    && !l.s.phase.mode.Handshaking?
    && (l.c.mode.Handshaking? <==> !l.c.active)
    && (!l.c.active ==> l.c.sent == [])
    && coming.events <= Due(h, l.c)
    && (!coming.stopped && l.s.registered ==>
        var all := coming.events + Answers(h, Wrapped(l.s.requests) + going.events);
        if going.stopped then all <= Due(h, l.c) else all == Due(h, l.c))
  }

  ghost predicate LinkInv(h: string -> string, l: Link) {
    match l.s.phase
    case Http(_) => OpeningInv(l)
    case Refused => RefusedInv(l)
    case Upgraded(_) => UpgradedInv(h, l)
  }

  lemma NewLinkInv(h: string -> string)
    ensures LinkInv(h, NEW_LINK)
  {
    assert "" + ToServer(NEW_LINK) == OPENING;
  }

  // ----- sequences of messages

  lemma AnswersConcat(h: string -> string, a: seq<Event>, b: seq<Event>)
    ensures Answers(h, a + b) == Answers(h, a) + Answers(h, b)
  {}

  lemma WrappedConcat(a: seq<string>, b: seq<string>)
    ensures Wrapped(a + b) == Wrapped(a) + Wrapped(b)
  {}

  lemma {:induction false} CatConcat(a: seq<string>, b: seq<string>)
    ensures Cat(a + b) == Cat(a) + Cat(b)
  {
    if a == [] {
      assert a + b == b;
    } else {
      assert (a + b)[1..] == a[1..] + b;
      CatConcat(a[1..], b);
    }
  }

  lemma CatLast(a: seq<string>, x: string)
    ensures Cat(a + [x]) == Cat(a) + x
  {
    CatConcat(a, [x]);
    assert [x][1..] == [];
    assert Cat([x]) == x;
  }

  lemma AppendMessage(es: seq<Event>, o: seq<Event>)
    requires es == Wrapped(Payloads(es)) && (o == [] || (|o| == 1 && o[0].Message?))
    ensures es + o == Wrapped(Payloads(es + o))
  {
    if o == [] {
      assert es + o == es;
    } else {
      assert (es + o)[..|es|] == es;
      assert Payloads(es + o) == Payloads(es) + [o[0].data];
      hide Payloads;
      WrappedConcat(Payloads(es), [o[0].data]);
      assert Wrapped([o[0].data]) == o;
    }
  }

  /** Past the handshake the server's framing delivers messages only. */
  lemma {:induction false} MessagesOnly(m: Mode, s: string)
    requires !m.Handshaking?
    ensures var r := Fold(ServerStep, m, s);
      !r.f.Handshaking? && r.events == Wrapped(Payloads(r.events))
  {
    hide ServerStep, Wrapped, Payloads;
    if s == "" {
      AppendNothing();
    } else {
      var n := |s| - 1;
      MessagesOnly(m, s[..n]);
      var r := Fold(ServerStep, m, s[..n]);
      if !r.stopped {
        OneMessage(r.f, s[n]);
        AppendMessage(r.events, ServerStep(r.f, s[n]).events);
      }
    }
  }

  lemma AppendNothing()
    ensures [] == Wrapped(Payloads([]))
  {}

  lemma OneMessage(m: Mode, ch: char)
    requires !m.Handshaking?
    ensures var o := ServerStep(m, ch);
      !o.f.Handshaking? && (o.events == [] || (|o.events| == 1 && o.events[0].Message?))
  {}

  // ----- what each operation keeps

  /** Moving bytes from the client's buffer onto the wire. */
  lemma ClientSendInv(h: string -> string, l: Link, n: nat)
    requires LinkInv(h, l) && n <= |l.c.sendBuf|
    ensures LinkInv(h, l.(up := l.up + l.c.sendBuf[..n], c := l.c.(sendBuf := l.c.sendBuf[n..])))
  {
    hide Fold;
    var k := l.(up := l.up + l.c.sendBuf[..n], c := l.c.(sendBuf := l.c.sendBuf[n..]));
    assert ToServer(k) == ToServer(l) by {
      assert l.c.sendBuf == l.c.sendBuf[..n] + l.c.sendBuf[n..];
    }
    assert ToClient(k) == ToClient(l);
  }

  lemma AddRequestDue(h: string -> string, c: Client, r: Request)
    ensures Due(h, AddRequest(c, r)) == Due(h, c) + Answers(h, [Message(r.data)])
  {
    assert Asked(c.sent + [r]) == Asked(c.sent) + [Message(r.data)];
    AnswersConcat(h, Asked(c.sent), [Message(r.data)]);
  }

  /** A frame at the end of what the server has to receive, if that runs through. */
  lemma FrameAtEnd(step: (Mode, char) -> Stepped<Mode, Event>, limit: nat, ka: bool, m: Mode, s: string, d: string)
    requires Frames(step, limit, ka) && limit < ULLONG_MAX
    requires var r := Fold(step, m, s); !r.stopped ==> r.f == READY
    ensures var r := Fold(step, m, s);
      var q := Fold(step, m, s + Frame(d));
      if r.stopped then q.stopped && q.events == r.events
      else if |d| <= limit then !q.stopped && q.f == READY && q.events == r.events + [Message(d)]
      else q.stopped && q.events == r.events
  {
    FrameRun(step, limit, ka, d);
    FoldConcat(step, m, s, Frame(d));
    hide Fold, Frame;
    var r := Fold(step, m, s);
    assert r.events + [] == r.events;
  }

  /** `addRequest` on an active connection: the client is owed one more answer, and one more request is on its way. */
  lemma AddRequestInv(h: string -> string, l: Link, r: Request)
    requires LinkInv(h, l) && l.c.active
    ensures LinkInv(h, l.(c := AddRequest(l.c, r)))
  {
    hide Fold, Frame, Answers, Wrapped, Asked;
    var k := l.(c := AddRequest(l.c, r));
    assert l.s.phase.Upgraded?;
    assert ToServer(k) == ToServer(l) + Frame(r.data);
    assert ToClient(k) == ToClient(l);
    AddRequestDue(h, l.c, r);
    if !l.s.registered {
      return;
    }
    ServerFrames();
    FrameAtEnd(ServerStep, REQUEST_LIMIT, true, l.s.phase.mode, ToServer(l), r.data);
    var all := Wrapped(l.s.requests) + Going(l).events;
    AnswersConcat(h, all, [Message(r.data)]);
    assert all + [Message(r.data)] == Wrapped(l.s.requests) + (Going(l).events + [Message(r.data)]);
    assert Coming(l).events + (Answers(h, all) + Answers(h, [Message(r.data)])) ==
           Coming(l).events + Answers(h, all) + Answers(h, [Message(r.data)]);
  }

  /** `checkKeepAlive` when nothing is waiting to be sent. */
  lemma KeepAliveInv(h: string -> string, l: Link)
    requires LinkInv(h, l)
    ensures LinkInv(h, l.(c := KeepAlive(l.c)))
  {
    hide Fold;
    if l.c.sendBuf == "" {
      var k := l.(c := KeepAlive(l.c));
      assert ToServer(k) == ToServer(l) + [KEEP_ALIVE];
      assert ToClient(k) == ToClient(l);
      match l.s.phase
      case Http(got) => assert got + ToServer(k) == (got + ToServer(l)) + [KEEP_ALIVE];
      case Refused =>
      case Upgraded(mode) =>
        FoldConcat(ServerStep, mode, ToServer(l), [KEEP_ALIVE]);
        PingRun();
        var es := Going(l).events;
        assert es + [] == es;
    }
  }

  // ----- the server's operations

  /** Only what is on its way and what is owed matters, not where the bytes are kept. */
  lemma SameStreams(h: string -> string, l: Link, k: Link)
    requires LinkInv(h, l) && !l.s.phase.Http?
    requires k.c.active == l.c.active && k.c.mode == l.c.mode && k.c.sent == l.c.sent
    requires k.s.phase == l.s.phase && k.s.requests == l.s.requests && k.s.registered == l.s.registered
    requires ToServer(k) == ToServer(l) && ToClient(k) == ToClient(l)
    ensures LinkInv(h, k)
  {
    hide Fold, ToServer, ToClient;
  }

  lemma RefillStream(s: Server)
    ensures var t := Refill(s); t.sendBuf + Cat(t.resps) == s.sendBuf + Cat(s.resps)
  {}

  lemma SplitBuffer(a: string, b: string, n: nat)
    requires n <= |b|
    ensures (a + b[..n]) + b[n..] == a + b
  {}

  /** `performSend`: the next response, or what is left of the last one, moves onto the wire. */
  lemma ServerSendInv(h: string -> string, l: Link, n: nat)
    requires LinkInv(h, l) && n <= |Refill(l.s).sendBuf|
    ensures var s := Refill(l.s);
      LinkInv(h, l.(down := l.down + s.sendBuf[..n], s := s.(sendBuf := s.sendBuf[n..])))
  {
    hide Fold, Cat;
    var s := Refill(l.s);
    var k := l.(down := l.down + s.sendBuf[..n], s := s.(sendBuf := s.sendBuf[n..]));
    if l.s.phase.Http? {
      assert l.down + "" == l.down;
      assert k == l;
    } else {
      RefillStream(l.s);
      SplitBuffer(l.down, s.sendBuf, n);
      assert ToClient(k) == l.down + (s.sendBuf + Cat(s.resps)) + Cat(s.outq);
      assert ToClient(l) == l.down + (l.s.sendBuf + Cat(l.s.resps)) + Cat(l.s.outq);
      SameStreams(h, l, k);
    }
  }

  /** The head of the server's response queue joins the connection's own. */
  lemma AddResponseInv(h: string -> string, l: Link)
    requires LinkInv(h, l) && l.s.outq != []
    ensures LinkInv(h, l.(s := l.s.(resps := l.s.resps + [l.s.outq[0]], outq := l.s.outq[1..], waiting := false)))
  {
    hide Fold;
    var k := l.(s := l.s.(resps := l.s.resps + [l.s.outq[0]], outq := l.s.outq[1..], waiting := false));
    CatLast(l.s.resps, l.s.outq[0]);
    assert ToClient(k) == l.down + l.s.sendBuf + Cat(l.s.resps) + (l.s.outq[0] + Cat(l.s.outq[1..]));
    assert ToClient(k) == ToClient(l);
    assert ToServer(k) == ToServer(l);
  }

  /** A request leaves the queue and its framed answer enters the other; or it is dropped without an answer. */
  lemma HandleWaitingInv(h: string -> string, l: Link)
    requires LinkInv(h, l)
    ensures LinkInv(h, l.(s := HandleWaiting(h, l.s)))
  {
    hide Fold, Frame, Answers, Wrapped, Asked;
    var k := l.(s := HandleWaiting(h, l.s));
    assert ToServer(k) == ToServer(l);
    if l.s.requests != [] && !l.s.waiting {
      assert l.s.phase.Upgraded?;
      if l.s.registered {
        AnswerRequest(h, l);
      } else {
        assert ToClient(k) == ToClient(l);
      }
    }
  }

  /** The answer to the oldest request moves from what is still to be asked to what is coming. */
  lemma AnswerMoves(h: string -> string, coming: seq<Event>, requests: seq<string>, going: seq<Event>)
    requires requests != []
    ensures coming + Answers(h, Wrapped(requests) + going) ==
      (coming + [Message(h(requests[0]))]) + Answers(h, Wrapped(requests[1..]) + going)
  {
    var rest := Wrapped(requests[1..]) + going;
    assert Wrapped(requests) + going == [Message(requests[0])] + rest;
    AnswersConcat(h, [Message(requests[0])], rest);
    assert Answers(h, [Message(requests[0])]) == [Message(h(requests[0]))];
    hide Answers, Wrapped;
  }

  lemma AnswerRequest(h: string -> string, l: Link)
    requires LinkInv(h, l) && l.s.phase.Upgraded? && l.s.requests != [] && !l.s.waiting && l.s.registered
    ensures LinkInv(h, l.(s := HandleWaiting(h, l.s)))
  {
    hide Fold, Frame, Asked, Answers, Wrapped, Due;
    var k := l.(s := HandleWaiting(h, l.s));
    var d := l.s.requests[0];
    CatLast(l.s.outq, Frame(h(d)));
    assert ToClient(k) == ToClient(l) + Frame(h(d));
    assert ToServer(k) == ToServer(l);
    ClientFrames();
    FrameAtEnd(ClientStep, RESPONSE_LIMIT, false, l.c.mode, ToClient(l), h(d));
    AnswerMoves(h, Coming(l).events, l.s.requests, Going(l).events);
    hide ToClient, ToServer;
  }

  lemma KillInv(h: string -> string, l: Link)
    requires LinkInv(h, l)
    ensures LinkInv(h, l.(s := l.s.(registered := false)))
  {
    hide Fold;
    var k := l.(s := l.s.(registered := false));
    assert ToServer(k) == ToServer(l) && ToClient(k) == ToClient(l);
  }

  /** Requests of the upgraded protocol move from the wire into the connection's queue. */
  lemma UpgradedReadInv(h: string -> string, l: Link, n: nat)
    requires LinkInv(h, l) && l.s.phase.Upgraded? && n <= |l.up|
    requires !Fold(ServerStep, l.s.phase.mode, l.up[..n]).stopped
    ensures var r := Fold(ServerStep, l.s.phase.mode, l.up[..n]);
      LinkInv(h, l.(up := l.up[n..], s := l.s.(phase := Upgraded(r.f), requests := l.s.requests + Payloads(r.events))))
  {
    hide Fold, Answers, Wrapped, Asked;
    var r := Fold(ServerStep, l.s.phase.mode, l.up[..n]);
    var k := l.(up := l.up[n..], s := l.s.(phase := Upgraded(r.f), requests := l.s.requests + Payloads(r.events)));
    assert ToServer(l) == l.up[..n] + ToServer(k) by {
      assert l.up == l.up[..n] + l.up[n..];
    }
    assert ToClient(k) == ToClient(l);
    FoldConcat(ServerStep, l.s.phase.mode, l.up[..n], ToServer(k));
    MessagesOnly(l.s.phase.mode, l.up[..n]);
    WrappedConcat(l.s.requests, Payloads(r.events));
    assert Wrapped(l.s.requests) + (r.events + Going(k).events) == Wrapped(k.s.requests) + Going(k).events;
  }

  /** The opening is complete as soon as enough has arrived; only keep-alives are behind it. */
  lemma OpeningEnds(got: string, up: string, rest: string, n: nat)
    requires IsOpening(got + (up + rest)) && n <= |up|
    ensures OpeningPart(got + up[..n])
    ensures OPENING <= got + up[..n] <==> |got + up[..n]| >= |OPENING|
    ensures OPENING <= got + up[..n] ==> forall i :: 0 <= i < |up[n..] + rest| ==> (up[n..] + rest)[i] == KEEP_ALIVE
    ensures got + up[..n] + (up[n..] + rest) == got + (up + rest)
  {
    hide OPENING;
    var x := got + (up + rest);
    assert got + up[..n] == x[..|got| + n];
    OpeningPartIs(got + up[..n]);
    assert up[n..] + rest == x[|got| + n..];
  }

  lemma {:induction false} PingsRun(s: string)
    requires forall i :: 0 <= i < |s| ==> s[i] == KEEP_ALIVE
    ensures Runs(ServerStep, READY, s, READY, [])
  {
    hide Runs;
    if s == "" {
      RunsNothing(ServerStep, READY);
    } else {
      var n := |s| - 1;
      assert s == s[..n] + [KEEP_ALIVE];
      PingsRun(s[..n]);
      PingRun();
      RunsThen(ServerStep, READY, s[..n], READY, [], [KEEP_ALIVE], READY, []);
      var none: seq<Event> := [];
      assert none + none == none;
    }
  }

  /** Reading before the upgrade: no frame can be lost, because the client sends none until it is active. */
  lemma HttpReadInv(h: string -> string, l: Link, n: nat, grant: bool, refusal: string)
    requires LinkInv(h, l) && l.s.phase.Http? && n <= |l.up| && IsHttpReply(refusal)
    ensures LinkInv(h, l.(up := l.up[n..], s := ServerRead(h, l.s, l.up[..n], grant, refusal)))
  {
    hide Fold;
    var got := l.s.phase.got;
    var k := l.(up := l.up[n..], s := ServerRead(h, l.s, l.up[..n], grant, refusal));
    OpeningEnds(got, l.up, l.c.sendBuf, n);
    if OPENING <= got + l.up[..n] {
      CatLast([], if grant then HANDSHAKE else refusal);
      assert [] + [HANDSHAKE] == [HANDSHAKE] && [] + [refusal] == [refusal];
      if grant {
        assert ToClient(k) == HANDSHAKE;
        HandshakeRun(HANDSHAKE);
        PingsRun(ToServer(k));
        assert Coming(k).events == [Connected];
        assert Due(h, k.c) == [Connected];
        assert Wrapped(k.s.requests) + Going(k).events == [];
        assert [Connected] + Answers(h, []) == [Connected];
      } else {
        assert ToClient(k) == refusal;
        assert refusal[0] == "HTTP/1.1 "[0];
      }
    }
  }

  /** `performRecv` and `handleWaitingRequests` of the server. */
  lemma ServerReadInv(h: string -> string, l: Link, n: nat, grant: bool, refusal: string)
    requires LinkInv(h, l) && n <= |l.up| && IsHttpReply(refusal)
    ensures LinkInv(h, l.(up := l.up[n..], s := ServerRead(h, l.s, l.up[..n], grant, refusal)))
  {
    hide Fold, HandleWaiting;
    match l.s.phase
    case Http(_) => HttpReadInv(h, l, n, grant, refusal);
    case Refused =>
      var k := l.(up := l.up[n..]);
      assert ToClient(k) == ToClient(l);
      assert forall i :: 0 <= i < |ToServer(k)| ==> ToServer(k)[i] == ToServer(l)[i + n];
    case Upgraded(mode) =>
      var r := Fold(ServerStep, mode, l.up[..n]);
      if r.stopped {
        StoppedReadInv(h, l, n);
      } else {
        UpgradedReadInv(h, l, n);
        var k := l.(up := l.up[n..], s := l.s.(phase := Upgraded(r.f), requests := l.s.requests + Payloads(r.events)));
        HandleWaitingInv(h, k);
      }
  }

  lemma StoppedReadInv(h: string -> string, l: Link, n: nat)
    requires LinkInv(h, l) && l.s.phase.Upgraded? && n <= |l.up|
    requires Fold(ServerStep, l.s.phase.mode, l.up[..n]).stopped
    ensures LinkInv(h, l.(up := l.up[n..], s := l.s.(registered := false)))
  {
    var k := l.(up := l.up[n..], s := l.s.(registered := false));
    assert ToClient(k) == ToClient(l);
  }

  // ----- the client's reading

  /** What a client makes of one read: the callbacks it calls, in order, and whether it keeps the connection. */
  datatype Reading = Reading(c: Client, answers: seq<string>, kept: bool)

  /** `performRecv` on the bytes `d`. After an error the last response found is lost with the connection. */
  function ClientRead(c: Client, d: string): Reading {
    var r := Fold(ClientStep, c.mode, d);
    var found := Payloads(r.events);
    var answers := if r.stopped && found != [] then found[..|found| - 1] else found;
    var taken := if |answers| <= |c.sent| then |answers| else |c.sent|;
    Reading(c.(mode := r.f, active := c.active || Connected in r.events, sent := c.sent[taken..]), answers, !r.stopped)
  }

  /** The answers to requests, in order. */
  function AnswerList(h: string -> string, sent: seq<Request>): (ds: seq<string>)
    ensures |ds| == |sent| && forall i :: 0 <= i < |sent| ==> ds[i] == h(sent[i].data)
  {
    seq(|sent|, i requires 0 <= i < |sent| => h(sent[i].data))
  }

  lemma DueIsAnswers(h: string -> string, c: Client)
    ensures Due(h, c) == Announced(!c.active) + Wrapped(AnswerList(h, c.sent))
  {}

  lemma PayloadsLast(es: seq<Event>, e: Event)
    ensures Payloads(es + [e]) == Payloads(es) + (match e case Connected => [] case Message(d) => [d])
  {
    assert (es + [e])[..|es|] == es;
  }

  lemma PayloadsAnnounced(connected: bool)
    ensures Payloads(Announced(connected) + []) == []
  {
    PayloadsLast([], Connected);
    assert [] + [Connected] == [Connected];
    assert Announced(connected) + [] == Announced(connected);
  }

  lemma WrappedLast(es: seq<Event>, ds: seq<string>)
    requires ds != []
    ensures var n := |ds| - 1; es + Wrapped(ds) == es + Wrapped(ds[..n]) + [Message(ds[n])]
  {}

  lemma {:induction false} PayloadsOf(connected: bool, ds: seq<string>)
    ensures Payloads(Announced(connected) + Wrapped(ds)) == ds
  {
    if ds == [] {
      PayloadsAnnounced(connected);
      assert Wrapped(ds) == [];
    } else {
      hide *;
      var n := |ds| - 1;
      PayloadsOf(connected, ds[..n]);
      WrappedLast(Announced(connected), ds);
      PayloadsLast(Announced(connected) + Wrapped(ds[..n]), Message(ds[n]));
    }
  }

  /** A beginning of what is owed announces the connection first, if that is owed, and then answers in order. */
  lemma BeginningOfDue(connected: bool, events: seq<Event>, ds: seq<string>) returns (k: nat)
    requires events <= Announced(connected) + Wrapped(ds)
    ensures k <= |ds| && Payloads(events) == ds[..k]
    ensures (Connected in events) == (connected && events != [])
    ensures events == Announced(connected && events != []) + Wrapped(ds[..k])
  {
    var a := |Announced(connected)|;
    k := if events == [] then 0 else |events| - a;
    var all := Announced(connected) + Wrapped(ds);
    assert events == all[..|events|];
    assert events == Announced(connected && events != []) + Wrapped(ds[..k]);
    PayloadsOf(connected && events != [], ds[..k]);
    assert Announced(connected && events != []) <= events;
  }

  /** Reading keeps what is owed in step with what is on its way, and every answer read is the right one. */
  lemma ClientReadInv(h: string -> string, l: Link, n: nat)
    requires LinkInv(h, l) && n <= |l.down|
    ensures var r := ClientRead(l.c, l.down[..n]);
      && |r.answers| <= |l.c.sent| && r.answers == AnswerList(h, l.c.sent)[..|r.answers|]
      && r.c.sent == l.c.sent[|r.answers|..] && r.c.sendBuf == l.c.sendBuf
      && (r.kept ==> LinkInv(h, l.(c := r.c, down := l.down[n..])))
  {
    hide Fold, Payloads;
    match l.s.phase
    case Http(_) =>
      assert l.down[..n] == "" && l.down[n..] == "";
      ReadNothing(l.c);
    case Refused => RefusedReadInv(h, l, n);
    case Upgraded(_) => UpgradedReadByClient(h, l, n);
  }

  lemma ReadNothing(c: Client)
    ensures ClientRead(c, "") == Reading(c, [], true)
  {
    assert Fold(ClientStep, c.mode, "") == Result(c.mode, [], 0, false);
    assert c.sent[0..] == c.sent;
  }

  /** A refused client never gets past the handshake. */
  lemma RefusedRead(c: Client, d: string)
    requires !c.active && c.sent == [] && c.mode.Handshaking? && |c.mode.got| < |HANDSHAKE|
    requires c.mode.got + d == "" || (c.mode.got + d)[0] == 'H'
    ensures var r := ClientRead(c, d);
      && r.answers == [] && r.c == c.(mode := r.c.mode)
      && (r.kept ==> r.c.mode == Handshaking(c.mode.got + d) && |c.mode.got + d| < |HANDSHAKE|)
  {
    NoHandshake(c.mode.got, d);
    hide Fold;
  }

  lemma RefusedReadInv(h: string -> string, l: Link, n: nat)
    requires LinkInv(h, l) && l.s.phase.Refused? && n <= |l.down|
    ensures var r := ClientRead(l.c, l.down[..n]);
      && r.answers == [] && r.c.sent == l.c.sent && r.c.sendBuf == l.c.sendBuf
      && (r.kept ==> LinkInv(h, l.(c := r.c, down := l.down[n..])))
  {
    hide ClientRead, Cat;
    var d := l.down[..n];
    var got := l.c.mode.got;
    assert l.down == d + l.down[n..];
    assert got + ToClient(l) == got + d + (l.down[n..] + l.s.sendBuf + Cat(l.s.resps) + Cat(l.s.outq));
    RefusedRead(l.c, d);
    var m := l.(c := ClientRead(l.c, d).c, down := l.down[n..]);
    assert ToServer(m) == ToServer(l);
  }

  /** Bytes that do not begin like the handshake are taken silently until there are enough of them to tell. */
  lemma {:induction false} NoHandshake(got: string, d: string)
    requires |got| < |HANDSHAKE| && (got + d == "" || (got + d)[0] == 'H')
    ensures var r := Fold(ClientStep, Handshaking(got), d);
      r.events == [] && (!r.stopped ==> |got + d| < |HANDSHAKE| && r.f == Handshaking(got + d))
  {
    if d == "" {
      assert got + d == got;
    } else {
      var n := |d| - 1;
      assert d == d[..n] + [d[n]] && got + d == got + d[..n] + [d[n]];
      NoHandshake(got, d[..n]);
    }
  }

  /** Exactly the handshake takes the client out of its handshaking mode. */
  lemma {:induction false} ClientModes(m: Mode, d: string)
    ensures var r := Fold(ClientStep, m, d);
      !r.stopped ==> (r.f.Handshaking? <==> m.Handshaking? && Connected !in r.events)
  {
    if d != "" {
      var n := |d| - 1;
      ClientModes(m, d[..n]);
      var r := Fold(ClientStep, m, d[..n]);
      if !r.stopped {
        ClientMode(r.f, d[n]);
        hide ClientStep;
      }
    }
  }

  lemma ClientMode(m: Mode, ch: char)
    ensures var o := ClientStep(m, ch);
      o.verdict != Reject ==> (o.f.Handshaking? <==> m.Handshaking? && Connected !in o.events)
  {}

  /** Taking `k` answers off what is owed. */
  lemma DueAfter(h: string -> string, c: Client, events: seq<Event>, k: nat, d: Client)
    requires k <= |c.sent| && events == Announced(!c.active && events != []) + Wrapped(AnswerList(h, c.sent)[..k])
    requires d.active == (c.active || (!c.active && events != [])) && d.sent == c.sent[k..]
    requires !c.active ==> c.sent == []
    ensures Due(h, c) == events + Due(h, d) && (!d.active ==> d.sent == [])
  {
    DueIsAnswers(h, c);
    DueIsAnswers(h, d);
    hide Due;
    var ds := AnswerList(h, c.sent);
    assert AnswerList(h, d.sent) == ds[k..];
    assert ds == ds[..k] + ds[k..];
    WrappedConcat(ds[..k], ds[k..]);
    hide Wrapped, AnswerList;
    assert Announced(!c.active) + (Wrapped(ds[..k]) + Wrapped(ds[k..])) ==
           events + (Announced(!d.active) + Wrapped(ds[k..]));
  }

  /** What has been read is gone from both sides. */
  lemma DueRest(first: seq<Event>, coming: seq<Event>, more: seq<Event>, due: seq<Event>)
    ensures first + coming <= first + due ==> coming <= due
    ensures (first + coming) + more <= first + due ==> coming + more <= due
    ensures (first + coming) + more == first + due ==> coming + more == due
  {
    assert (first + coming) + more == first + (coming + more);
    PrefixRest(first, coming, due);
    PrefixRest(first, coming + more, due);
  }

  lemma PrefixRest(first: seq<Event>, a: seq<Event>, b: seq<Event>)
    ensures first + a <= first + b ==> a <= b
    ensures first + a == first + b ==> a == b
  {
    assert a == (first + a)[|first|..] && b == (first + b)[|first|..];
    if first + a <= first + b {
      assert (first + b)[..|first + a|] == first + a;
      assert b[..|a|] == (first + b)[|first|..|first| + |a|];
    }
  }

  /** The invariant after a read that has taken `events` off what is coming and off what is owed. */
  lemma UpgradedAfterRead(h: string -> string, l: Link, m: Link, events: seq<Event>)
    requires l.s.phase.Upgraded? && m.s == l.s && UpgradedInv(h, l) && ToServer(m) == ToServer(l)
    requires Coming(l).stopped == Coming(m).stopped && Coming(l).f == Coming(m).f
    requires Coming(l).events == events + Coming(m).events && Due(h, l.c) == events + Due(h, m.c)
    requires (m.c.mode.Handshaking? <==> !m.c.active) && (!m.c.active ==> m.c.sent == [])
    ensures UpgradedInv(h, m)
  {
    hide Fold, Answers, Wrapped, Due, Coming, ToServer;
    DueRest(events, Coming(m).events, Answers(h, Wrapped(l.s.requests) + Going(l).events), Due(h, m.c));
  }

  /** What the client has read was coming, and what is left of it is still coming. */
  lemma ReadComing(l: Link, n: nat)
    requires n <= |l.down|
    ensures var r := Fold(ClientStep, l.c.mode, l.down[..n]);
      var m := l.(c := ClientRead(l.c, l.down[..n]).c, down := l.down[n..]);
      && r.events <= Coming(l).events
      && ToServer(m) == ToServer(l)
      && (!r.stopped ==>
          && Coming(l).stopped == Coming(m).stopped && Coming(l).f == Coming(m).f
          && Coming(l).events == r.events + Coming(m).events)
  {
    hide Fold, Payloads;
    var d := l.down[..n];
    var rest := l.down[n..] + l.s.sendBuf + Cat(l.s.resps) + Cat(l.s.outq);
    assert l.down == d + l.down[n..];
    assert ToClient(l) == d + rest;
    FoldConcat(ClientStep, l.c.mode, d, rest);
  }

  /** The answers found are the ones owed, and the client is owed the others. */
  lemma ReadDue(h: string -> string, c: Client, d: string)
    requires (c.mode.Handshaking? <==> !c.active) && (!c.active ==> c.sent == [])
    requires Fold(ClientStep, c.mode, d).events <= Due(h, c)
    ensures var r := ClientRead(c, d);
      && |r.answers| <= |c.sent| && r.answers == AnswerList(h, c.sent)[..|r.answers|]
      && r.c.sent == c.sent[|r.answers|..] && r.c.sendBuf == c.sendBuf
      && (r.kept ==>
          && Due(h, c) == Fold(ClientStep, c.mode, d).events + Due(h, r.c)
          && (r.c.mode.Handshaking? <==> !r.c.active) && (!r.c.active ==> r.c.sent == []))
  {
    hide Fold, Payloads, Wrapped, Due, AnswerList;
    var r := Fold(ClientStep, c.mode, d);
    DueIsAnswers(h, c);
    var ds := AnswerList(h, c.sent);
    var k := BeginningOfDue(!c.active, r.events, ds);
    if !r.stopped {
      assert ClientRead(c, d).answers == ds[..k];
      ClientModes(c.mode, d);
      DueAfter(h, c, r.events, k, ClientRead(c, d).c);
    }
  }

  lemma UpgradedReadByClient(h: string -> string, l: Link, n: nat)
    requires LinkInv(h, l) && l.s.phase.Upgraded? && n <= |l.down|
    ensures var r := ClientRead(l.c, l.down[..n]);
      && |r.answers| <= |l.c.sent| && r.answers == AnswerList(h, l.c.sent)[..|r.answers|]
      && r.c.sent == l.c.sent[|r.answers|..] && r.c.sendBuf == l.c.sendBuf
      && (r.kept ==> LinkInv(h, l.(c := r.c, down := l.down[n..])))
  {
    hide Fold, Due, AnswerList, Going, ClientRead, Answers, Wrapped, ToServer;
    var d := l.down[..n];
    ReadComing(l, n);
    assert UpgradedInv(h, l);
    var events := Fold(ClientStep, l.c.mode, d).events;
    PrefixOf(events, Coming(l).events, Due(h, l.c));
    ReadDue(h, l.c, d);
    var r := ClientRead(l.c, d);
    if r.kept {
      KeptRead(l.c, d);
      var m := l.(c := r.c, down := l.down[n..]);
      hide UpgradedInv, Coming;
      UpgradedAfterRead(h, l, m, events);
    }
  }

  lemma PrefixOf(a: seq<Event>, b: seq<Event>, c: seq<Event>)
    requires a <= b && b <= c
    ensures a <= c
  {}

  lemma KeptRead(c: Client, d: string)
    ensures ClientRead(c, d).kept == !Fold(ClientStep, c.mode, d).stopped
  {}
}
