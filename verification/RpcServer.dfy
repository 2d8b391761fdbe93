/**
 The server's two classes on the path of the binary protocol. A connection runs the HTTP parser until
 its upgrade request is complete and the protocol's own parser afterwards; the server keeps two queues of
 responses for all its connections. Each operation is proved to be a step of the system, or two, on the
 link of its connection, and to leave every other link as it is.
 */
module RpcServer {
  import opened Machine
  import opened BinFraming
  import opened BinParsers
  import opened RpcLink
  import opened RpcSystem
  import RpcOpening
  import HttpTypes
  import HttpStep
  import HttpInvariant
  import HttpParser

  // ----- what the HTTP parser tells the connection

  /** A callback for a complete message, or for complete headers, is called exactly if the trace contains one. */
  lemma {:induction false} FinishedIn(calls: seq<HttpParser.Callback>)
    ensures HttpParser.OnMessageComplete in calls <==> HttpTypes.Complete in HttpParser.Flatten(calls)
    ensures HttpParser.OnHeadersComplete in calls <==> HttpTypes.HeadersComplete in HttpParser.Flatten(calls)
  {
    if calls != [] {
      FinishedIn(calls[..|calls| - 1]);
    }
  }

  /** The parser has taken `got`, a part of the opening, and found no complete message. */
  ghost predicate Parsing(f: HttpTypes.Fields, got: string) {
    && got < OPENING
    && Runs(HttpStep.Step, HttpTypes.INIT, got, f, HttpStep.Run(HttpTypes.INIT, got).events)
    && HttpTypes.Complete !in HttpStep.Run(HttpTypes.INIT, got).events
    && f.errno == HttpTypes.Ok && HttpInvariant.Inv(f)
  }

  lemma ParsingNothing()
    ensures Parsing(HttpTypes.INIT, "")
  {}

  /** After the opening has been answered with a refusal, keep-alives never make another request. */
  ghost predicate Refusing(f: HttpTypes.Fields) {
    f.errno != HttpTypes.Ok || (f.state.StartReq? && HttpInvariant.Inv(f))
  }

  lemma {:induction false} KeepAlivesRejected(f: HttpTypes.Fields, d: string)
    requires Refusing(f) && d != "" && f.errno == HttpTypes.Ok && forall c :: c in d ==> c == KEEP_ALIVE
    ensures var r := HttpStep.Run(f, d); r.f.errno != HttpTypes.Ok && r.stopped && r.events == []
  {
    var n := |d| - 1;
    if n > 0 {
      assert forall c :: c in d[..n] ==> c in d;
      KeepAlivesRejected(f, d[..n]);
    } else {
      assert d[0] in d && d == [KEEP_ALIVE];
      FoldOne(HttpStep.Step, f, KEEP_ALIVE);
    }
  }

  /** One buffer more of the opening: a message is complete exactly when the opening is. */
  lemma OpeningBuffer(f: HttpTypes.Fields, got: string, d: string)
    requires Parsing(f, got) && OpeningPart(got + d)
    ensures var r := HttpStep.Run(f, d);
      && r.f.errno == HttpTypes.Ok
      && (HttpTypes.Complete in r.events <==> OPENING <= got + d)
      && (HttpTypes.HeadersComplete in r.events ==> OPENING <= got + d)
      && (OPENING <= got + d ==> Refusing(r.f) && HttpStep.ShouldKeepAlive(r.f))
      && (!(OPENING <= got + d) ==> Parsing(r.f, got + d))
  {
    hide HttpStep.Step, HttpInvariant.Inv, Fold, OPENING;
    FoldConcat(HttpStep.Step, HttpTypes.INIT, got, d);
    OpeningPartIs(got + d);
    HttpInvariant.RunInv(f, d);
    if OPENING <= got + d {
      var _ := RpcOpening.OpeningFinished(got + d);
    } else {
      RpcOpening.OpeningUnfinished(got + d);
    }
  }

  /** In every state of a link, what the server reads next is what its connection can take. */
  lemma ServerExpects(h: string -> string, l: Link, n: nat)
    requires LinkInv(h, l) && n <= |l.up|
    ensures match l.s.phase
      case Http(got) => OpeningPart(got + l.up[..n])
      case Refused => forall c :: c in l.up[..n] ==> c == KEEP_ALIVE
      case Upgraded(_) => true
  {
    hide OPENING, Fold;
    match l.s.phase
    case Http(got) =>
      var x := got + ToServer(l);
      assert got + l.up[..n] == x[..|got| + n];
    case Refused => assert forall i :: 0 <= i < n ==> l.up[..n][i] == ToServer(l)[i];
    case Upgraded(_) =>
  }

  // ----- a connection

  /** What a `send` takes at most. */
  function Amount(send: Send): nat { if send.Sent? then send.n else 0 }

  /**
   `HttpConnection`; the custom parser exists once the connection has been upgraded. `key` is the link's,
   at whose other end the connection is; its socket has a number of the server's own.
   */
  class HttpConnection {
    const sock: nat
    ghost const key: nat
    const parser: HttpParser.HttpParser
    var customParser: ServerParser?
    var customRequests: seq<string>
    var waitingLastHandling: bool
    var resps: seq<string>
    var sendBuffer: string
    var everSent: bool
    var keepAlive: bool
    var alive: bool
    ghost var got: string
    ghost var refused: bool

    ghost predicate Valid()
      reads `customParser, `customRequests, `waitingLastHandling, `got, `refused, parser, customParser
    {
      if customParser != null then customParser.Drained()
      else
        && customRequests == []
        && if refused then Refusing(parser.f) else Parsing(parser.f, got) && !waitingLastHandling
    }

    ghost function PhaseOf(): Phase
      reads `customParser, `got, `refused, customParser
    {
      if customParser != null then Upgraded(customParser.Owed().f) else if refused then Refused else Http(got)
    }

    /** The server's half of the link, with what the server's tables say about the connection. */
    ghost function Abs(outq: seq<string>, registered: bool): (s: Server)
      reads this, customParser
      ensures s.requests == customRequests && s.waiting == waitingLastHandling && s.outq == outq
      ensures s.resps == resps && s.sendBuf == sendBuffer && s.registered == registered && s.phase == PhaseOf()
    {
      Server(PhaseOf(), customRequests, waitingLastHandling, outq, resps, sendBuffer, registered)
    }

    constructor (sock: nat, ghost key: nat)
      ensures Valid() && fresh(parser) && this.sock == sock && this.key == key && customParser == null
      ensures Abs([], true) == NEW_SERVER && keepAlive && alive && !everSent
    {
      this.sock := sock;
      this.key := key;
      parser := new HttpParser.HttpParser();
      customParser := null;
      customRequests, waitingLastHandling, resps, sendBuffer := [], false, [], "";
      everSent, keepAlive, alive := false, true, true;
      got, refused := "", false;
      new;
      ParsingNothing();
    }

    /** The connection's parsers. */
    ghost function Parsers(): set<object>
      reads this
    {
      {parser} + if customParser == null then {} else {customParser}
    }

    /** Before the upgrade a client sends its opening and keep-alives. */
    ghost predicate Expects(d: string)
      reads this
    {
      customParser == null ==> if refused then forall c :: c in d ==> c == KEEP_ALIVE else OpeningPart(got + d)
    }

    method StopWaiting()
      modifies this`waitingLastHandling
      ensures !waitingLastHandling
      ensures old(Valid()) ==> Valid()
    {
      waitingLastHandling := false;
    }

    /** `notDead`; `late` says that the time is up that an idle connection is given. */
    predicate NotDead(late: bool)
      reads this
    {
      alive && !late
    }

    method AddResponse(dump: string)
      modifies this`resps
      ensures resps == old(resps) + [dump]
      ensures old(Valid()) ==> Valid()
    {
      resps := resps + [dump];
    }

    /** The call of `send` and what follows it. */
    method SendBuffer(send: Send) returns (wire: string, done: bool)
      modifies this`sendBuffer, this`everSent, this`alive
      ensures var k := if Amount(send) <= |old(sendBuffer)| then Amount(send) else |old(sendBuffer)|;
        && wire == old(sendBuffer)[..k] && sendBuffer == old(sendBuffer)[k..]
        && done == (wire != "" && sendBuffer == "")
        && everSent && alive == (old(alive) && !send.Broken?)
    {
      everSent := true;
      match send {
        case Sent(n) =>
          var k := if n <= |sendBuffer| then n else |sendBuffer|;
          wire := sendBuffer[..k];
          sendBuffer := sendBuffer[k..];
          done := wire != "" && sendBuffer == "";
        case Again =>
          wire, done := "", false;
        case Broken =>
          wire, done, alive := "", false, false;
      }
    }

    /**
     The response under way goes out, or the next one, as far as `send` lets it; the bytes sent are
     returned. It is done when there was something to send and nothing of it is left. A connection that is
     not to be kept alive dies behind its first response instead, and any does when sending fails.
     */
    method PerformSend(send: Send) returns (wire: string, done: bool)
      modifies this`resps, this`sendBuffer, this`everSent, this`alive
      ensures var n := Amount(send);
        if old(everSent && !keepAlive && sendBuffer == "") then
          !alive && !done && wire == "" && everSent && resps == old(resps) && sendBuffer == old(sendBuffer)
        else
          && Sends(old(Abs([], true)), n, wire, Abs([], true))
          && done == old(SentWhole(Abs([], true), n))
          && everSent == old(everSent || ToSend()) && alive == old(alive && !(ToSend() && send.Broken?))
      ensures old(Valid()) ==> Valid()
    {
      hide Valid, PhaseOf;
      wire, done := "", false;
      if sendBuffer == "" {
        if everSent && !keepAlive {
          alive := false;
          return;
        }
        if resps == [] {
          return;
        }
        sendBuffer, resps := resps[0], resps[1..];
      }
      wire, done := SendBuffer(send);
    }

    ghost predicate ToSend()
      reads this
    {
      sendBuffer != "" || resps != []
    }

    /**
     The HTTP half of `performRecv`. `finished` says that a request is complete, which happens at the last
     byte of the opening and never again, whatever pieces it arrives in. Its headers are complete with the
     same byte; they say whether the connection is to be kept alive.
     */
    method ParseHttp(d: string) returns (finished: bool)
      requires Valid() && customParser == null && Expects(d)
      modifies parser, this`got, this`keepAlive
      ensures old(keepAlive) ==> keepAlive
      ensures finished == (!old(refused) && OPENING <= old(got) + d)
      ensures !finished && !refused ==> Valid() && got == old(got) + d
      ensures refused ==> Valid() && got == old(got)
      ensures finished ==> Refusing(parser.f)
    {
      hide HttpStep.Step, HttpInvariant.Inv, Fold, OPENING, HttpParser.Flatten, HttpStep.ShouldKeepAlive;
      finished := false;
      if d == "" {
        assert got + d == got;
        return;
      }
      ghost var f := parser.f;
      if refused {
        if f.errno == HttpTypes.Ok {
          KeepAlivesRejected(f, d);
        }
      } else {
        OpeningBuffer(f, got, d);
        got := got + d;
      }
      var nparsed, calls := parser.Execute(d);
      if HttpParser.OnHeadersComplete in calls {
        keepAlive := HttpStep.ShouldKeepAlive(parser.f);
      }
      finished := HttpParser.OnMessageComplete in calls;
      FinishedIn(calls);
    }

    /** The other half: the requests found are queued. It fails when the protocol's parser throws. */
    method ParseCustom(d: string) returns (fine: bool)
      requires Valid() && customParser != null
      modifies this`customRequests, customParser
      ensures var r := Fold(ServerStep, old(customParser.Owed().f), d);
        && fine == !r.stopped
        && (fine ==>
            Valid() && PhaseOf() == Upgraded(r.f) && customRequests == old(customRequests) + Payloads(r.events))
    {
      hide Fold;
      var requests;
      requests, fine := customParser.Receive(d);
      PayloadsWrapped(requests);
      customRequests := customRequests + requests;
    }
  }

  // ----- the server

  /** An entry of `m_resp_queue` or `m_custom_resp_queue`. */
  datatype Reply = Reply(conn: HttpConnection, dump: string)

  /** The responses in the queue that are for `conn`. */
  function QueuedFor(queue: seq<Reply>, conn: HttpConnection): seq<string> {
    if queue == [] then []
    else (if queue[0].conn == conn then [queue[0].dump] else []) + QueuedFor(queue[1..], conn)
  }

  lemma {:induction false} QueuedForLast(queue: seq<Reply>, r: Reply, conn: HttpConnection)
    ensures QueuedFor(queue + [r], conn) == QueuedFor(queue, conn) + (if r.conn == conn then [r.dump] else [])
  {
    if queue == [] {
      assert queue + [r] == [r] && [r][1..] == [];
    } else {
      assert (queue + [r])[1..] == queue[1..] + [r] && (queue + [r])[0] == queue[0];
      QueuedForLast(queue[1..], r, conn);
      var first := if queue[0].conn == conn then [queue[0].dump] else [];
      var last := if r.conn == conn then [r.dump] else [];
      assert first + (QueuedFor(queue[1..], conn) + last) == first + QueuedFor(queue[1..], conn) + last;
    }
  }

  lemma {:induction false} QueuedForConcat(a: seq<Reply>, b: seq<Reply>, conn: HttpConnection)
    ensures QueuedFor(a + b, conn) == QueuedFor(a, conn) + QueuedFor(b, conn)
  {
    if b == [] {
      assert a + b == a;
    } else {
      var n := |b| - 1;
      assert a + b == a + b[..n] + [b[n]] && b == b[..n] + [b[n]];
      QueuedForConcat(a, b[..n], conn);
      QueuedForLast(a + b[..n], b[n], conn);
      QueuedForLast(b[..n], b[n], conn);
    }
  }

  /** A response that joins the first of two queues. */
  lemma QueuedForInserted(a: seq<Reply>, r: Reply, b: seq<Reply>, conn: HttpConnection)
    ensures QueuedFor(a + [r] + b, conn) ==
      QueuedFor(a, conn) + (if r.conn == conn then [r.dump] else []) + QueuedFor(b, conn)
    ensures QueuedFor(a + b, conn) == QueuedFor(a, conn) + QueuedFor(b, conn)
  {
    QueuedForLast(a, r, conn);
    QueuedForConcat(a + [r], b, conn);
    QueuedForConcat(a, b, conn);
  }

  /** Before the upgrade the server has no response for a connection. */
  lemma NothingWaits(h: string -> string, l: Link)
    requires LinkInv(h, l)
    ensures l.s.phase.Http? ==> l.s.outq == []
  {}

  /**
   What a connection of the server is to the server's half of its link. Of a connection that is no longer
   registered nothing counts but what is still to be sent.
   */
  predicate Same(v: Server, s: Server) {
    if s.registered then v == s
    else !v.registered && v.outq == s.outq && v.resps == s.resps && v.sendBuf == s.sendBuf
  }

  /** `conn`, with what the server's tables say about it, is the server's half of the link `l`. */
  ghost predicate Serves(h: string -> string, conn: HttpConnection, outq: seq<string>, registered: bool, l: Link)
    reads conn, conn.parser, conn.customParser
  {
    LinkInv(h, l) && Same(conn.Abs(outq, registered), l.s) && (registered ==> conn.Valid())
  }

  /**
   `HttpServer` with its handlers, which answer at once. `links` are the links of all connections it has
   ever accepted, those included that their clients have given up; `ends` says which connection is at the
   end of a link of the system, and `accepted` lists the connections.
   */
  class HttpServer {
    const handler: string -> string
    var reading: map<nat, HttpConnection>
    var respQueue: seq<Reply>
    var customQueue: seq<Reply>
    ghost var links: map<HttpConnection, Link>
    ghost var ends: map<nat, HttpConnection>
    ghost var accepted: seq<HttpConnection>

    /** A connection with a queued response keeps its socket open, so that no other connection has its number. */
    ghost predicate Valid()
      reads this, links.Keys
    {
      && (forall s :: s in reading ==> reading[s] in links && reading[s].sock == s)
      && (forall r :: r in Queue() ==> r.conn in links && (r.conn.sock in reading ==> reading[r.conn.sock] == r.conn))
      && (forall a, b :: a in links && b in links && a != b ==>
            a.parser != b.parser && (a.customParser == null || a.customParser != b.customParser))
      && (forall c :: c in links ==> c in accepted && c.keepAlive)
    }

    /** All queued responses, in the order in which they are taken to their connections. */
    function Queue(): seq<Reply>
      reads `respQueue, `customQueue
    {
      respQueue + customQueue
    }

    ghost predicate Registered(conn: HttpConnection)
      reads this
    {
      conn.sock in reading && reading[conn.sock] == conn
    }

    /** The connection with what the server's tables say about it. */
    ghost function View(conn: HttpConnection): Server
      reads this, conn, conn.customParser
    {
      conn.Abs(QueuedFor(Queue(), conn), Registered(conn))
    }

    /** The objects of the server's connections. */
    ghost function Objects(): set<object>
      reads this, links.Keys
    {
      links.Keys + (set c | c in links :: c.parser) + (set c | c in links && c.customParser != null :: c.customParser)
    }

    ghost predicate AllServe()
      reads this, Objects()
    {
      forall c :: c in links ==> Serves(handler, c, QueuedFor(Queue(), c), Registered(c), links[c])
    }

    /** Every link of `t` has its connection. */
    ghost predicate Reaches(t: System)
      reads this
    {
      forall k :: k in t.links ==>
        k in ends && ends[k] in links && ends[k].key == k && links[ends[k]] == t.links[k]
    }

    /** The server is the server's side of the system `t`. */
    ghost predicate Shows(t: System)
      reads this, Objects()
    {
      Valid() && AllServe() && Reaches(t)
    }

    /** The connection is at the end of a link of `t`. */
    ghost predicate Live(conn: HttpConnection, t: System)
      reads this
    {
      conn.key in t.links && conn.key in ends && ends[conn.key] == conn
    }

    constructor (handler: string -> string)
      ensures Shows(RpcSystem.INIT) && this.handler == handler && reading == map[] && Queue() == [] && links == map[]
    {
      this.handler := handler;
      reading, respQueue, customQueue, links, ends, accepted := map[], [], [], map[], map[], [];
    }

    /** The responses queued for every other connection are as they were; nothing else of them is modified. */
    twostate predicate OthersQueued(conn: HttpConnection)
      reads this
    {
      links == old(links) && forall c :: c in links && c != conn ==> QueuedFor(Queue(), c) == old(QueuedFor(Queue(), c))
    }

    /** `onSendCustomResponse`: what is for a connection that is gone is dropped. */
    method SendCustomResponse(conn: HttpConnection, dump: string)
      requires Valid() && conn in links
      modifies this`customQueue
      ensures Valid()
      ensures View(conn).outq == old(View(conn)).outq + (if Registered(conn) then [dump] else [])
      ensures OthersQueued(conn)
      ensures Queue() == old(Queue()) + (if Registered(conn) then [Reply(conn, dump)] else [])
    {
      hide QueuedFor;
      assert Queue() + [] == Queue();
      if conn.sock in reading && reading[conn.sock] == conn {
        forall c
          ensures QueuedFor(Queue() + [Reply(conn, dump)], c) ==
            QueuedFor(Queue(), c) + (if conn == c then [dump] else [])
        {
          QueuedForLast(Queue(), Reply(conn, dump), c);
        }
        ghost var before := Queue();
        customQueue := customQueue + [Reply(conn, dump)];
        assert Queue() == before + [Reply(conn, dump)];
      }
    }

    /** `onSendResponse`: a plain response goes out before all others that are queued. */
    method SendResponse(conn: HttpConnection, dump: string)
      requires Valid() && conn in links
      modifies this`respQueue
      ensures Valid() && OthersQueued(conn)
      ensures View(conn).outq ==
        old(QueuedFor(respQueue, conn)) + (if Registered(conn) then [dump] else []) + QueuedFor(customQueue, conn)
    {
      hide QueuedFor;
      if conn.sock in reading && reading[conn.sock] == conn {
        forall c
          ensures QueuedFor(respQueue + [Reply(conn, dump)] + customQueue, c) ==
            QueuedFor(respQueue, c) + (if conn == c then [dump] else []) + QueuedFor(customQueue, c)
          ensures QueuedFor(Queue(), c) == QueuedFor(respQueue, c) + QueuedFor(customQueue, c)
        {
          QueuedForInserted(respQueue, Reply(conn, dump), customQueue, c);
        }
        respQueue := respQueue + [Reply(conn, dump)];
      } else {
        QueuedForConcat(respQueue, customQueue, conn);
      }
    }

    /** The next request in the connection's queue goes to the handler, unless one is still being answered. */
    method HandleWaitingRequests(conn: HttpConnection)
      requires Valid() && conn in links
      modifies this`customQueue, conn`waitingLastHandling, conn`customRequests
      ensures Valid() && OthersQueued(conn)
      ensures View(conn) == HandleWaiting(handler, old(View(conn)))
      ensures old(conn.Valid()) ==> conn.Valid()
      ensures |Queue()| >= |old(Queue())| && Queue()[..|old(Queue())|] == old(Queue())
      ensures |Queue()| <= |old(Queue())| + Handled(Registered(conn), old(conn.customRequests), conn.customRequests)
    {
      hide ServerParser.Owed, ServerParser.Drained, Parsing, Refusing, Frame, QueuedFor, Queue;
      ghost var before := View(conn);
      assert before.outq + [] == before.outq;
      if !conn.waitingLastHandling && conn.customRequests != [] {
        conn.waitingLastHandling := true;
        var request := conn.customRequests[0];
        conn.customRequests := conn.customRequests[1..];
        SendCustomResponse(conn, Frame(handler(request)));
      }
    }

    /** `killConnection`. */
    method KillConnection(sock: nat)
      requires Valid()
      modifies this`reading
      ensures Valid() && reading == old(reading) - {sock}
    {
      reading := reading - {sock};
    }

    /**
     A complete opening: `checkUpgrade` grants it, with the protocol's parser and the handshake, or the
     handler of plain requests answers it.
     */
    method AnswerOpening(conn: HttpConnection, grant: bool, refusal: string)
      requires Valid() && conn in links && Registered(conn) && conn.customParser == null && !conn.refused
      requires Refusing(conn.parser.f) && conn.customRequests == [] && QueuedFor(Queue(), conn) == []
      modifies this`respQueue, this`customQueue, conn`customParser, conn`waitingLastHandling, conn`refused
      ensures Valid() && conn.Valid() && OthersQueued(conn)
      ensures var s := old(View(conn));
        View(conn) ==
          if grant then s.(phase := Upgraded(READY), outq := s.outq + [HANDSHAKE], waiting := false)
          else s.(phase := Refused, outq := s.outq + [refusal], waiting := true)
    {
      hide Fold, QueuedFor, Refusing, Parsing;
      if grant {
        conn.customParser := new ServerParser();
        SendCustomResponse(conn, HANDSHAKE);
        conn.waitingLastHandling := false;
      } else {
        conn.waitingLastHandling := true;
        conn.refused := true;
        QueuedForConcat(respQueue, customQueue, conn);
        SendResponse(conn, refusal);
      }
    }

    /** What `performRecv` has made of the bytes `d`, unless it has been given up. */
    twostate predicate Received(conn: HttpConnection, d: string, late: bool, grant: bool, refusal: string)
      requires conn in old(links)
      reads this, conn, conn.parser, conn.customParser
    {
      var s := ServerRead(handler, old(View(conn)), d, grant, refusal);
      && OthersQueued(conn)
      && if s.registered && conn.NotDead(late) then reading == old(reading) && conn.Valid() && View(conn) == s
         else
           && reading == old(reading) - {conn.sock} && QueuedFor(Queue(), conn) == old(QueuedFor(Queue(), conn))
           && conn.resps == old(conn.resps) && conn.sendBuffer == old(conn.sendBuffer)
    }

    /** The HTTP parser's share of it. */
    method ReceiveHttp(conn: HttpConnection, d: string, late: bool, grant: bool, refusal: string)
      requires Valid() && conn in links && Registered(conn) && conn.Valid() && conn.Expects(d)
      requires conn.customParser == null && (!conn.refused ==> QueuedFor(Queue(), conn) == [])
      modifies this`reading, this`respQueue, this`customQueue, conn, conn.Parsers()
      ensures Valid() && conn.alive == old(conn.alive) && Received(conn, d, late, grant, refusal)
    {
      hide Fold, QueuedFor, Refusing, Parsing, OPENING, HandleWaiting, Payloads, Queue;
      var finished := conn.ParseHttp(d);
      if !conn.NotDead(late) {
        KillConnection(conn.sock);
      } else if finished {
        AnswerOpening(conn, grant, refusal);
      }
    }

    /** The share of the protocol's own parser. */
    method ReceiveCustom(conn: HttpConnection, d: string, late: bool, grant: bool, refusal: string)
      requires Valid() && conn in links && Registered(conn) && conn.Valid() && conn.customParser != null
      modifies this`reading, this`customQueue, conn, conn.Parsers()
      ensures Valid() && conn.alive == old(conn.alive) && Received(conn, d, late, grant, refusal)
    {
      hide Fold, QueuedFor, Refusing, Parsing, OPENING, HandleWaiting, Payloads, Queue;
      var fine := conn.ParseCustom(d);
      if fine && conn.NotDead(late) {
        HandleWaitingRequests(conn);
      } else {
        KillConnection(conn.sock);
      }
    }

    /**
     `performRecv` for the bytes `d`. A connection whose parser throws, which is `lost` while it is read, or
     which is found dead afterwards, is no longer registered.
     */
    method PerformRecv(sock: nat, d: string, lost: bool, late: bool, grant: bool, refusal: string)
      requires Valid()
      requires sock in reading ==>
        && reading[sock].Valid() && reading[sock].Expects(d)
        && (reading[sock].PhaseOf().Http? ==> QueuedFor(Queue(), reading[sock]) == [])
      modifies this`reading, this`respQueue, this`customQueue
      modifies if sock in reading then {reading[sock]} + reading[sock].Parsers() else {}
      ensures Valid() && links == old(links)
      ensures sock !in old(reading) ==> reading == old(reading) && Queue() == old(Queue())
      ensures sock in old(reading) ==>
        var conn := old(reading[sock]);
        conn.alive == (old(conn.alive) && !lost) && Received(conn, d, late, grant, refusal)
    {
      hide QueuedFor, Queue, ServerRead, HttpConnection.Valid, HttpConnection.Expects;
      if sock in reading {
        var conn := reading[sock];
        if lost {
          conn.alive := false;
          KillConnection(sock);
        } else if conn.customParser == null {
          ReceiveHttp(conn, d, late, grant, refusal);
        } else {
          ReceiveCustom(conn, d, late, grant, refusal);
        }
      }
    }

    /** A connection that is found dead with its response unsent is no longer registered. */
    method PerformSend(sock: nat, send: Send, late: bool) returns (wire: string)
      requires Valid()
      modifies this`reading, if sock in reading then {reading[sock]} else {}
      ensures Valid() && Queue() == old(Queue()) && links == old(links)
      ensures sock in old(reading) ==>
        var conn := old(reading[sock]);
        var s := old(View(conn));
        && Sends(s, Amount(send), wire, View(conn).(registered := s.registered))
        && (old(conn.Valid()) ==> conn.Valid())
        && reading ==
             if !conn.NotDead(late) && !SentWhole(s, Amount(send)) then old(reading) - {sock} else old(reading)
      ensures sock !in old(reading) ==> reading == old(reading) && wire == ""
    {
      hide QueuedFor, Queue, ServerParser.Owed, ServerParser.Drained, Parsing, Refusing, Sends;
      wire := "";
      if sock in reading {
        var conn := reading[sock];
        ghost var s := View(conn);
        var done;
        wire, done := conn.PerformSend(send);
        SendsInTables(old(conn.Abs([], true)), Amount(send), wire, conn.Abs([], true), s.outq, s.registered);
        if !done && !conn.NotDead(late) {
          KillConnection(sock);
        }
      }
    }

    /** The connection is free for its next request, and a send is tried. */
    method TrySend(conn: HttpConnection, send: Send) returns (wire: string, done: bool)
      requires Valid() && conn in links
      modifies conn
      ensures Valid() && (old(conn.Valid()) ==> conn.Valid()) && conn.customRequests == old(conn.customRequests)
      ensures var s := old(View(conn)).(waiting := false);
        var l := SendDown(Link(NEW_CLIENT, "", "", s), Amount(send));
        View(conn) == l.s && wire == l.down && done == SentWhole(s, Amount(send))
    {
      hide HttpConnection.Valid, HttpConnection.PhaseOf, QueuedFor, Queue, Sends, SendDown, SentWhole, Amount;
      ghost var before := View(conn).(waiting := false);
      conn.StopWaiting();
      assert View(conn) == before;
      ghost var unsent := conn.Abs([], true);
      wire, done := conn.PerformSend(send);
      SendsInTables(unsent, Amount(send), wire, conn.Abs([], true), before.outq, before.registered);
      SendsDown(before, Amount(send), wire, View(conn));
    }

    /**
     `handleResponse`: after the send the next request is handled. If something is left unsent and the
     connection is found dead, it is no longer registered and handles nothing. `stray` says that the source
     erases what it has not found there, which is undefined.
     */
    method HandleResponse(conn: HttpConnection, send: Send, late: bool) returns (wire: string, stray: bool)
      requires Valid() && conn in links && (conn.sock in reading ==> Registered(conn))
      modifies this`customQueue, this`reading, conn
      ensures Valid() && OthersQueued(conn)
      ensures old(conn.Valid()) ==> conn.Valid()
      ensures |Queue()| >= |old(Queue())| && Queue()[..|old(Queue())|] == old(Queue())
      ensures |Queue()| <= |old(Queue())| + Handled(Registered(conn), old(conn.customRequests), conn.customRequests)
      ensures var s := old(View(conn)).(waiting := false);
        var n, dead := Amount(send), !conn.NotDead(late);
        var l := SendDown(Link(NEW_CLIENT, "", "", s), n);
        && wire == l.down && stray == (dead && !SentWhole(s, n) && conn.sock !in old(reading))
        && if dead && !SentWhole(s, n) then
             reading == old(reading) - {conn.sock} && View(conn) == l.s.(registered := false)
           else reading == old(reading) && View(conn) == HandleWaiting(handler, l.s)
    {
      hide HttpConnection.Valid, HttpConnection.PhaseOf, QueuedFor, Queue, HandleWaiting, SendDown, SentWhole, Amount;
      stray := false;
      var done;
      wire, done := TrySend(conn, send);
      if !done && !conn.NotDead(late) {
        stray := conn.sock !in reading;
        KillConnection(conn.sock);
      } else {
        HandleWaitingRequests(conn);
      }
    }

    /** The oldest response is taken off its queue; plain ones come first. */
    method Pop() returns (r: Reply)
      requires Queue() != []
      modifies this`respQueue, this`customQueue
      ensures r == old(Queue())[0] && Queue() == old(Queue())[1..]
    {
      if respQueue != [] {
        r := respQueue[0];
        respQueue := respQueue[1..];
      } else {
        r := customQueue[0];
        customQueue := customQueue[1..];
      }
    }

    /** One turn of the loops in `handleEvents`: the oldest response is taken to its connection. */
    method Turn(send: Send, late: bool) returns (wire: string, stray: bool)
      requires Valid() && Queue() != []
      modifies this`respQueue, this`customQueue, this`reading, Queue()[0].conn
      ensures Valid() && OthersQueued(old(Queue()[0].conn))
      ensures old(Queue()[0].conn.Valid()) ==> old(Queue()[0].conn).Valid()
      ensures var conn := old(Queue()[0].conn);
        var n, dead := Amount(send), !conn.NotDead(late);
        var s := old(View(conn));
        var l := ServerRepliesLink(handler, Link(NEW_CLIENT, "", "", s), n, dead);
        && View(conn) == l.s && wire == l.down
        && stray == (dead && !SentWhole(Answered(s), n) && !s.registered)
        && reading == (if dead && !SentWhole(Answered(s), n) then old(reading) - {conn.sock} else old(reading))
        && |Queue()| < |old(Queue())| + Handled(s.registered, s.requests, conn.customRequests)
    {
      hide ServerParser.Owed, HttpConnection.Valid, HandleWaiting, SendDown, SentWhole, Queue, Amount;
      assert Queue()[0] in Queue();
      var r := Pop();
      r.conn.AddResponse(r.dump);
      wire, stray := HandleResponse(r.conn, send, late);
    }

    // ----- the steps of the system

    /** The link of one connection has changed, and the others serve theirs as before. */
    ghost method Settle(conn: HttpConnection, m: Link, t: System)
      requires Valid() && Reaches(t) && conn in links
      requires forall c :: c in links && c != conn ==>
        Serves(handler, c, QueuedFor(Queue(), c), Registered(c), links[c])
      requires Serves(handler, conn, QueuedFor(Queue(), conn), Registered(conn), m)
      modifies this`links
      ensures links == old(links)[conn := m]
      ensures Shows(if Live(conn, t) then SetLink(t, conn.key, m) else t)
    {
      hide Serves, QueuedFor;
      links := links[conn := m];
    }

    lemma Apart(conn: HttpConnection)
      requires Valid() && conn in links
      ensures forall c :: c in links && c != conn ==>
        c.parser !in conn.Parsers() && (c.customParser == null || c.customParser !in conn.Parsers())
    {}

    lemma IsRegistered(conn: HttpConnection, t: System)
      requires Shows(t) && Live(conn, t)
      ensures Registered(conn) == t.links[conn.key].s.registered
    {
      hide LinkInv, HttpConnection.Valid, QueuedFor;
      assert Serves(handler, conn, QueuedFor(Queue(), conn), Registered(conn), links[conn]);
    }

    /** A connection that has responses in the server's queue, and that is the only one. */
    lemma StillQueued(conn: HttpConnection, t: System)
      requires Shows(t) && Live(conn, t) && t.links[conn.key].s.outq != [] && links.Keys == {conn}
      ensures Queue() != [] && Queue()[0].conn == conn
    {
      hide LinkInv, HttpConnection.Valid;
      assert Serves(handler, conn, QueuedFor(Queue(), conn), Registered(conn), links[conn]);
      assert Queue() != [];
      assert Queue()[0] in Queue();
    }

    /** A new connection, for which nothing is queued. */
    method NewConnection(sock: nat, ghost key: nat) returns (conn: HttpConnection)
      requires Valid()
      ensures fresh(conn) && fresh(conn.Parsers()) && conn.customParser == null && conn !in links
      ensures conn.sock == sock && conn.key == key && conn.alive && conn.keepAlive
      ensures forall c :: c in links ==> c.parser != conn.parser
      ensures Serves(handler, conn, QueuedFor(Queue(), conn), true, NEW_LINK)
    {
      hide Serves, QueuedFor, Queue, HttpConnection.Valid, HttpConnection.Abs;
      conn := new HttpConnection(sock, key);
      NewServes(handler, conn);
      NothingQueued(Queue(), conn);
    }

    /** It joins the tables. */
    method Enroll(conn: HttpConnection)
      requires Valid() && conn !in links && conn.keepAlive && conn.customParser == null && conn.sock !in reading
      requires forall c :: c in links ==> c.parser != conn.parser
      requires forall r :: r in Queue() ==> r.conn.sock != conn.sock
      modifies this`reading, this`links, this`ends, this`accepted
      ensures Valid() && ends == old(ends)[conn.key := conn] && reading == old(reading)[conn.sock := conn]
      ensures links == old(links)[conn := NEW_LINK]
    {
      hide Queue, HttpConnection.Valid, HttpConnection.Abs;
      reading := reading[conn.sock := conn];
      links, ends := links[conn := NEW_LINK], ends[conn.key := conn];
      accepted := accepted + [conn];
    }

    /** `performAccept`: a client has opened a connection. */
    method Accept(sock: nat, ghost key: nat, ghost t: System) returns (conn: HttpConnection)
      requires Shows(t) && key !in t.links && sock !in reading && forall r :: r in Queue() ==> r.conn.sock != sock
      modifies this`reading, this`links, this`ends, this`accepted
      ensures Shows(Next(handler, t, Establish(key)))
      ensures fresh(conn) && fresh(conn.Parsers()) && conn.sock == sock && conn.key == key && conn.alive
      ensures Registered(conn)
      ensures links == old(links)[conn := NEW_LINK] && ends == old(ends)[key := conn]
    {
      hide Serves, QueuedFor, Queue, Next, Valid, HttpConnection.Valid, HttpConnection.Abs;
      EstablishIs(handler, t, key);
      conn := NewConnection(sock, key);
      ghost var ls := links;
      Enroll(conn);
      forall c | c in ls
        ensures Serves(handler, c, QueuedFor(Queue(), c), Registered(c), links[c])
      {
        assert Registered(c) == old(Registered(c));
      }
      assert Reaches(SetLink(t, key, NEW_LINK));
    }

    /** One read of a registered connection, and what it serves then. */
    method ReceiveOne(conn: HttpConnection, d: string, lost: bool, late: bool, grant: bool, refusal: string)
      requires Valid() && AllServe() && conn in links && Registered(conn) && IsHttpReply(refusal) && d <= links[conn].up
      modifies this`reading, this`respQueue, this`customQueue, conn, conn.Parsers()
      ensures Valid() && links == old(links) && OthersQueued(conn) && conn.alive == (old(conn.alive) && !lost)
      ensures reading == old(reading) || reading == old(reading) - {conn.sock}
      ensures Serves(handler, conn, QueuedFor(Queue(), conn), Registered(conn),
                AfterRead(handler, links[conn], d, !conn.NotDead(late), grant, refusal))
    {
      hide Serves, QueuedFor, Queue, HttpConnection.Valid, HttpConnection.Expects, HttpConnection.Abs;
      hide HttpConnection.PhaseOf, ServerRead, ServerReadsLink, AfterRead;
      ghost var l := links[conn];
      ServesRegistered(handler, conn, QueuedFor(Queue(), conn), l);
      ReadExpected(handler, conn, l, d);
      NothingWaits(handler, l);
      hide Valid, AllServe;
      PerformRecv(conn.sock, d, lost, late, grant, refusal);
      ServesAfterRead(
        handler, conn, QueuedFor(Queue(), conn), Registered(conn), l, d, !conn.NotDead(late), grant, refusal);
    }

    /** The same, and what all other connections serve. */
    method Receives(conn: HttpConnection, d: string, lost: bool, late: bool, grant: bool, refusal: string)
      requires Valid() && AllServe() && conn in links && Registered(conn) && IsHttpReply(refusal) && d <= links[conn].up
      modifies this`reading, this`respQueue, this`customQueue, conn, conn.Parsers()
      ensures Valid() && links == old(links) && conn.alive == (old(conn.alive) && !lost)
      ensures Serves(handler, conn, QueuedFor(Queue(), conn), Registered(conn),
                AfterRead(handler, links[conn], d, !conn.NotDead(late), grant, refusal))
      ensures forall c :: c in links && c != conn ==> Serves(handler, c, QueuedFor(Queue(), c), Registered(c), links[c])
    {
      hide Serves, QueuedFor, Queue, AfterRead;
      Apart(conn);
      hide Valid, HttpConnection.Parsers;
      ReceiveOne(conn, d, lost, late, grant, refusal);
    }

    /** `onRead`: the bytes `d`, which have arrived at the connection. */
    method OnRead(sock: nat, d: string, lost: bool, late: bool, grant: bool, refusal: string, ghost t: System)
      requires Shows(t) && IsHttpReply(refusal)
      requires sock in reading ==> d <= links[reading[sock]].up
      modifies this`reading, this`respQueue, this`customQueue, this`links
      modifies if sock in reading then {reading[sock]} + reading[sock].Parsers() else {}
      ensures Shows(
        if sock in old(reading) && old(Live(reading[sock], t)) then
          var conn := old(reading[sock]);
          var dead := !old(conn.alive) || lost || late;
          Next(handler, t, if dead then ServerKills(conn.key) else ServerReads(conn.key, |d|, grant, refusal))
        else t)
      ensures links.Keys == old(links.Keys)
      ensures sock in old(reading) ==> var conn := old(reading[sock]); conn.alive == (old(conn.alive) && !lost)
    {
      hide Serves, QueuedFor, Queue, HttpConnection.Valid, AfterRead, Next;
      if sock !in reading {
        return;
      }
      var conn := reading[sock];
      ghost var l := links[conn];
      ghost var dead := !conn.alive || lost || late;
      if Live(conn, t) {
        AfterReadIs(handler, t, conn.key, d, dead, grant, refusal);
      }
      Receives(conn, d, lost, late, grant, refusal);
      Settle(conn, AfterRead(handler, l, d, dead, grant, refusal), t);
    }

    /** One send of a registered connection. */
    method SendOne(conn: HttpConnection, send: Send, late: bool) returns (wire: string)
      requires Valid() && AllServe() && conn in links && Registered(conn)
      modifies this`reading, conn
      ensures Valid() && links == old(links) && Queue() == old(Queue())
      ensures reading == old(reading) || reading == old(reading) - {conn.sock}
      ensures AfterSend(links[conn], Amount(send), !conn.NotDead(late)).down == links[conn].down + wire
      ensures Serves(handler, conn, QueuedFor(Queue(), conn), Registered(conn),
                AfterSend(links[conn], Amount(send), !conn.NotDead(late)))
    {
      hide Serves, QueuedFor, Queue, HttpConnection.Valid, HttpConnection.Abs, AfterSend, Sends, SentWhole, Amount;
      ghost var l := links[conn];
      ServesRegistered(handler, conn, QueuedFor(Queue(), conn), l);
      hide Valid, AllServe;
      wire := PerformSend(conn.sock, send, late);
      ServesAfterSend(
        handler, conn, QueuedFor(Queue(), conn), Registered(conn), l, Amount(send), !conn.NotDead(late), wire);
    }

    /** The same, and what all other connections serve. */
    method Transmits(conn: HttpConnection, send: Send, late: bool) returns (wire: string)
      requires Valid() && AllServe() && conn in links && Registered(conn)
      modifies this`reading, conn
      ensures Valid() && links == old(links)
      ensures AfterSend(links[conn], Amount(send), !conn.NotDead(late)).down == links[conn].down + wire
      ensures Serves(handler, conn, QueuedFor(Queue(), conn), Registered(conn),
                AfterSend(links[conn], Amount(send), !conn.NotDead(late)))
      ensures forall c :: c in links && c != conn ==> Serves(handler, c, QueuedFor(Queue(), c), Registered(c), links[c])
    {
      hide Serves, QueuedFor, Queue, AfterSend, Amount;
      Apart(conn);
      hide Valid, HttpConnection.Parsers;
      wire := SendOne(conn, send, late);
    }

    /** `onWrite`; a connection found dead with something unsent is killed. The bytes `wire` go out. */
    method OnWrite(sock: nat, send: Send, late: bool, ghost t: System) returns (wire: string)
      requires Shows(t)
      modifies this`reading, this`links, if sock in reading then {reading[sock]} else {}
      ensures Shows(
        if sock in old(reading) && old(Live(reading[sock], t)) then
          var conn := old(reading[sock]);
          var n := Amount(send);
          var u := Next(handler, t, ServerWrites(conn.key, n));
          if !conn.NotDead(late) && !SentWhole(t.links[conn.key].s, n) then Next(handler, u, ServerKills(conn.key))
          else u
        else t)
      ensures sock in old(reading) ==>
        var conn := old(reading[sock]); conn in links && links[conn].down == old(links[conn].down) + wire
    {
      hide Serves, QueuedFor, Queue, HttpConnection.Valid, AfterSend, Next, Amount;
      wire := "";
      if sock !in reading {
        return;
      }
      var conn := reading[sock];
      ghost var l := links[conn];
      ServesView(handler, conn, QueuedFor(Queue(), conn), true, l);
      wire := Transmits(conn, send, late);
      if Live(conn, t) {
        AfterSendIs(handler, t, conn.key, Amount(send), !conn.NotDead(late));
      }
      Settle(conn, AfterSend(l, Amount(send), !conn.NotDead(late)), t);
    }

    /** `onError`. */
    method OnError(sock: nat, ghost t: System)
      requires Shows(t)
      modifies this`reading, this`links
      ensures reading == old(reading) - {sock} && links.Keys == old(links.Keys)
      ensures Shows(
        if sock in old(reading) && old(Live(reading[sock], t)) then
          Next(handler, t, ServerKills(old(reading[sock]).key))
        else t)
    {
      hide Serves, QueuedFor, HttpConnection.Valid, Next;
      if sock in reading {
        var conn := reading[sock];
        ghost var l := links[conn];
        if Live(conn, t) {
          AfterReadIs(handler, t, conn.key, "", true, true, "");
        }
        ServesKilled(handler, conn, QueuedFor(Queue(), conn), l);
        KillConnection(sock);
        Settle(conn, l.(s := l.s.(registered := false)), t);
      } else {
        KillConnection(sock);
      }
    }

    /** One response taken to its connection, and what that serves then. */
    method TurnOne(send: Send, late: bool) returns (wire: string, stray: bool)
      requires Valid() && AllServe() && Queue() != []
      modifies this`respQueue, this`customQueue, this`reading, Queue()[0].conn
      ensures Valid() && links == old(links) && OthersQueued(old(Queue()[0].conn))
      ensures var conn := old(Queue()[0].conn);
        var n, dead := Amount(send), !conn.NotDead(late);
        conn in links && var m := ServerRepliesLink(handler, links[conn], n, dead);
        && (reading == old(reading) || (reading == old(reading) - {conn.sock} && old(Registered(conn))))
        && m.down == links[conn].down + wire
        && Serves(handler, conn, QueuedFor(Queue(), conn), Registered(conn), m)
        && stray == (dead && !SentWhole(Answered(old(View(conn))), n) && !old(Registered(conn)))
        && |m.s.requests| <= |links[conn].s.requests|
        && (|Queue()| < |old(Queue())| || (|Queue()| == |old(Queue())| && |m.s.requests| < |links[conn].s.requests|))
    {
      hide Serves, HttpConnection.Valid, HttpConnection.Abs, SentWhole, ServerRepliesLink, Same, Answered, Queue;
      hide Amount;
      assert Queue()[0] in Queue();
      var conn := Queue()[0].conn;
      ghost var l := links[conn];
      ghost var v := View(conn);
      ServesView(handler, conn, QueuedFor(Queue(), conn), Registered(conn), l);
      hide AllServe;
      wire, stray := Turn(send, late);
      RepliesSame(handler, v, l, Amount(send), !conn.NotDead(late));
      ServesAfterReply(
        handler, conn, QueuedFor(Queue(), conn), Registered(conn), l, Amount(send), !conn.NotDead(late));
    }

    /** The same, and what all other connections serve. */
    method Replies(send: Send, late: bool) returns (wire: string, stray: bool)
      requires Valid() && AllServe() && Queue() != []
      modifies this`respQueue, this`customQueue, this`reading, Queue()[0].conn
      ensures Valid() && links == old(links)
      ensures var conn := old(Queue()[0].conn);
        var n, dead := Amount(send), !conn.NotDead(late);
        conn in links && var m := ServerRepliesLink(handler, links[conn], n, dead);
        && m.down == links[conn].down + wire
        && Serves(handler, conn, QueuedFor(Queue(), conn), Registered(conn), m)
        && stray == (dead && !SentWhole(Answered(old(View(conn))), n) && !old(Registered(conn)))
        && |m.s.requests| <= |links[conn].s.requests|
        && (|Queue()| < |old(Queue())| || (|Queue()| == |old(Queue())| && |m.s.requests| < |links[conn].s.requests|))
      ensures forall c :: c in links && c != old(Queue()[0].conn) ==>
        Serves(handler, c, QueuedFor(Queue(), c), Registered(c), links[c])
    {
      hide Serves, QueuedFor, Queue, HttpConnection.Abs, ServerRepliesLink, SentWhole, Answered, Amount;
      assert Queue()[0] in Queue();
      Apart(Queue()[0].conn);
      hide Valid, HttpConnection.Parsers;
      wire, stray := TurnOne(send, late);
    }

    /** One turn of the loops in `handleEvents`; the bytes `wire` go out on the connection of the oldest response. */
    method DrainOne(send: Send, late: bool, ghost t: System) returns (wire: string, stray: bool)
      requires Shows(t) && Queue() != []
      modifies this`respQueue, this`customQueue, this`reading, this`links, Queue()[0].conn
      ensures ends == old(ends) && accepted == old(accepted)
      ensures var conn := old(Queue()[0].conn);
        var n, dead := Amount(send), !conn.NotDead(late);
        && conn in old(links) && links == old(links)[conn := ServerRepliesLink(handler, old(links[conn]), n, dead)]
        && Shows(if old(Live(Queue()[0].conn, t)) then Next(handler, t, ServerReplies(conn.key, n, dead)) else t)
        && links[conn].down == old(links[conn]).down + wire
        && stray == (dead && !SentWhole(Answered(old(View(conn))), n) && !old(Registered(conn)))
        && |links[conn].s.requests| <= |old(links[conn]).s.requests|
        && (|Queue()| < |old(Queue())|
            || (|Queue()| == |old(Queue())| && |links[conn].s.requests| < |old(links[conn]).s.requests|))
    {
      hide Serves, QueuedFor, Queue, HttpConnection.Valid, HttpConnection.Abs, ServerRepliesLink, SentWhole, Answered;
      hide Next, Amount;
      assert Queue()[0] in Queue();
      var conn := Queue()[0].conn;
      ghost var l := links[conn];
      wire, stray := Replies(send, late);
      if Live(conn, t) {
        RepliesIs(handler, t, conn.key, Amount(send), !conn.NotDead(late));
      }
      Settle(conn, ServerRepliesLink(handler, l, Amount(send), !conn.NotDead(late)), t);
    }

    /**
     The loops in `handleEvents`: every queued response is taken to its connection, until there is none;
     `wires` are the bytes that go out, and `steps` what that is for the system.
     */
    method Drain(ghost t: System) returns (wires: map<HttpConnection, string>, ghost steps: seq<Step>)
      requires Shows(t)
      modifies this`respQueue, this`customQueue, this`reading, this`links, links.Keys
      ensures Queue() == [] && Shows(Play(handler, t, steps))
      ensures forall i :: 0 <= i < |steps| ==> steps[i].ServerReplies?
      ensures ends == old(ends) && links.Keys == old(links.Keys)
      ensures AllOut(old(links), links, wires)
    {
      hide Serves, QueuedFor, Answered, SentWhole, ServerRepliesLink, Play, Next, AllServe, AllOut, Pending, Reaches;
      hide Amount;
      wires, steps := map[], [];
      PlayMore(handler, t, [], Lose(0));
      ghost var before := links;
      NothingOut(links);
      while Queue() != []
        invariant Shows(Play(handler, t, steps)) && links.Keys == old(links.Keys) && ends == old(ends)
        invariant forall i :: 0 <= i < |steps| ==> steps[i].ServerReplies?
        invariant AllOut(before, links, wires)
        decreases Pending(links, accepted), |Queue()|
      {
        var send: Send := *;
        var late: bool := *;
        assert Queue()[0] in Queue();
        var conn := Queue()[0].conn;
        ghost var u, ls, live := Play(handler, t, steps), links, Live(conn, Play(handler, t, steps));
        var wire, _ := DrainOne(send, late, u);
        if live {
          PlayMore(handler, t, steps, ServerReplies(conn.key, Amount(send), !conn.NotDead(late)));
          steps := steps + [ServerReplies(conn.key, Amount(send), !conn.NotDead(late))];
        }
        PendingLess(ls, links, accepted, conn);
        MoreOut(before, ls, links, wires, conn, wire);
        wires := wires[conn := (if conn in wires then wires[conn] else "") + wire];
      }
    }

    /** The other side of the system has moved: the client's halves and the wires, or a link is given up. */
    ghost method Follow(t: System, u: System)
      requires Shows(t) && SameServers(t, u) && LinksInv(handler, u)
      modifies this`links
      ensures Shows(u) && links.Keys == old(links.Keys)
    {
      hide Serves, QueuedFor, LinkInv;
      ghost var ls := links;
      links := map c | c in links :: if Live(c, u) then u.links[c.key] else links[c];
      forall c | c in links
        ensures Serves(handler, c, QueuedFor(Queue(), c), Registered(c), links[c])
      {
        assert Serves(handler, c, QueuedFor(Queue(), c), Registered(c), ls[c]);
        if Live(c, u) {
          ServesSame(handler, c, QueuedFor(Queue(), c), Registered(c), ls[c], u.links[c.key]);
        }
      }
    }

    /** The server takes part in every step of the client. */
    ghost method FollowStep(t: System, step: Step)
      requires Shows(t) && Inv(handler, t) && OfClient(step)
      modifies this`links
      ensures Shows(Next(handler, t, step)) && links.Keys == old(links.Keys)
    {
      hide Serves, LinkInv, Next, Book;
      NextInv(handler, t, step);
      ClientKeepsServers(handler, t, step);
      Follow(t, Next(handler, t, step));
    }
  }

  /** Requests that are still to be answered. */
  ghost function Pending(ls: map<HttpConnection, Link>, cs: seq<HttpConnection>): nat {
    if cs == [] then 0
    else
      var c := cs[|cs| - 1];
      Pending(ls, cs[..|cs| - 1]) + if c in ls then |ls[c].s.requests| else 0
  }

  lemma {:induction false} PendingLess(a: map<HttpConnection, Link>, b: map<HttpConnection, Link>,
                                       cs: seq<HttpConnection>, conn: HttpConnection)
    requires conn in a && conn in b && b == a[conn := b[conn]] && |b[conn].s.requests| <= |a[conn].s.requests|
    ensures Pending(b, cs) <= Pending(a, cs)
    ensures conn in cs && |b[conn].s.requests| < |a[conn].s.requests| ==> Pending(b, cs) < Pending(a, cs)
  {
    if cs != [] {
      var n := |cs| - 1;
      PendingLess(a, b, cs[..n], conn);
      assert cs == cs[..n] + [cs[n]];
    }
  }

  /** The bytes `wires` have gone out on the connections between `a` and `b`. */
  ghost predicate AllOut(a: map<HttpConnection, Link>, b: map<HttpConnection, Link>,
                         wires: map<HttpConnection, string>) {
    && a.Keys == b.Keys
    && forall c :: c in a ==> b[c].down == a[c].down + (if c in wires then wires[c] else "")
  }

  lemma NothingOut(a: map<HttpConnection, Link>)
    ensures AllOut(a, a, map[])
  {
    assert forall c :: c in a ==> a[c].down + "" == a[c].down;
  }

  lemma MoreOut(a: map<HttpConnection, Link>, b: map<HttpConnection, Link>, c: map<HttpConnection, Link>,
                wires: map<HttpConnection, string>, conn: HttpConnection, wire: string)
    requires AllOut(a, b, wires) && conn in b && conn in c && c == b[conn := c[conn]]
    requires c[conn].down == b[conn].down + wire
    ensures AllOut(a, c, wires[conn := (if conn in wires then wires[conn] else "") + wire])
  {
    var before := if conn in wires then wires[conn] else "";
    assert a[conn].down + before + wire == a[conn].down + (before + wire);
  }

  lemma ServesSame(h: string -> string, conn: HttpConnection, outq: seq<string>, registered: bool, l: Link, m: Link)
    requires Serves(h, conn, outq, registered, l) && m.s == l.s && LinkInv(h, m)
    ensures Serves(h, conn, outq, registered, m)
  {
    hide LinkInv, HttpConnection.Valid;
  }

  // ----- what the client's steps leave alone

  /** No server's half changes, and links are given up at most. */
  predicate SameServers(t: System, u: System) {
    forall k :: k in u.links ==> k in t.links && u.links[k].s == t.links[k].s
  }

  predicate OfClient(step: Step) {
    step.Call? || step.OnWrite? || step.Dispatch? || step.OnRead? || step.CheckKeepAlive? || step.Lose?
  }

  lemma LoseKeeps(t: System, sock: nat)
    requires sock in t.links
    ensures SameServers(t, LoseLink(t, sock))
  {}

  lemma SendKeeps(t: System, sock: nat, send: Send)
    requires sock in t.links
    ensures SameServers(t, ClientSend(t, sock, send))
  {
    LoseKeeps(t, sock);
    hide LoseLink;
  }

  lemma AssignKeeps(t: System, sock: nat, send: Send)
    requires sock in t.links && t.queue != []
    ensures sock in Assign(t, sock).links && SameServers(t, ClientSend(Assign(t, sock), sock, send))
  {
    assert SameServers(t, Assign(t, sock));
    SendKeeps(Assign(t, sock), sock, send);
    hide ClientSend;
  }

  lemma ReadKeeps(t: System, sock: nat, n: nat)
    requires sock in t.links
    ensures SameServers(t, OnReadStep(t, sock, n))
  {
    hide ClientRead, LoseLink;
    var l := t.links[sock];
    var k := AtMost(n, l.down);
    var r := ClientRead(l.c, l.down[..k]);
    if |r.answers| <= |l.c.sent| {
      var u := FinishFront(t, sock, Successes(l.c.sent, r.answers));
      var v := u.(links := u.links[sock := l.(c := r.c, down := l.down[k..])]);
      LoseKeeps(v, sock);
    }
  }

  lemma ClientKeepsServers(h: string -> string, t: System, step: Step)
    requires OfClient(step)
    ensures SameServers(t, Next(h, t, step))
  {
    hide ClientSend, LoseLink, OnReadStep, Assign;
    match step
    case OnWrite(sock, send) =>
      if sock in t.links {
        SendKeeps(t, sock, send);
        if t.queue != [] {
          AssignKeeps(t, sock, send);
        }
      }
    case Dispatch(sock, send) =>
      if sock in t.links && t.queue != [] {
        AssignKeeps(t, sock, send);
      }
    case OnRead(sock, n) => if sock in t.links { ReadKeeps(t, sock, n); }
    case CheckKeepAlive(sock, send) =>
      if sock in t.links {
        SendKeeps(WithClient(t, sock, KeepAlive(t.links[sock].c)), sock, if send.Broken? then Again else send);
      }
    case Lose(sock) => if sock in t.links { LoseKeeps(t, sock); }
    case _ =>
  }

  /** A link behind a read of the server: of a connection found dead nothing counts any more. */
  function AfterRead(h: string -> string, l: Link, d: string, dead: bool, grant: bool, refusal: string): Link {
    if dead then l.(s := l.s.(registered := false)) else ServerReadsLink(h, l, |d|, grant, refusal)
  }

  lemma RepliesIs(h: string -> string, t: System, key: nat, n: nat, dead: bool)
    requires key in t.links
    ensures Next(h, t, ServerReplies(key, n, dead)) ==
      SetLink(t, key, ServerRepliesLink(h, t.links[key], n, dead))
  {}

  /** A link behind a send of the server. */
  function AfterSend(l: Link, n: nat, dead: bool): Link {
    var m := SendDown(l, n);
    if dead && !SentWhole(l.s, n) then m.(s := m.s.(registered := false)) else m
  }

  lemma AfterSendIs(h: string -> string, t: System, key: nat, n: nat, dead: bool)
    requires key in t.links && t.links[key].s.registered
    ensures var u := Next(h, t, ServerWrites(key, n));
      (if dead && !SentWhole(t.links[key].s, n) then Next(h, u, ServerKills(key)) else u) ==
      SetLink(t, key, AfterSend(t.links[key], n, dead))
  {
    hide SendDown, SentWhole;
  }

  lemma ServesAfterSend(h: string -> string, conn: HttpConnection, outq: seq<string>, registered: bool,
                        l: Link, n: nat, dead: bool, wire: string)
    requires LinkInv(h, l) && l.s.registered && registered == !(dead && !SentWhole(l.s, n)) && conn.Valid()
    requires Sends(l.s, n, wire, conn.Abs(outq, registered).(registered := true))
    ensures AfterSend(l, n, dead).down == l.down + wire
    ensures Serves(h, conn, outq, registered, AfterSend(l, n, dead))
  {
    hide LinkInv, HttpConnection.Valid;
    SendDownInv(h, l, n);
    KillInv(h, SendDown(l, n));
  }

  lemma ServesView(h: string -> string, conn: HttpConnection, outq: seq<string>, registered: bool, l: Link)
    requires Serves(h, conn, outq, registered, l)
    ensures LinkInv(h, l) && Same(conn.Abs(outq, registered), l.s) && (registered ==> conn.Valid())
    ensures l.s.registered == registered
  {}

  lemma ServesKilled(h: string -> string, conn: HttpConnection, outq: seq<string>, l: Link)
    requires Serves(h, conn, outq, true, l)
    ensures Serves(h, conn, outq, false, l.(s := l.s.(registered := false)))
  {
    hide LinkInv, HttpConnection.Valid;
    KillInv(h, l);
  }

  /** Taking a response to a connection is the same for the connection and for its link. */
  lemma RepliesSame(h: string -> string, v: Server, l: Link, n: nat, dead: bool)
    requires Same(v, l.s) && v.outq != []
    ensures var a := ServerRepliesLink(h, Link(NEW_CLIENT, "", "", v), n, dead);
      var b := ServerRepliesLink(h, l, n, dead);
      && Same(a.s, b.s) && b.down == l.down + a.down
      && SentWhole(Answered(v), n) == SentWhole(Answered(l.s), n)
      && |b.s.requests| <= |l.s.requests| && (v.registered ==> v == l.s && |a.s.requests| == |b.s.requests|)
  {
    hide Frame, SentWhole;
    SendSame(Answered(v), Answered(l.s), l, n);
    hide SendDown, Same;
    assert Same(v, l.s) && (v.registered ==> v == l.s) && v.registered == l.s.registered by { SameIs(v, l.s); }
    SameWaiting(h, SendDown(Link(NEW_CLIENT, "", "", Answered(v)), n).s, SendDown(l.(s := Answered(l.s)), n).s);
  }

  lemma SameIs(v: Server, s: Server)
    ensures Same(v, s) ==> v.registered == s.registered && (v.registered ==> v == s)
    ensures Same(v, s) ==> v.outq == s.outq && v.resps == s.resps && v.sendBuf == s.sendBuf
    ensures Same(v, s) ==> Same(v.(registered := false), s.(registered := false))
  {}

  lemma RefillSame(v: Server, s: Server)
    requires Same(v, s)
    ensures Same(Refill(v), Refill(s)) && Refill(v).sendBuf == Refill(s).sendBuf
    ensures Refill(v).requests == v.requests && Refill(s).requests == s.requests
  {}

  lemma SendSame(v: Server, s: Server, l: Link, n: nat)
    requires Same(v, s)
    ensures var a, b := SendDown(Link(NEW_CLIENT, "", "", v), n), SendDown(l.(s := s), n);
      && Same(a.s, b.s) && b.down == l.down + a.down
      && a.s.requests == v.requests && b.s.requests == s.requests
      && SentWhole(v, n) == SentWhole(s, n)
  {
    RefillSame(v, s);
    hide Refill;
    var wire := Refill(v).sendBuf[..AtMost(n, Refill(v).sendBuf)];
    assert "" + wire == wire;
  }

  lemma SameWaiting(h: string -> string, v: Server, s: Server)
    requires Same(v, s)
    ensures var a, b := HandleWaiting(h, v), HandleWaiting(h, s);
      Same(a, b) && |b.requests| <= |s.requests| && (v.registered ==> a == b)
    ensures Same(v.(registered := false), s.(registered := false))
  {
    hide Frame;
  }

  lemma ServesAfterReply(h: string -> string, conn: HttpConnection, outq: seq<string>, registered: bool,
                         l: Link, n: nat, dead: bool)
    requires LinkInv(h, l) && (registered ==> conn.Valid())
    requires Same(conn.Abs(outq, registered), ServerRepliesLink(h, l, n, dead).s)
    ensures Serves(h, conn, outq, registered, ServerRepliesLink(h, l, n, dead))
  {
    ServerRepliesInv(h, l, n, dead);
    hide LinkInv, HttpConnection.Valid, ServerRepliesLink;
  }

  lemma EstablishIs(h: string -> string, t: System, key: nat)
    requires key !in t.links
    ensures Next(h, t, Establish(key)) == SetLink(t, key, NEW_LINK)
  {}

  lemma AfterReadIs(h: string -> string, t: System, key: nat, d: string, dead: bool, grant: bool, refusal: string)
    requires key in t.links
    ensures Next(h, t, if dead then ServerKills(key) else ServerReads(key, |d|, grant, refusal)) ==
      SetLink(t, key, AfterRead(h, t.links[key], d, dead, grant, refusal))
  {
    hide ServerReadsLink;
  }

  lemma ServesAfterRead(h: string -> string, conn: HttpConnection, outq: seq<string>, registered: bool,
                        l: Link, d: string, dead: bool, grant: bool, refusal: string)
    requires LinkInv(h, l) && d <= l.up && l.s.registered && IsHttpReply(refusal)
    requires var s := ServerRead(h, l.s, d, grant, refusal);
      if s.registered && !dead then registered && conn.Valid() && conn.Abs(outq, registered) == s
      else !registered && outq == l.s.outq && conn.resps == l.s.resps && conn.sendBuffer == l.s.sendBuf
    ensures Serves(h, conn, outq, registered, AfterRead(h, l, d, dead, grant, refusal))
  {
    hide LinkInv, HttpConnection.Valid, Fold, Payloads, OPENING;
    assert l.up[..|d|] == d;
    KillInv(h, l);
    ServerReadsInv(h, l, |d|, grant, refusal);
  }

  /** How many responses have been queued for a connection. */
  function Handled(registered: bool, before: seq<string>, after: seq<string>): nat {
    if registered && |after| < |before| then 1 else 0
  }

  /** A server's half with the head of its responses taken to it. */
  function Answered(s: Server): Server {
    if s.outq == [] then s else s.(resps := s.resps + [s.outq[0]], outq := s.outq[1..], waiting := false)
  }

  lemma NewServes(h: string -> string, conn: HttpConnection)
    requires conn.Valid() && conn.Abs([], true) == NEW_SERVER
    ensures Serves(h, conn, [], true, NEW_LINK)
  {
    NewLinkInv(h);
  }

  lemma ServesRegistered(h: string -> string, conn: HttpConnection, outq: seq<string>, l: Link)
    requires Serves(h, conn, outq, true, l)
    ensures LinkInv(h, l) && conn.Valid() && conn.Abs(outq, true) == l.s
  {}

  /** What arrives at a connection is what it can take. */
  lemma ReadExpected(h: string -> string, conn: HttpConnection, l: Link, d: string)
    requires LinkInv(h, l) && conn.PhaseOf() == l.s.phase && d <= l.up
    ensures conn.Expects(d)
  {
    hide LinkInv, OpeningPart, OPENING;
    ServerExpects(h, l, |d|);
    assert l.up[..|d|] == d;
  }

  lemma {:induction false} NothingQueued(queue: seq<Reply>, conn: HttpConnection)
    requires forall r :: r in queue ==> r.conn != conn
    ensures QueuedFor(queue, conn) == []
  {
    if queue != [] {
      NothingQueued(queue[1..], conn);
    }
  }

  /** What one `performSend` moves from the server's half onto the wire. */
  predicate Sends(s: Server, n: nat, wire: string, t: Server) {
    var u := Refill(s);
    wire == u.sendBuf[..if n <= |u.sendBuf| then n else |u.sendBuf|] && t == u.(sendBuf := u.sendBuf[|wire|..])
  }

  lemma SendsInTables(s: Server, n: nat, wire: string, t: Server, outq: seq<string>, registered: bool)
    requires Sends(s, n, wire, t)
    ensures Sends(s.(outq := outq, registered := registered), n, wire, t.(outq := outq, registered := registered))
    ensures SentWhole(s.(outq := outq, registered := registered), n) == SentWhole(s, n)
  {}

  lemma SendsDown(s: Server, n: nat, wire: string, t: Server)
    requires Sends(s, n, wire, t)
    ensures var l := SendDown(Link(NEW_CLIENT, "", "", s), n); l.s == t && l.down == wire
  {
    assert "" + wire == wire;
  }

  // ----- a response for a connection that is gone

  /** The client's opening, sent as a whole on a new connection. */
  lemma Opened(h: string -> string)
    ensures var t := Next(h, Next(h, RpcSystem.INIT, Establish(0)), OnWrite(0, Sent(|OPENING|)));
      && t.links.Keys == {0} && t.links[0].up == OPENING && t.links[0].s == NEW_SERVER
      && Inv(h, Next(h, RpcSystem.INIT, Establish(0)))
  {
    InitInv(h);
    NextInv(h, RpcSystem.INIT, Establish(0));
    hide Inv, OPENING;
    var t := Next(h, RpcSystem.INIT, Establish(0));
    assert t.links == map[0 := NEW_LINK];
    assert "" + OPENING == OPENING && OPENING[..|OPENING|] == OPENING;
    assert OPENING != "" by { OpeningNonEmpty(); }
  }

  lemma OpeningNonEmpty()
    ensures OPENING != ""
  {}

  /** Reading the opening and granting it queues the handshake, and killing the connection does not remove it. */
  lemma HandshakeQueued(h: string -> string, t: System)
    requires t.links.Keys == {0} && t.links[0].up == OPENING && t.links[0].s == NEW_SERVER
    ensures var u := Next(h, t, ServerReads(0, |OPENING|, true, "HTTP/1.1 "));
      u.links.Keys == {0} && u.links[0].s.outq == [HANDSHAKE] && u.links[0].s.registered
    ensures var u := Next(h, Next(h, t, ServerReads(0, |OPENING|, true, "HTTP/1.1 ")), ServerKills(0));
      u.links.Keys == {0} && u.links[0].s.outq == [HANDSHAKE] && !u.links[0].s.registered
  {
    hide OPENING, HANDSHAKE;
    assert OPENING[..|OPENING|] == OPENING && "" + OPENING == OPENING;
    assert [] + [HANDSHAKE] == [HANDSHAKE];
  }

  /** A server whose one connection has been opened, with the opening on its way. */
  method OneOpened(handler: string -> string) returns (server: HttpServer, conn: HttpConnection, ghost t: System)
    ensures fresh(server) && fresh(conn) && fresh(conn.Parsers()) && server.handler == handler
    ensures server.Shows(t) && server.Live(conn, t) && server.Registered(conn) && server.links.Keys == {conn}
    ensures conn.sock == 0 && conn.key == 0 && conn.alive
    ensures t.links.Keys == {0} && t.links[0].up == OPENING && t.links[0].s == NEW_SERVER
  {
    hide Next, Serves, QueuedFor, Inv, OPENING, HttpServer.AllServe, HttpServer.Valid;
    server := new HttpServer(handler);
    Opened(handler);
    conn := server.Accept(0, 0, RpcSystem.INIT);
    t := Next(handler, RpcSystem.INIT, Establish(0));
    server.FollowStep(t, OnWrite(0, Sent(|OPENING|)));
    t := Next(handler, t, OnWrite(0, Sent(|OPENING|)));
  }

  /** It has been upgraded. */
  method OneUpgraded(handler: string -> string) returns (server: HttpServer, conn: HttpConnection, ghost t: System)
    ensures fresh(server) && fresh(conn) && server.handler == handler
    ensures server.Shows(t) && server.Live(conn, t) && server.Registered(conn) && server.links.Keys == {conn}
    ensures conn.sock == 0 && conn.key == 0
    ensures t.links.Keys == {0} && t.links[0].s.outq == [HANDSHAKE]
    ensures var u := Next(handler, t, ServerKills(0));
      u.links.Keys == {0} && u.links[0].s.outq == [HANDSHAKE] && !u.links[0].s.registered
  {
    hide Next, Serves, QueuedFor, OPENING, HANDSHAKE, HttpServer.AllServe, HttpServer.Valid, HttpServer.Queue;
    server, conn, t := OneOpened(handler);
    HandshakeQueued(handler, t);
    server.OnRead(0, OPENING, false, false, true, "HTTP/1.1 ", t);
    t := Next(handler, t, ServerReads(0, |OPENING|, true, "HTTP/1.1 "));
    server.IsRegistered(conn, t);
  }

  /** It has been lost; the handshake is still queued. */
  method OneLost(handler: string -> string) returns (server: HttpServer, conn: HttpConnection, ghost t: System)
    ensures fresh(server) && fresh(conn) && server.handler == handler
    ensures server.Shows(t) && server.Live(conn, t) && server.links.Keys == {conn} && conn.key == 0
    ensures t.links.Keys == {0} && t.links[0].s.outq == [HANDSHAKE] && !t.links[0].s.registered
  {
    hide Next, Serves, QueuedFor, HANDSHAKE, HttpServer.AllServe, HttpServer.Valid, HttpServer.Queue;
    server, conn, t := OneUpgraded(handler);
    server.OnError(0, t);
    t := Next(handler, t, ServerKills(0));
  }

  /**
   The source can come to erase what it has not found: a connection is upgraded, fails while the handshake
   is still queued, and is found dead when the queue is drained.
   */
  method StrayErase(handler: string -> string) returns (stray: bool)
    ensures stray
  {
    hide Next, Serves, QueuedFor, HANDSHAKE, HttpServer.AllServe, HttpServer.Valid, ServerRepliesLink, Answered;
    var server, conn;
    ghost var t;
    server, conn, t := OneLost(handler);
    server.IsRegistered(conn, t);
    server.StillQueued(conn, t);
    var wire;
    wire, stray := server.DrainOne(Again, true, t);
  }
}
