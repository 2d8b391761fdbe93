/**
 The two receivers of the binary protocol as the program implements them: a token buffer that grows
 with every read and a loop that consumes it until a message is complete. Each is proved to receive
 exactly what the byte-at-a-time framing of its stream receives.
 */
module BinParsers {
  import opened Machine
  import opened Sequences
  import opened BinFraming

  /** Two accounts of a stream that agree on where it leads and on what it delivers. */
  ghost predicate SameFate(a: Result<Mode, Event>, b: Result<Mode, Event>) {
    a.f == b.f && a.events == b.events && a.stopped == b.stopped
  }

  /** `a` delivers `first` and then what `b` delivers. */
  ghost predicate Delivers(a: Result<Mode, Event>, first: seq<Event>, b: Result<Mode, Event>) {
    a.f == b.f && a.events == first + b.events && a.stopped == b.stopped
  }

  /** Consuming a prefix that runs through leaves the rest. */
  lemma Consume(step: (Mode, char) -> Stepped<Mode, Event>, f: Mode, token: string, n: nat, g: Mode, es: seq<Event>)
    requires n <= |token| && Runs(step, f, token[..n], g, es)
    ensures Delivers(Fold(step, f, token), es, Fold(step, g, token[n..]))
  {
    assert token == token[..n] + token[n..];
    FoldAfter(step, f, token[..n], g, es, token[n..]);
  }

  /** More bytes behind a buffer that runs through. */
  lemma Extend(step: (Mode, char) -> Stepped<Mode, Event>, f: Mode, token: string, d: string)
    requires !Fold(step, f, token).stopped && Fold(step, f, token).events == []
    ensures SameFate(Fold(step, f, token + d), Fold(step, Fold(step, f, token).f, d))
  {
    FoldConcat(step, f, token, d);
    hide Fold;
    var es := Fold(step, Fold(step, f, token).f, d).events;
    assert [] + es == es;
  }

  function Announced(connected: bool): seq<Event> { if connected then [Connected] else [] }

  function Wrapped(ds: seq<string>): (es: seq<Event>)
    ensures |es| == |ds| && forall i :: 0 <= i < |ds| ==> es[i] == Message(ds[i])
  {
    seq(|ds|, i requires 0 <= i < |ds| => Message(ds[i]))
  }

  lemma FoldEmpty(step: (Mode, char) -> Stepped<Mode, Event>, f: Mode)
    ensures Fold(step, f, "") == Result(f, [], 0, false)
  {}

  lemma BlockedRun(step: (Mode, char) -> Stepped<Mode, Event>, f: Mode, token: string, g: Mode)
    requires Runs(step, f, token, g, [])
    ensures Fold(step, f, token).events == [] && !Fold(step, f, token).stopped
  {}

  lemma StoppedAt(step: (Mode, char) -> Stepped<Mode, Event>, f: Mode, token: string, n: nat)
    requires n <= |token| && Fold(step, f, token[..n]).stopped && Fold(step, f, token[..n]).events == []
    ensures Fold(step, f, token).stopped && Fold(step, f, token).events == []
  {
    FoldStopped(step, f, token, n);
  }

  /** The server's receiver (`hiapi::server::Parser`). */
  class ServerParser {
    var readingSize: bool
    var token: string
    var size: nat
    var gotRequest: bool
    var curRequest: string

    ghost predicate Valid()
      reads this
    {
      readingSize || size > 0
    }

    /** The framing's mode before the bytes in `token`. */
    ghost function Base(): Mode
      reads this
    {
      if readingSize then READY else Payload(size, "")
    }

    /** What the buffered bytes amount to. */
    ghost function Owed(): Result<Mode, Event>
      reads this
    {
      Fold(ServerStep, Base(), token)
    }

    /** Nothing more to find in the buffer: the mode of the framing is the state of the parser. */
    ghost predicate Drained()
      reads this
    {
      Valid() && !gotRequest && !Owed().stopped && Owed().events == []
    }

    constructor ()
      ensures Drained() && Owed().f == READY
    {
      readingSize := true;
      token := "";
      size := 0;
      gotRequest := false;
      curRequest := "";
    }

    /**
     Consumes the buffer up to the end of the next message, if it is there. `fine` is false when the
     source throws, or scans a size that is not a number; `found` says that a message was completed.
     */
    method Parse() returns (fine: bool, ghost found: bool)
      requires Valid()
      modifies this
      ensures Valid()
      ensures !fine ==> old(Owed()).stopped && old(Owed()).events == []
      ensures fine && found ==>
        gotRequest && Delivers(old(Owed()), [Message(curRequest)], Owed()) && |token| < |old(token)|
      ensures fine && !found ==>
        && gotRequest == old(gotRequest) && curRequest == old(curRequest)
        && SameFate(old(Owed()), Owed()) && !Owed().stopped && Owed().events == []
    {
      hide Fold, Runs, JudgeSize;
      found := false;
      while true
        invariant Valid() && gotRequest == old(gotRequest) && curRequest == old(curRequest)
        invariant SameFate(old(Owed()), Owed()) && |token| <= |old(token)|
        decreases |token|
      {
        if token == "" {
          FoldEmpty(ServerStep, Base());
          return true, false;
        }
        if readingSize {
          if token[0] == KEEP_ALIVE {
            PingRun();
            assert token[..1] == [KEEP_ALIVE];
            Consume(ServerStep, READY, token, 1, READY, []);
            token := token[1..];
            continue;
          }
          var endl := IndexOf(token, NL);
          ServerFrames();
          if endl == |token| {
            assert token[..endl] == token;
            LineRun(ServerStep, REQUEST_LIMIT, true, token);
            BlockedRun(ServerStep, READY, token, SizeLine(token));
            return true, false;
          }
          var line := token[..endl];
          assert token[..endl + 1] == line + [NL];
          SizeLineEnd(ServerStep, REQUEST_LIMIT, true, line);
          match JudgeSize(line, REQUEST_LIMIT) {
            case Bad =>
              StoppedAt(ServerStep, READY, token, endl + 1);
              return false, false;
            case Empty =>
              Consume(ServerStep, READY, token, endl + 1, READY, [Message("")]);
              token := token[endl + 1..];
              curRequest, gotRequest := "", true;
              return true, true;
            case Expect(n) =>
              Consume(ServerStep, READY, token, endl + 1, Payload(n, ""), []);
              token := token[endl + 1..];
              size, readingSize := n, false;
          }
        }
        ServerFrames();
        if |token| >= size {
          curRequest := token[..size];
          PayloadRun(ServerStep, REQUEST_LIMIT, true, curRequest);
          Consume(ServerStep, Payload(size, ""), token, size, READY, [Message(curRequest)]);
          gotRequest := true;
          token := token[size..];
          readingSize := true;
          return true, true;
        } else {
          PartRun(ServerStep, REQUEST_LIMIT, true, size, token);
          BlockedRun(ServerStep, Payload(size, ""), token, Payload(size, token));
          return true, false;
        }
      }
    }

    /** `execute`: the bytes of one read. */
    method Execute(d: string) returns (fine: bool, ghost found: bool)
      requires Drained()
      modifies this
      ensures Valid()
      ensures var r := Fold(ServerStep, old(Owed()).f, d);
        && (!fine ==> r.stopped && r.events == [])
        && (fine && found ==> gotRequest && Delivers(r, [Message(curRequest)], Owed()))
        && (fine && !found ==> Drained() && SameFate(r, Owed()))
    {
      hide Fold;
      Extend(ServerStep, Base(), token, d);
      token := token + d;
      fine, found := Parse();
    }

    /** `getRequest`: hands out the message found last and looks for the next one. */
    method GetRequest() returns (request: string, fine: bool, ghost found: bool)
      requires Valid() && gotRequest
      modifies this
      ensures Valid() && request == old(curRequest)
      ensures !fine ==> old(Owed()).stopped && old(Owed()).events == []
      ensures fine && found ==>
        gotRequest && Delivers(old(Owed()), [Message(curRequest)], Owed()) && |token| < |old(token)|
      ensures fine && !found ==> Drained() && SameFate(old(Owed()), Owed())
    {
      hide Fold;
      gotRequest := false;
      request := curRequest;
      fine, found := Parse();
    }

    /**
     What a connection does with one read: `execute`, then `getRequest` until there is no request.
     The requests are those the framing finds in the stream, however it was cut; an error loses the
     requests not handed out yet.
     */
    method Receive(d: string) returns (requests: seq<string>, fine: bool)
      requires Drained()
      modifies this
      ensures var r := Fold(ServerStep, old(Owed()).f, d);
        if fine then Drained() && !r.stopped && r.events == Wrapped(requests) && Owed().f == r.f
        else r.stopped && Wrapped(requests) <= r.events
    {
      hide Fold;
      ghost var r := Fold(ServerStep, Owed().f, d);
      requests := [];
      ghost var found;
      fine, found := Execute(d);
      while fine && gotRequest
        invariant Valid()
        invariant fine && gotRequest ==> Delivers(r, Wrapped(requests) + [Message(curRequest)], Owed())
        invariant fine && !gotRequest ==> Drained() && Delivers(r, Wrapped(requests), Owed())
        invariant !fine ==> r.stopped && Wrapped(requests) <= r.events
        decreases fine && gotRequest, |token|
      {
        var request;
        ghost var owed := Owed();
        request, fine, found := GetRequest();
        if fine {
          requests := requests + [request];
          assert Wrapped(requests) == Wrapped(requests[..|requests| - 1]) + [Message(request)];
        }
      }
    }
  }

  /** The client's receiver (`hiapi::client::ResponseParser`), which expects the handshake first. */
  class ResponseParser {
    var handshaking: bool
    var readingSize: bool
    var token: string
    var size: nat
    var gotResponse: bool
    var curResponse: string

    ghost predicate Valid()
      reads this
    {
      handshaking || readingSize || size > 0
    }

    ghost function Base(): Mode
      reads this
    {
      if handshaking then Handshaking("") else if readingSize then READY else Payload(size, "")
    }

    ghost function Owed(): Result<Mode, Event>
      reads this
    {
      Fold(ClientStep, Base(), token)
    }

    ghost predicate Drained()
      reads this
    {
      Valid() && !gotResponse && !Owed().stopped && Owed().events == []
    }

    constructor ()
      ensures Drained() && handshaking && Owed().f == Handshaking("")
    {
      handshaking := true;
      readingSize := false;
      token := "";
      size := 0;
      gotResponse := false;
      curResponse := "";
    }

    /** The `READING_SIZE` and `READING_MESSAGE` parts of `parse`; every path through them returns. */
    method ParseMessage() returns (fine: bool, ghost found: bool)
      requires Valid() && !handshaking
      modifies this
      ensures Valid() && !handshaking
      ensures !fine ==> old(Owed()).stopped && old(Owed()).events == []
      ensures fine && found ==>
        gotResponse && Delivers(old(Owed()), [Message(curResponse)], Owed()) && |token| < |old(token)|
      ensures fine && !found ==>
        && gotResponse == old(gotResponse) && curResponse == old(curResponse)
        && SameFate(old(Owed()), Owed()) && !Owed().stopped && Owed().events == []
    {
      hide Fold, Runs, JudgeSize;
      ClientFrames();
      if readingSize {
        var endl := IndexOf(token, NL);
        if endl == |token| {
          assert token[..endl] == token;
          LineRun(ClientStep, RESPONSE_LIMIT, false, token);
          BlockedRun(ClientStep, READY, token, SizeLine(token));
          return true, false;
        }
        var line := token[..endl];
        assert token[..endl + 1] == line + [NL];
        SizeLineEnd(ClientStep, RESPONSE_LIMIT, false, line);
        match JudgeSize(line, RESPONSE_LIMIT) {
          case Bad =>
            StoppedAt(ClientStep, READY, token, endl + 1);
            return false, false;
          case Empty =>
            Consume(ClientStep, READY, token, endl + 1, READY, [Message("")]);
            token := token[endl + 1..];
            curResponse, gotResponse := "", true;
            return true, true;
          case Expect(n) =>
            Consume(ClientStep, READY, token, endl + 1, Payload(n, ""), []);
            token := token[endl + 1..];
            size, readingSize := n, false;
        }
      }
      if |token| >= size {
        curResponse := token[..size];
        PayloadRun(ClientStep, RESPONSE_LIMIT, false, curResponse);
        Consume(ClientStep, Payload(size, ""), token, size, READY, [Message(curResponse)]);
        gotResponse := true;
        token := token[size..];
        readingSize := true;
        return true, true;
      } else {
        PartRun(ClientStep, RESPONSE_LIMIT, false, size, token);
        BlockedRun(ClientStep, Payload(size, ""), token, Payload(size, token));
        return true, false;
      }
    }

    /** As for the server; `connected` says that the handshake was completed, which calls `onHandshaked`. */
    method Parse() returns (fine: bool, connected: bool, ghost found: bool)
      requires Valid()
      modifies this
      ensures Valid()
      ensures handshaking == (old(handshaking) && !connected) && (connected ==> old(handshaking))
      ensures fine && found ==> !handshaking
      ensures !fine ==> old(Owed()).stopped && old(Owed()).events == Announced(connected)
      ensures fine && found ==>
        && gotResponse && |token| < |old(token)|
        && Delivers(old(Owed()), Announced(connected) + [Message(curResponse)], Owed())
      ensures fine && !found ==>
        && gotResponse == old(gotResponse) && curResponse == old(curResponse)
        && Delivers(old(Owed()), Announced(connected), Owed()) && !Owed().stopped && Owed().events == []
    {
      hide Fold, Runs;
      found, connected := false, false;
      if token == "" {
        FoldEmpty(ClientStep, Base());
        return true, false, false;
      }
      if handshaking {
        if |token| < |HANDSHAKE| {
          HandshakePartRun(token);
          BlockedRun(ClientStep, Handshaking(""), token, Handshaking(token));
          return true, false, false;
        }
        var handshake := token[..|HANDSHAKE|];
        HandshakeRun(handshake);
        if handshake != HANDSHAKE {
          StoppedAt(ClientStep, Handshaking(""), token, |HANDSHAKE|);
          return false, false, false;
        }
        Consume(ClientStep, Handshaking(""), token, |HANDSHAKE|, READY, [Connected]);
        token := token[|HANDSHAKE|..];
        handshaking, readingSize := false, true;
        connected := true;
      }
      fine, found := ParseMessage();
    }

    /** `execute`: the bytes of one read. */
    method Execute(d: string) returns (fine: bool, connected: bool, ghost found: bool)
      requires Drained()
      modifies this
      ensures Valid()
      ensures handshaking == (old(handshaking) && !connected) && (connected ==> old(handshaking))
      ensures var r := Fold(ClientStep, old(Owed()).f, d);
        && (!fine ==> r.stopped && r.events == Announced(connected))
        && (fine && found ==>
            gotResponse && !handshaking && Delivers(r, Announced(connected) + [Message(curResponse)], Owed()))
        && (fine && !found ==> Drained() && Delivers(r, Announced(connected), Owed()))
    {
      hide Fold;
      Extend(ClientStep, Base(), token, d);
      token := token + d;
      fine, connected, found := Parse();
    }

    /** `getResponse`: hands out the message found last and looks for the next one. */
    method GetResponse() returns (response: string, fine: bool, ghost found: bool)
      requires Valid() && gotResponse && !handshaking
      modifies this
      ensures Valid() && response == old(curResponse) && !handshaking
      ensures !fine ==> old(Owed()).stopped && old(Owed()).events == []
      ensures fine && found ==>
        gotResponse && Delivers(old(Owed()), [Message(curResponse)], Owed()) && |token| < |old(token)|
      ensures fine && !found ==> Drained() && SameFate(old(Owed()), Owed())
    {
      hide Fold;
      gotResponse := false;
      response := curResponse;
      var connected;
      fine, connected, found := Parse();
    }

    /**
     What a connection does with one read: the handshake if it completes, then the responses in order.
     After an error the last response found, `lost`, is not handed out.
     */
    method Receive(d: string) returns (connected: bool, responses: seq<string>, fine: bool, ghost lost: seq<string>)
      requires Drained()
      modifies this
      ensures var r := Fold(ClientStep, old(Owed()).f, d);
        && r.stopped == !fine && r.events == Announced(connected) + Wrapped(responses + lost)
        && (if fine then Drained() && Owed().f == r.f && lost == []
            else |lost| <= 1 && (lost == [] ==> responses == []))
      ensures handshaking == (old(handshaking) && !connected) && (connected ==> old(handshaking))
      ensures handshaking ==> responses + lost == []
    {
      hide Fold, Wrapped, Announced, HandedOut;
      ghost var r := Fold(ClientStep, Owed().f, d);
      responses, lost := [], [];
      ghost var found;
      fine, connected, found := Execute(d);
      NoneHandedOut(connected, curResponse);
      while fine && gotResponse
        invariant Valid() && handshaking == (old(handshaking) && !connected)
        invariant (fine && gotResponse) || responses + lost != [] ==> !handshaking
        invariant fine && gotResponse ==> Delivers(r, HandedOut(connected, responses + [curResponse]), Owed())
        invariant fine && !gotResponse ==> Drained() && Delivers(r, HandedOut(connected, responses), Owed())
        invariant fine ==> lost == []
        invariant !fine ==>
          && r.stopped && r.events == HandedOut(connected, responses + lost)
          && |lost| <= 1 && (lost == [] ==> responses == [])
        decreases fine && gotResponse, |token|
      {
        var response;
        response, fine, found := GetResponse();
        OneMoreHandedOut(connected, responses + [response], curResponse);
        if fine {
          responses := responses + [response];
        } else {
          lost := [response];
        }
      }
      if fine {
        assert responses + lost == responses;
      }
      HandedOutIs(connected, responses + lost);
    }
  }

  /** The events a client's read has turned into callbacks. */
  function HandedOut(connected: bool, responses: seq<string>): seq<Event> { Announced(connected) + Wrapped(responses) }

  lemma HandedOutIs(connected: bool, responses: seq<string>)
    ensures HandedOut(connected, responses) == Announced(connected) + Wrapped(responses)
  {}

  lemma NoneHandedOut(connected: bool, response: string)
    ensures HandedOut(connected, []) == Announced(connected)
    ensures HandedOut(connected, [] + [response]) == Announced(connected) + [Message(response)]
    ensures HandedOut(connected, [] + []) == Announced(connected)
  {
    assert [] + [response] == [response];
  }

  lemma OneMoreHandedOut(connected: bool, responses: seq<string>, next: string)
    ensures HandedOut(connected, responses) + [Message(next)] == HandedOut(connected, responses + [next])
    ensures HandedOut(connected, responses) + [] == HandedOut(connected, responses)
  {}

  // ----- streams that arrive in pieces

  lemma WrappedBoth(a: seq<string>, b: seq<string>)
    ensures Wrapped(a + b) == Wrapped(a) + Wrapped(b)
  {}

  lemma WrappedOnce(a: seq<string>, b: seq<string>)
    requires Wrapped(a) == Wrapped(b)
    ensures a == b
  {
    forall i | 0 <= i < |a|
      ensures a[i] == b[i]
    {
      assert Wrapped(a)[i] == Message(a[i]) && Wrapped(b)[i] == Message(b[i]);
    }
  }

  /** One piece more: the stream so far, and what the framing makes of it. */
  lemma NextPiece(step: (Mode, char) -> Stepped<Mode, Event>, f: Mode, pieces: seq<string>, n: nat)
    requires n < |pieces|
    ensures var a := Fold(step, f, Concat(pieces[..n]));
      var b := Fold(step, a.f, pieces[n]);
      var c := Fold(step, f, Concat(pieces[..n + 1]));
      && (!a.stopped ==> c.f == b.f && c.events == a.events + b.events && c.stopped == b.stopped)
      && (c.stopped ==> Fold(step, f, Concat(pieces)) == c)
  {
    ConcatOne(pieces, n);
    FoldConcat(step, f, Concat(pieces[..n]), pieces[n]);
    ConcatBegins(pieces, n + 1);
    var whole := Concat(pieces);
    var k := |Concat(pieces[..n + 1])|;
    assert whole[..k] == Concat(pieces[..n + 1]);
    if Fold(step, f, whole[..k]).stopped {
      FoldStopped(step, f, whole, k);
    }
  }

  /** The server's side of a connection read by read: the requests of the stream, however it was cut. */
  method ReceiveAll(parser: ServerParser, pieces: seq<string>) returns (requests: seq<string>, fine: bool)
    requires parser.Drained()
    modifies parser
    ensures var r := Fold(ServerStep, old(parser.Owed()).f, Concat(pieces));
      if fine then parser.Drained() && !r.stopped && r.events == Wrapped(requests) && parser.Owed().f == r.f
      else r.stopped && Wrapped(requests) <= r.events
  {
    hide Fold, Wrapped;
    ghost var f := parser.Owed().f;
    requests, fine := [], true;
    FoldEmpty(ServerStep, f);
    assert Wrapped([]) == [] by { NothingWrapped(); }
    var i := 0;
    while i < |pieces|
      invariant i <= |pieces| && fine && parser.Drained()
      invariant var r := Fold(ServerStep, f, Concat(pieces[..i]));
        !r.stopped && r.events == Wrapped(requests) && parser.Owed().f == r.f
    {
      NextPiece(ServerStep, f, pieces, i);
      var more;
      more, fine := parser.Receive(pieces[i]);
      WrappedBoth(requests, more);
      requests := requests + more;
      i := i + 1;
      if !fine {
        return;
      }
    }
    assert pieces[..i] == pieces;
  }

  lemma NothingWrapped()
    ensures Wrapped([]) == []
  {}

  /** The client's side: the handshake is announced at most once, and before any response. */
  method ReceiveReplies(parser: ResponseParser, pieces: seq<string>)
    returns (connections: nat, responses: seq<string>, fine: bool, ghost lost: seq<string>)
    requires parser.Drained() && parser.handshaking
    modifies parser
    ensures connections <= 1 && |lost| <= 1
    ensures var r := Fold(ClientStep, old(parser.Owed()).f, Concat(pieces));
      && r.stopped == !fine && r.events == Announced(connections == 1) + Wrapped(responses + lost)
      && (fine ==> parser.Drained() && parser.Owed().f == r.f && lost == [])
  {
    hide Fold, Wrapped, Announced, HandedOut;
    ghost var f := parser.Owed().f;
    connections, responses, fine, lost := 0, [], true, [];
    FoldEmpty(ClientStep, f);
    NoneHandedOut(false, "");
    NotAnnounced();
    var i := 0;
    while i < |pieces|
      invariant i <= |pieces| && fine && parser.Drained() && lost == []
      invariant connections == (if parser.handshaking then 0 else 1) && (parser.handshaking ==> responses == [])
      invariant var r := Fold(ClientStep, f, Concat(pieces[..i]));
        !r.stopped && r.events == HandedOut(connections == 1, responses) && parser.Owed().f == r.f
    {
      NextPiece(ClientStep, f, pieces, i);
      var connected, more;
      connected, more, fine, lost := parser.Receive(pieces[i]);
      MoreHandedOut(connections == 1, responses, connected, more, lost);
      responses := responses + more;
      connections := connections + if connected then 1 else 0;
      i := i + 1;
      if !fine {
        HandedOutIs(connections == 1, responses + lost);
        return;
      }
    }
    assert pieces[..i] == pieces;
    assert responses + [] == responses;
    HandedOutIs(connections == 1, responses);
  }

  lemma NotAnnounced()
    ensures Announced(false) == []
  {}

  lemma MoreHandedOut(before: bool, a: seq<string>, connected: bool, b: seq<string>, lost: seq<string>)
    requires connected ==> !before && a == []
    ensures HandedOut(before, a) + (Announced(connected) + Wrapped(b + lost)) ==
            HandedOut(before || connected, a + b + lost)
    ensures lost == [] ==> a + b + lost == a + b
  {
    assert a + (b + lost) == a + b + lost;
    WrappedBoth(a, b + lost);
    NothingWrapped();
    hide Wrapped;
    assert HandedOut(before, a) + (Announced(connected) + Wrapped(b + lost)) ==
           Announced(before) + Wrapped(a) + Announced(connected) + Wrapped(b + lost);
  }

  /** The payloads among what a client writes. */
  function WrittenIn(items: seq<Item>): seq<string> {
    if items == [] then []
    else WrittenIn(items[..|items| - 1]) + (match items[|items| - 1] case Ping => [] case Data(d) => [d])
  }

  lemma {:induction false} MessagesArePayloads(items: seq<Item>)
    ensures Messages(items) == Wrapped(WrittenIn(items))
  {
    if items != [] {
      MessagesArePayloads(items[..|items| - 1]);
    }
  }

  lemma {:induction false} RepliesAre(ds: seq<string>)
    ensures ReplyEvents(ds) == Announced(true) + Wrapped(ds)
  {
    if ds != [] {
      RepliesAre(ds[..|ds| - 1]);
    }
  }

  lemma AnnouncedOnce(connected: bool, a: seq<string>, b: seq<string>)
    requires Announced(connected) + Wrapped(a) == Announced(true) + Wrapped(b)
    ensures connected && a == b
  {
    var es := Announced(connected) + Wrapped(a);
    assert es[0] == Connected;
    assert !connected ==> es == Wrapped(a);
    if connected {
      assert Wrapped(a) == es[1..] == Wrapped(b);
      WrappedOnce(a, b);
    }
  }

  /**
   The round trip of the server's direction: whatever payloads and keep-alives a client writes, and
   however the stream is cut into reads, a new parser hands out exactly the payloads, in order.
   */
  method ServerRoundTrip(ghost items: seq<Item>, pieces: seq<string>) returns (requests: seq<string>, fine: bool)
    requires forall i :: 0 <= i < |items| && items[i].Data? ==> |items[i].payload| <= REQUEST_LIMIT
    requires Concat(pieces) == Write(items)
    ensures fine && requests == WrittenIn(items)
  {
    hide Fold;
    var parser := new ServerParser();
    requests, fine := ReceiveAll(parser, pieces);
    StreamRoundTrip(items);
    MessagesArePayloads(items);
    WrappedOnce(requests, WrittenIn(items));
  }

  /** And of the client's: the handshake is announced once, and the replies come out as they were sent. */
  method ClientRoundTrip(ghost ds: seq<string>, pieces: seq<string>)
    returns (connections: nat, responses: seq<string>, fine: bool)
    requires forall d :: d in ds ==> |d| <= RESPONSE_LIMIT
    requires Concat(pieces) == WriteReplies(ds)
    ensures fine && connections == 1 && responses == ds
  {
    hide Fold;
    var parser := new ResponseParser();
    ghost var lost;
    connections, responses, fine, lost := ReceiveReplies(parser, pieces);
    ReplyRoundTrip(ds);
    RepliesAre(ds);
    assert responses + [] == responses;
    AnnouncedOnce(connections == 1, responses, ds);
  }
}
