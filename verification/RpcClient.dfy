/**
 The client's two classes. A connection is proved to be the client's half of a link, and the pool to
 take the client's steps of the state machine.
 */
module RpcClient {
  import opened Machine
  import opened BinFraming
  import opened BinParsers
  import opened RpcLink
  import opened RpcSystem
  import opened Wrappers

  /** `hiapi::client::Connection`. The bytes that reach the wire are returned. */
  class Connection {
    const sock: nat
    var active: bool
    var sendBuffer: string
    var sentRequests: seq<Request>
    const parser: ResponseParser
    var lastActivity: nat
    const keepalivePeriod: nat := 5

    ghost predicate Valid()
      reads this, parser
    {
      parser.Drained()
    }

    /** The connection as the client's half of a link. */
    ghost function Abs(): (c: Client)
      reads this, parser
      ensures c.active == active && c.sendBuf == sendBuffer && c.sent == sentRequests
    {
      Client(active, parser.Owed().f, sendBuffer, sentRequests)
    }

    constructor (sock: nat, now: nat)
      ensures Valid() && fresh(parser) && this.sock == sock && lastActivity == now
      ensures Abs() == NEW_CLIENT
    {
      this.sock := sock;
      active := false;
      sendBuffer := OPENING;
      sentRequests := [];
      parser := new ResponseParser();
      lastActivity := now;
    }

    method AddRequest(r: Request)
      requires Valid()
      modifies this`sendBuffer, this`sentRequests
      ensures Valid() && Abs() == RpcLink.AddRequest(old(Abs()), r)
    {
      sentRequests := sentRequests + [r];
      sendBuffer := sendBuffer + Frame(r.data);
    }

    /** The keep-alive byte, when nothing is waiting and the period is over; sending it is the caller's next step. */
    method CheckKeepAlive(now: nat) returns (due: bool)
      requires Valid()
      modifies this`sendBuffer, this`lastActivity
      ensures Valid()
      ensures due == (old(sendBuffer) == "" && now > old(lastActivity) + keepalivePeriod)
      ensures Abs() == if due then KeepAlive(old(Abs())) else old(Abs())
      ensures lastActivity == if due then now else old(lastActivity)
    {
      due := sendBuffer == "" && now > lastActivity + keepalivePeriod;
      if due {
        lastActivity := now;
        sendBuffer := sendBuffer + [BinFraming.KEEP_ALIVE];
        assert old(sendBuffer) + [BinFraming.KEEP_ALIVE] == [BinFraming.KEEP_ALIVE];
      }
    }

    /** `lost` is the exception for a broken connection; when nothing can be sent now the buffer stays as it is. */
    method PerformSend(send: Send) returns (wire: string, lost: bool)
      requires Valid()
      modifies this`sendBuffer
      ensures Valid()
      ensures lost == (old(sendBuffer) != "" && send.Broken?)
      ensures wire == if send.Sent? then old(sendBuffer)[..AtMost(send.n, old(sendBuffer))] else ""
      ensures sendBuffer == old(sendBuffer)[|wire|..] && Abs() == old(Abs()).(sendBuf := sendBuffer)
    {
      wire, lost := "", false;
      if sendBuffer == "" {
        return;
      }
      match send {
        case Sent(n) =>
          var k := AtMost(n, sendBuffer);
          wire := sendBuffer[..k];
          sendBuffer := sendBuffer[k..];
        case Again =>
        case Broken => lost := true;
      }
    }

    /** Takes a response for the oldest request in flight. */
    method OnResponse(answer: string) returns (done: Finished)
      requires sentRequests != []
      modifies this`sentRequests
      ensures sentRequests == old(sentRequests)[1..]
      ensures done == Finished(old(sentRequests)[0].id, true, answer)
    {
      var request := sentRequests[0];
      sentRequests := sentRequests[1..];
      done := Finished(request.id, true, answer);
    }

    /**
     One read of the bytes `d`: the callbacks called, in order. There is a request in flight for every
     response, which the invariant of the state machine guarantees.
     */
    method PerformRecv(d: string) returns (done: seq<Finished>, lost: bool)
      requires Valid()
      requires |ClientRead(Abs(), d).answers| <= |sentRequests|
      modifies this`active, this`sentRequests, parser
      ensures var r := ClientRead(old(Abs()), d);
        && done == Successes(old(sentRequests), r.answers) && lost == !r.kept
        && active == r.c.active && sentRequests == r.c.sent
        && (!lost ==> Valid() && Abs() == r.c)
    {
      hide Fold, Payloads, Wrapped;
      ghost var before := Abs();
      ghost var read := ClientRead(before, d);
      var connected, responses, fine;
      ghost var notHandedOut;
      connected, responses, fine, notHandedOut := parser.Receive(d);
      ReadingOf(before, d, connected, responses, notHandedOut);
      active := active || connected;
      done := [];
      var i := 0;
      while i < |responses|
        modifies this`sentRequests
        invariant i <= |responses| && sentRequests == before.sent[i..]
        invariant |done| == i && forall j :: 0 <= j < i ==> done[j] == Finished(before.sent[j].id, true, responses[j])
      {
        var one := OnResponse(responses[i]);
        done := done + [one];
        i := i + 1;
      }
      lost := !fine;
      assert done == Successes(before.sent, responses);
    }

    /** The destructor: every request still in flight fails. */
    method Destroy() returns (done: seq<Finished>)
      modifies this`sentRequests
      ensures done == Failures(old(sentRequests)) && sentRequests == []
    {
      ghost var sent := sentRequests;
      done := [];
      while sentRequests != []
        invariant |done| <= |sent| && sentRequests == sent[|done|..]
        invariant done == Failures(sent)[..|done|]
        decreases |sentRequests|
      {
        done := done + [Finished(sentRequests[0].id, false, "")];
        sentRequests := sentRequests[1..];
      }
      assert done == Failures(sent);
    }
  }

  /** What a receiver's account of one read means for the connection. */
  lemma ReadingOf(c: Client, d: string, connected: bool, responses: seq<string>, notHandedOut: seq<string>)
    requires var r := Fold(ClientStep, c.mode, d);
      && r.events == Announced(connected) + Wrapped(responses + notHandedOut)
      && (if r.stopped then |notHandedOut| <= 1 && (notHandedOut == [] ==> responses == []) else notHandedOut == [])
    ensures var r := ClientRead(c, d);
      r.answers == responses && r.c.active == (c.active || connected)
  {
    hide Fold, Payloads;
    PayloadsOf(connected, responses + notHandedOut);
    if notHandedOut == [] {
      assert responses + notHandedOut == responses;
    } else {
      assert (responses + notHandedOut)[..|responses|] == responses;
    }
    var ds := responses + notHandedOut;
    assert forall e :: e in Wrapped(ds) ==> e.Message?;
    assert connected ==> (Announced(connected) + Wrapped(ds))[0] == Connected;
  }

  /** The connections are the client's halves of the links, and share no parser. */
  ghost predicate Mirrors(cs: map<nat, Connection>, ls: map<nat, Link>)
    reads cs.Values, set c | c in cs.Values :: c.parser
  {
    && cs.Keys == ls.Keys
    && (forall s :: s in cs ==> cs[s].sock == s && cs[s].Valid() && cs[s].Abs() == ls[s].c)
    && (forall a, b :: a in cs && b in cs && a != b ==> cs[a].parser != cs[b].parser)
  }

  /** The connections other than `sock`, which none of its objects belongs to. */
  lemma OtherConnections(cs: map<nat, Connection>, ls: map<nat, Link>, sock: nat)
    requires Mirrors(cs, ls)
    ensures Mirrors(cs - {sock}, ls - {sock})
    ensures sock in cs <==> sock in ls
    ensures sock in cs ==> cs[sock].sock == sock && cs[sock].Valid() && cs[sock].Abs() == ls[sock].c
    ensures sock in cs ==> forall c :: c in (cs - {sock}).Values ==> c != cs[sock] && c.parser != cs[sock].parser
  {
    hide Connection.Abs, Connection.Valid;
  }

  lemma WithConnection(cs: map<nat, Connection>, ls: map<nat, Link>, conn: Connection, l: Link)
    requires Mirrors(cs - {conn.sock}, ls - {conn.sock})
    requires conn.Valid() && conn.Abs() == l.c
    requires forall c :: c in (cs - {conn.sock}).Values ==> c.parser != conn.parser
    ensures Mirrors(cs[conn.sock := conn], ls[conn.sock := l])
  {
    hide Connection.Abs, Connection.Valid;
    var rest := cs - {conn.sock};
    forall s | s in rest
      ensures rest[s].parser != conn.parser
    {
      assert rest[s] in rest.Values;
    }
    assert rest.Keys == (ls - {conn.sock}).Keys;
    assert cs[conn.sock := conn].Keys == rest.Keys + {conn.sock};
    assert ls[conn.sock := l].Keys == (ls - {conn.sock}).Keys + {conn.sock};
  }

  /** What the pool sees of a change to one link. */
  lemma Restored(cs: map<nat, Connection>, conn: Connection)
    requires conn.sock in cs && cs[conn.sock] == conn
    ensures cs[conn.sock := conn] == cs
  {}

  /** The bytes `wire` have gone out on `sock` between `t` and `u`; none if the connection is gone. */
  predicate Wired(t: System, u: System, sock: nat, wire: string) {
    if sock in t.links && sock in u.links then u.links[sock].up == t.links[sock].up + wire else wire == ""
  }

  /** A connection that was lost between `t` and `u` is replaced, unless connecting fails. */
  function Reopened(t: System, u: System, again: Option<nat>): System {
    if u.links.Keys != t.links.Keys && again.Some? then SetLink(u, again.value, NEW_LINK) else u
  }

  /** `hiapi::client::BinClientA`. `finished` records the callbacks called; a request's id is its number. */
  class BinClientA {
    var connections: map<nat, Connection>
    var free: map<nat, Connection>
    var newRequests: seq<Request>
    var calls: nat
    var finished: seq<Finished>

    /** The objects of the pool's connections. */
    ghost function Objects(): set<object>
      reads this
    {
      connections.Values + set c | c in connections.Values :: c.parser
    }

    /** The free connections are connections. */
    ghost predicate FreeAreConnections()
      reads this
    {
      forall s :: s in free ==> s in connections && free[s] == connections[s]
    }

    /** The pool is the client's side of the system `t`. */
    ghost predicate Shows(t: System)
      reads this, Objects()
    {
      && Mirrors(connections, t.links)
      && FreeAreConnections() && free.Keys == t.free
      && newRequests == t.queue && calls == |t.calls| && finished == t.finished
    }

    constructor ()
      ensures Shows(RpcSystem.INIT) && connections == map[]
    {
      connections := map[];
      free := map[];
      newRequests := [];
      calls := 0;
      finished := [];
    }

    /** `call`, which every caller may use at any time. */
    method Call(data: string, ghost t: System)
      requires Shows(t)
      modifies this
      ensures Shows(CallStep(t, data)) && connections == old(connections)
    {
      hide Mirrors;
      newRequests := newRequests + [Request(calls, data)];
      calls := calls + 1;
    }

    method EstablishNewConnection(sock: nat, now: nat, ghost t: System)
      requires Shows(t) && sock !in connections
      modifies this
      ensures Shows(SetLink(t, sock, NEW_LINK)) && sock in connections
      ensures connections == old(connections)[sock := connections[sock]]
      ensures fresh(connections[sock]) && fresh(connections[sock].parser)
    {
      hide Connection.Abs, Connection.Valid, Mirrors;
      OtherConnections(connections, t.links, sock);
      assert connections - {sock} == connections;
      var conn := new Connection(sock, now);
      WithConnection(connections, t.links, conn, NEW_LINK);
      connections := connections[sock := conn];
    }

    /** `removeConnection`, and the destructor's callbacks for what is still in flight. */
    method RemoveConnection(conn: Connection, ghost t: System)
      requires conn.sock in connections && connections[conn.sock] == conn && conn.sock in t.links
      requires Mirrors(connections - {conn.sock}, t.links - {conn.sock})
      requires forall c :: c in (connections - {conn.sock}).Values ==> c != conn
      requires conn.sentRequests == t.links[conn.sock].c.sent
      requires FreeAreConnections() && free.Keys == t.free
      requires newRequests == t.queue && calls == |t.calls| && finished == t.finished
      modifies this, conn`sentRequests
      ensures Shows(LoseLink(t, conn.sock)) && connections == old(connections) - {conn.sock}
    {
      hide Connection.Abs, Connection.Valid, Mirrors, LoseLink;
      LoseLinkView(t, conn.sock);
      var failures := conn.Destroy();
      finished := finished + failures;
      connections := connections - {conn.sock};
      free := free - {conn.sock};
    }

    /** A lost connection is removed, and a new one opened unless that fails. */
    method OnLostConnection(conn: Connection, again: Option<nat>, now: nat, ghost t: System)
      requires conn.sock in connections && connections[conn.sock] == conn && conn.sock in t.links
      requires Mirrors(connections - {conn.sock}, t.links - {conn.sock})
      requires forall c :: c in (connections - {conn.sock}).Values ==> c != conn
      requires conn.sentRequests == t.links[conn.sock].c.sent
      requires FreeAreConnections() && free.Keys == t.free
      requires newRequests == t.queue && calls == |t.calls| && finished == t.finished
      requires again.Some? ==> again.value !in connections
      modifies this, conn`sentRequests
      ensures Shows(Reopened(t, LoseLink(t, conn.sock), again))
    {
      hide Connection.Abs, Connection.Valid, Mirrors, LoseLink;
      LoseLinkView(t, conn.sock);
      ghost var u := LoseLink(t, conn.sock);
      assert conn.sock !in u.links;
      RemoveConnection(conn, t);
      if again.Some? {
        EstablishNewConnection(again.value, now, u);
      }
    }

    /** `performSend`, which gives the connection up if it is broken. */
    method PerformSend(conn: Connection, send: Send, again: Option<nat>, now: nat, ghost t: System)
      returns (wire: string)
      requires Shows(t) && conn.sock in connections && connections[conn.sock] == conn
      requires again.Some? ==> again.value !in connections
      modifies this, conn`sendBuffer, conn`sentRequests
      ensures var u := Reopened(t, ClientSend(t, conn.sock, send), again);
        Shows(u) && Wired(t, u, conn.sock, wire)
      ensures var buffer := t.links[conn.sock].c.sendBuf;
        wire == if send.Sent? then buffer[..AtMost(send.n, buffer)] else ""
      ensures send.Broken? || connections == old(connections)
    {
      hide Connection.Abs, Connection.Valid, Mirrors, LoseLink, ClientSend, Moved, Reopened, Wired;
      OtherConnections(connections, t.links, conn.sock);
      SameActivity(connections, t.links);
      ghost var l := t.links[conn.sock];
      SendReopens(t, conn.sock, send, again);
      var lost;
      wire, lost := conn.PerformSend(send);
      MovedIs(l, wire);
      if lost {
        OnLostConnection(conn, again, now, t);
      } else {
        WithConnection(connections, t.links, conn, Moved(l, wire));
        Restored(connections, conn);
      }
    }

    /** The head of the queue goes to `conn`. */
    method AssignTo(conn: Connection, ghost t: System)
      requires Shows(t) && conn.sock in connections && connections[conn.sock] == conn && newRequests != []
      modifies this`newRequests, conn`sendBuffer, conn`sentRequests
      ensures Shows(Assign(t, conn.sock))
    {
      hide Connection.Abs, Connection.Valid, Mirrors;
      OtherConnections(connections, t.links, conn.sock);
      ghost var l := t.links[conn.sock];
      conn.AddRequest(newRequests[0]);
      newRequests := newRequests[1..];
      WithConnection(connections, t.links, conn, l.(c := RpcLink.AddRequest(l.c, t.queue[0])));
      Restored(connections, conn);
    }

    method OnWrite(sock: nat, send: Send, again: Option<nat>, now: nat, ghost t: System) returns (wire: string)
      requires Shows(t) && (again.Some? ==> again.value !in connections)
      modifies this, if sock in connections then {connections[sock]} else {}
      ensures var u := Reopened(t, if sock in t.links then OnWriteStep(t, sock, send) else t, again);
        Shows(u) && Wired(t, u, sock, wire)
      ensures send.Broken? || connections == old(connections)
    {
      hide Connection.Abs, Connection.Valid, Mirrors, ClientSend, Assign;
      OtherConnections(connections, t.links, sock);
      wire := "";
      if sock !in connections {
        return;
      }
      var conn := connections[sock];
      if conn.active {
        if conn.sendBuffer == "" {
          if newRequests != [] {
            AssignTo(conn, t);
            AssignView(t, sock);
            wire := PerformSend(conn, send, again, now, Assign(t, sock));
          } else {
            free := free[sock := conn];
          }
          return;
        }
      } else if conn.sendBuffer == "" {
        free := free[sock := conn];
        return;
      }
      wire := PerformSend(conn, send, again, now, t);
    }

    /** `onError`. */
    method OnError(sock: nat, again: Option<nat>, now: nat, ghost t: System)
      requires Shows(t) && (again.Some? ==> again.value !in connections)
      modifies this, if sock in connections then {connections[sock]} else {}
      ensures Shows(Reopened(t, if sock in t.links then LoseLink(t, sock) else t, again))
    {
      hide Connection.Abs, Connection.Valid, Mirrors, LoseLink;
      OtherConnections(connections, t.links, sock);
      if sock in connections {
        OnLostConnection(connections[sock], again, now, t);
      }
    }

    /**
     One read of the bytes `d` that have arrived. In a state that a run reaches, every response found has
     its request in flight, so that `Connection.PerformRecv` may be called.
     */
    method OnRead(sock: nat, d: string, again: Option<nat>, now: nat, ghost h: string -> string, ghost t: System)
      requires Shows(t) && Inv(h, t) && (again.Some? ==> again.value !in connections)
      requires sock in t.links ==> d <= t.links[sock].down
      modifies this, if sock in connections then {connections[sock], connections[sock].parser} else {}
      ensures Shows(Reopened(t, if sock in t.links then OnReadStep(t, sock, |d|) else t, again))
      ensures (sock in t.links && !ClientRead(t.links[sock].c, d).kept) || connections == old(connections)
    {
      hide Connection.Abs, Connection.Valid, Mirrors, Inv, ClientRead, LoseLink, OnReadStep;
      OtherConnections(connections, t.links, sock);
      if sock !in connections {
        return;
      }
      var conn := connections[sock];
      ghost var l := t.links[sock];
      ghost var v := ReadView(h, t, sock, |d|);
      assert l.down[..|d|] == d;
      var done, lost := conn.PerformRecv(d);
      finished := finished + done;
      if lost {
        SameElsewhere(t.links, v.links, sock);
        LoseLinkView(v, sock);
        OnLostConnection(conn, again, now, v);
      } else {
        WithConnection(connections, t.links, conn, v.links[sock]);
        Restored(connections, conn);
      }
    }

    /** `conn` needs no keep-alive at the time `now`. */
    predicate Quiet(conn: Connection, now: nat)
      reads conn
    {
      conn.sendBuffer != "" || now <= conn.lastActivity + conn.keepalivePeriod
    }

    /** `checkKeepAlive` for one connection. A broken connection raises an exception that `handleEvents` swallows. */
    method CheckKeepAlive(conn: Connection, now: nat, send: Send, ghost t: System) returns (due: bool, wire: string)
      requires Shows(t) && conn.sock in connections && connections[conn.sock] == conn
      modifies this, conn
      ensures due == (t.links[conn.sock].c.sendBuf == "" && now > old(conn.lastActivity) + conn.keepalivePeriod)
      ensures conn.lastActivity == if due then now else old(conn.lastActivity)
      ensures var u := if due then KeepAliveStep(t, conn.sock, send) else t;
        Shows(u) && conn.sock in u.links && Wired(t, u, conn.sock, wire)
      ensures connections == old(connections) && Quiet(conn, now)
    {
      hide Connection.Abs, Connection.Valid, Mirrors, ClientSend, KeepAlive;
      OtherConnections(connections, t.links, conn.sock);
      ghost var l := t.links[conn.sock];
      due := conn.CheckKeepAlive(now);
      wire := "";
      if due {
        ghost var u := WithClient(t, conn.sock, KeepAlive(l.c));
        WithConnection(connections, t.links, conn, u.links[conn.sock]);
        Restored(connections, conn);
        SendView(u, conn.sock, if send.Broken? then Again else send);
        wire := PerformSend(conn, if send.Broken? then Again else send, None, now, u);
      } else {
        WithConnection(connections, t.links, conn, l);
        Restored(connections, conn);
        assert t.links[conn.sock := l] == t.links;
      }
    }

    /**
     `checkKeepAlive`: one connection after the other, in the order of the sockets, until a broken one
     raises the exception; `wires` are the bytes that went out. Without it no keep-alive is due any more.
     */
    method CheckKeepAlives(now: nat, ghost h: string -> string, ghost t: System)
      returns (wires: map<nat, string>, complete: bool, ghost steps: seq<Step>)
      requires Shows(t)
      modifies this, set s | s in connections :: connections[s]
      ensures Shows(Play(h, t, steps)) && connections == old(connections)
      ensures forall i :: 0 <= i < |steps| ==> steps[i].CheckKeepAlive? && steps[i].sock in connections
      ensures AllWired(t, Play(h, t, steps), wires)
      ensures complete ==> forall s :: s in connections ==> Quiet(connections[s], now)
    {
      hide Connection.Abs, Connection.Valid, Mirrors, KeepAliveStep, Quiet, Play, AllWired, Wired, Next;
      wires, complete, steps := map[], true, [];
      PlayMore(h, t, [], Step.Lose(0));
      NoneWired(t);
      Apart(connections, t.links);
      var rest := connections.Keys;
      while rest != {}
        invariant Shows(Play(h, t, steps)) && connections == old(connections) && rest <= connections.Keys
        invariant forall i :: 0 <= i < |steps| ==> steps[i].CheckKeepAlive? && steps[i].sock in connections
        invariant forall s :: s in wires ==> s in connections && s !in rest
        invariant AllWired(t, Play(h, t, steps), wires)
        invariant forall s :: s in connections && s !in rest ==> Quiet(connections[s], now)
        decreases rest
      {
        var s := Least(rest);
        ghost var u := Play(h, t, steps);
        SameActivity(connections, u.links);
        var send: Send := *;
        var due, wire := CheckKeepAlive(connections[s], now, send, u);
        if due {
          PlayKeepAlive(h, t, steps, s, send);
          OneMoreWired(t, u, wires, s, send, wire);
          steps := steps + [Step.CheckKeepAlive(s, send)];
          wires := wires[s := wire];
          if send.Broken? {
            complete := false;
            return;
          }
        }
        rest := rest - {s};
      }
    }

    /** The first free connection that is active, in the order of the sockets, if there is one. */
    method FirstActive() returns (picked: nat)
      ensures (exists s :: s in free && free[s].active) ==> picked in free && free[picked].active
      ensures picked in free && free[picked].active ==> forall s :: s in free && free[s].active ==> picked <= s
    {
      picked := 0;
      var rest := free.Keys;
      while rest != {}
        invariant rest <= free.Keys
        invariant forall s :: s in free && s !in rest ==> !free[s].active
        invariant forall s, r :: s in free && s !in rest && r in rest ==> s < r
        decreases rest
      {
        picked := Least(rest);
        if free[picked].active {
          return;
        }
        rest := rest - {picked};
      }
    }

    /**
     The first request in the queue goes to the first free connection that is active, in the order of the
     sockets. `stray` says that the source then erases an entry that has been erased, which is undefined.
     */
    method PutRequestsToFreeConnections(send: Send, again: Option<nat>, now: nat, ghost t: System)
      returns (picked: nat, wire: string, stray: bool)
      requires Shows(t) && (again.Some? ==> again.value !in connections)
      modifies this, set s | s in free :: free[s]
      ensures var u := Reopened(t, DispatchStep(t, picked, send), again); Shows(u) && Wired(t, u, picked, wire)
      ensures t.queue != [] && (exists s :: s in t.free && s in t.links && t.links[s].c.active) ==>
        picked in t.free && picked in t.links && t.links[picked].c.active
      ensures t.queue != [] && picked in t.free && picked in t.links && t.links[picked].c.active ==>
        forall s :: s in t.free && s in t.links && t.links[s].c.active ==> picked <= s
      ensures stray ==
        (send.Broken? && t.queue != [] && picked in t.free && picked in t.links && t.links[picked].c.active)
    {
      hide Connection.Abs, Connection.Valid, Mirrors, ClientSend, Assign;
      picked, wire, stray := 0, "", false;
      if newRequests == [] {
        return;
      }
      SameActivity(connections, t.links);
      picked := FirstActive();
      if picked in free && free[picked].active {
        OtherConnections(connections, t.links, picked);
        wire, stray := DispatchTo(free[picked], send, again, now, t);
      }
    }

    /** The request goes to `conn`, which is free no longer. */
    method DispatchTo(conn: Connection, send: Send, again: Option<nat>, now: nat, ghost t: System)
      returns (wire: string, stray: bool)
      requires Shows(t) && conn.sock in free && free[conn.sock] == conn && newRequests != []
      requires again.Some? ==> again.value !in connections
      modifies this, conn
      ensures var v := ClientSend(Assign(t, conn.sock), conn.sock, send);
        var u := Reopened(t, v.(free := v.free - {conn.sock}), again);
        Shows(u) && Wired(t, u, conn.sock, wire)
      ensures stray == send.Broken?
    {
      hide Connection.Abs, Connection.Valid, Mirrors, ClientSend, Assign;
      OtherConnections(connections, t.links, conn.sock);
      AssignTo(conn, t);
      AssignView(t, conn.sock);
      StillFree(t, conn.sock, send);
      wire := PerformSend(conn, send, again, now, Assign(t, conn.sock));
      stray := conn.sock !in free;
      free := free - {conn.sock};
    }

    lemma FreeKnown(t: System)
      requires Shows(t)
      ensures forall s :: s in free ==> s in connections && free[s] == connections[s]
    {}

    /** The client takes part in every step of the server. */
    lemma Follow(h: string -> string, t: System, step: Step)
      requires Shows(t) && OfServer(step)
      ensures Shows(Next(h, t, step))
    {
      ServerKeepsClients(h, t, step);
      hide Connection.Abs, Connection.Valid, Next;
    }
  }

  /** The connection is free after the send, unless that has given it up. */
  lemma StillFree(t: System, sock: nat, send: Send)
    requires sock in t.links && sock in t.free && t.queue != []
    ensures var u := ClientSend(Assign(t, sock), sock, send);
      sock in u.free <==> !send.Broken?
  {
    assert Frame(t.queue[0].data) != "";
    hide Frame;
  }

  lemma AssignView(t: System, sock: nat)
    requires sock in t.links && t.queue != []
    ensures var u := Assign(t, sock);
      u.links.Keys == t.links.Keys && u.links[sock].up == t.links[sock].up
  {}

  /** A prefix of the client's buffer moves onto the wire. */
  function Moved(l: Link, wire: string): Link
    requires |wire| <= |l.c.sendBuf|
  {
    l.(up := l.up + wire, c := l.c.(sendBuf := l.c.sendBuf[|wire|..]))
  }

  lemma MovedIs(l: Link, wire: string)
    requires |wire| <= |l.c.sendBuf|
    ensures Moved(l, wire).c == l.c.(sendBuf := l.c.sendBuf[|wire|..]) && Moved(l, wire).up == l.up + wire
  {}

  /** The bytes `wires` have gone out between `t` and `u`, and no connection has come or gone. */
  ghost predicate AllWired(t: System, u: System, wires: map<nat, string>) {
    && u.links.Keys == t.links.Keys
    && forall s :: s in t.links ==> u.links[s].up == t.links[s].up + (if s in wires then wires[s] else "")
  }

  lemma NoneWired(t: System)
    ensures AllWired(t, t, map[])
  {
    assert forall s :: s in t.links ==> t.links[s].up + "" == t.links[s].up;
  }

  lemma OneMoreWired(t: System, u: System, wires: map<nat, string>, sock: nat, send: Send, wire: string)
    requires AllWired(t, u, wires) && sock !in wires && sock in u.links
    requires Wired(u, KeepAliveStep(u, sock, send), sock, wire)
    ensures AllWired(t, KeepAliveStep(u, sock, send), wires[sock := wire])
  {
    var v := WithClient(u, sock, KeepAlive(u.links[sock].c));
    SendView(v, sock, if send.Broken? then Again else send);
    hide ClientSend, KeepAlive;
    assert t.links[sock].up + "" == t.links[sock].up;
  }

  lemma PlayKeepAlive(h: string -> string, t: System, steps: seq<Step>, sock: nat, send: Send)
    requires var u := Play(h, t, steps); sock in u.links && u.links[sock].c.sendBuf == ""
    ensures Play(h, t, steps + [CheckKeepAlive(sock, send)]) == KeepAliveStep(Play(h, t, steps), sock, send)
  {
    PlayMore(h, t, steps, CheckKeepAlive(sock, send));
    hide Play, KeepAliveStep;
  }

  lemma Apart(cs: map<nat, Connection>, ls: map<nat, Link>)
    requires Mirrors(cs, ls)
    ensures cs.Keys == ls.Keys && forall a :: a in cs ==> cs[a].sock == a
  {
    hide Connection.Abs, Connection.Valid;
  }

  /** What the pool sees of a send. */
  lemma SendView(t: System, sock: nat, send: Send)
    requires sock in t.links
    ensures var l := t.links[sock];
      if l.c.sendBuf != "" && send.Broken? then ClientSend(t, sock, send) == LoseLink(t, sock)
      else
        var wire := if send.Sent? then l.c.sendBuf[..AtMost(send.n, l.c.sendBuf)] else "";
        ClientSend(t, sock, send) == t.(links := t.links[sock := Moved(l, wire)])
  {
    hide LoseLink;
    var l := t.links[sock];
    assert l.up + "" == l.up && l.c.sendBuf[0..] == l.c.sendBuf;
    assert t.links[sock := l] == t.links;
  }

  /** The same, with the replacement of a lost connection and the bytes that go out. */
  lemma SendReopens(t: System, sock: nat, send: Send, again: Option<nat>)
    requires sock in t.links && (again.Some? ==> again.value !in t.links)
    ensures var l := t.links[sock];
      var u := Reopened(t, ClientSend(t, sock, send), again);
      if l.c.sendBuf != "" && send.Broken? then
        u == Reopened(t, LoseLink(t, sock), again) && Wired(t, u, sock, "")
      else
        var wire := if send.Sent? then l.c.sendBuf[..AtMost(send.n, l.c.sendBuf)] else "";
        u == t.(links := t.links[sock := Moved(l, wire)]) && Wired(t, u, sock, wire)
  {
    SendView(t, sock, send);
    LoseLinkView(t, sock);
    hide ClientSend, LoseLink;
    var l := t.links[sock];
    if l.c.sendBuf == "" || !send.Broken? {
      var wire := if send.Sent? then l.c.sendBuf[..AtMost(send.n, l.c.sendBuf)] else "";
      assert t.links[sock := Moved(l, wire)].Keys == t.links.Keys;
    }
  }

  /** What the pool sees of a read: the state before the connection is given up, if it is. */
  lemma ReadView(h: string -> string, t: System, sock: nat, n: nat) returns (v: System)
    requires Inv(h, t) && sock in t.links && n <= |t.links[sock].down|
    ensures var l := t.links[sock];
      var r := ClientRead(l.c, l.down[..n]);
      && |r.answers| <= |l.c.sent|
      && v.links == t.links[sock := l.(c := r.c, down := l.down[n..])]
      && v.free == t.free && v.queue == t.queue && v.calls == t.calls
      && v.finished == t.finished + Successes(l.c.sent, r.answers)
      && OnReadStep(t, sock, n) == if r.kept then v else LoseLink(v, sock)
  {
    hide ClientRead, LoseLink, Book;
    var l := t.links[sock];
    ClientReadInv(h, l, n);
    var r := ClientRead(l.c, l.down[..n]);
    var u := FinishFront(t, sock, Successes(l.c.sent, r.answers));
    v := u.(links := u.links[sock := l.(c := r.c, down := l.down[n..])]);
  }

  lemma SameElsewhere(a: map<nat, Link>, b: map<nat, Link>, sock: nat)
    requires sock in a && sock in b && b == a[sock := b[sock]]
    ensures a - {sock} == b - {sock}
  {}

  lemma SameActivity(cs: map<nat, Connection>, ls: map<nat, Link>)
    requires Mirrors(cs, ls)
    ensures cs.Keys == ls.Keys && forall s :: s in cs ==> cs[s].active == ls[s].c.active
  {
    hide Connection.Valid;
  }

  /** What the pool sees of a lost connection. */
  lemma LoseLinkView(t: System, sock: nat)
    requires sock in t.links
    ensures var u := LoseLink(t, sock);
      && u.links == t.links - {sock} && u.free == t.free - {sock}
      && u.queue == t.queue && u.calls == t.calls
      && u.finished == t.finished + Failures(t.links[sock].c.sent)
  {}

  method Least(s: set<nat>) returns (k: nat)
    requires s != {}
    ensures k in s && forall j :: j in s ==> k <= j
  {
    k :| k in s;
    var rest := s - {k};
    while rest != {}
      invariant rest <= s && k in s && forall j :: j in s && j !in rest ==> k <= j
      decreases rest
    {
      var j :| j in rest;
      if j < k {
        k := j;
      }
      rest := rest - {j};
    }
  }

  // ----- what the server's steps leave alone

  predicate OfServer(step: Step) {
    step.ServerReads? || step.ServerReplies? || step.ServerWrites? || step.ServerKills?
  }

  /** No client's half changes, nor anything of the pool's. */
  lemma ServerKeepsClients(h: string -> string, t: System, step: Step)
    requires OfServer(step)
    ensures var u := Next(h, t, step);
      && u.links.Keys == t.links.Keys && (forall k :: k in t.links ==> u.links[k].c == t.links[k].c)
      && u.free == t.free && u.queue == t.queue && u.calls == t.calls && u.finished == t.finished
  {
    hide ServerRead, HandleWaiting, Refill, SentWhole;
  }

  // ----- an entry that is erased twice

  /** A request for a connection that is free and active, and breaks as it is sent. */
  lemma Prepared(h: string -> string) returns (begun: System, sent: System, greeted: System, active: System)
    ensures begun == SetLink(RpcSystem.INIT, 0, NEW_LINK)
    ensures sent == OnWriteStep(begun, 0, Sent(|OPENING|)) && sent.links.Keys == {0}
    ensures greeted ==
      Next(h, Next(h, sent, ServerReads(0, |OPENING|, true, "HTTP/1.1 ")), ServerReplies(0, |HANDSHAKE|, false))
    ensures Inv(h, greeted) && greeted.links.Keys == {0} && greeted.links[0].down == HANDSHAKE
    ensures active == OnReadStep(greeted, 0, |HANDSHAKE|) && active.links.Keys == {0}
    ensures OnWriteStep(active, 0, Again) == active.(free := active.free + {0})
    ensures active.links[0].c.active && active.queue == [] && ClientRead(greeted.links[0].c, HANDSHAKE).kept
  {
    begun := SetLink(RpcSystem.INIT, 0, NEW_LINK);
    sent := OnWriteStep(begun, 0, Sent(|OPENING|));
    OpeningSent(begun);
    var read := Next(h, sent, ServerReads(0, |OPENING|, true, "HTTP/1.1 "));
    Greeted(h, sent);
    greeted := Next(h, read, ServerReplies(0, |HANDSHAKE|, false));
    PreparedInv(h);
    hide *;
    active := OnReadStep(greeted, 0, |HANDSHAKE|);
    Activated(greeted);
    Idles(active);
    HandshakeRead();
  }

  lemma Idles(t: System)
    requires 0 in t.links && t.links[0].c.sendBuf == "" && t.queue == []
    ensures OnWriteStep(t, 0, Again) == t.(free := t.free + {0})
  {}

  lemma OpeningSent(t: System)
    requires t == SetLink(RpcSystem.INIT, 0, NEW_LINK)
    ensures var u := OnWriteStep(t, 0, Sent(|OPENING|));
      u == t.(links := map[0 := Link(NEW_CLIENT.(sendBuf := ""), OPENING, "", NEW_SERVER)])
  {
    OpeningNotEmpty();
    hide OPENING;
    assert "" + OPENING == OPENING && OPENING[..|OPENING|] == OPENING && OPENING[|OPENING|..] == "";
  }

  lemma OpeningNotEmpty()
    ensures OPENING != "" && HANDSHAKE != ""
  {}

  /** The server reads the opening, grants it, and sends the handshake. */
  lemma Greeted(h: string -> string, t: System)
    requires t.links == map[0 := Link(NEW_CLIENT.(sendBuf := ""), OPENING, "", NEW_SERVER)]
    ensures var u := Next(h, Next(h, t, ServerReads(0, |OPENING|, true, "HTTP/1.1 ")),
                          ServerReplies(0, |HANDSHAKE|, false));
      && u.links.Keys == {0} && u.links[0].c == NEW_CLIENT.(sendBuf := "") && u.links[0].down == HANDSHAKE
      && u.queue == t.queue
  {
    OpeningNotEmpty();
    hide OPENING, HANDSHAKE;
    assert OPENING[..|OPENING|] == OPENING && "" + OPENING == OPENING;
    assert HANDSHAKE[..|HANDSHAKE|] == HANDSHAKE && "" + HANDSHAKE == HANDSHAKE;
    assert [] + [HANDSHAKE] == [HANDSHAKE];
  }

  lemma Activated(t: System)
    requires t.links.Keys == {0} && t.links[0].c == NEW_CLIENT.(sendBuf := "") && t.links[0].down == HANDSHAKE
    requires t.queue == []
    ensures var u := OnReadStep(t, 0, |HANDSHAKE|);
      && u.links.Keys == {0} && u.links[0].c.active && u.links[0].c.sendBuf == "" && u.queue == []
  {
    HandshakeRead();
    hide ClientRead, HANDSHAKE, LoseLink;
    var r := ClientRead(t.links[0].c, HANDSHAKE);
    assert HANDSHAKE[..AtMost(|HANDSHAKE|, HANDSHAKE)] == HANDSHAKE;
    assert Successes(t.links[0].c.sent, r.answers) == [];
  }

  lemma HandshakeRead()
    ensures var r := ClientRead(NEW_CLIENT.(sendBuf := ""), HANDSHAKE);
      r.kept && r.answers == [] && r.c.active && r.c.sendBuf == ""
  {
    HandshakeRun(HANDSHAKE);
    PayloadsAnnounced(true);
    hide Fold, Payloads;
    assert [Connected] + [] == [Connected];
  }

  lemma PreparedInv(h: string -> string)
    ensures var t := Next(h, Next(h, RpcSystem.INIT, Establish(0)), OnWrite(0, Sent(|OPENING|)));
      Inv(h, Next(h, Next(h, t, ServerReads(0, |OPENING|, true, "HTTP/1.1 ")), ServerReplies(0, |HANDSHAKE|, false)))
  {
    hide *;
    InitInv(h);
    var a := Next(h, RpcSystem.INIT, Establish(0));
    NextInv(h, RpcSystem.INIT, Establish(0));
    NextInv(h, a, OnWrite(0, Sent(|OPENING|)));
    var b := Next(h, a, OnWrite(0, Sent(|OPENING|)));
    NextInv(h, b, ServerReads(0, |OPENING|, true, "HTTP/1.1 "));
    NextInv(h, Next(h, b, ServerReads(0, |OPENING|, true, "HTTP/1.1 ")), ServerReplies(0, |HANDSHAKE|, false));
  }

  /**
   The source can come to erase a free connection twice: the first request for a connection breaks as it is
   sent.
   */
  method StrayErase(ghost h: string -> string) returns (stray: bool)
    ensures stray
  {
    ghost var begun, sent, greeted, active := Prepared(h);
    hide Next, OnReadStep, OnWriteStep, BinClientA.Shows, Inv, OPENING, HANDSHAKE;
    var pool := new BinClientA();
    pool.EstablishNewConnection(0, 0, RpcSystem.INIT);
    var wire := pool.OnWrite(0, Sent(|OPENING|), None, 0, begun);
    pool.Follow(h, sent, ServerReads(0, |OPENING|, true, "HTTP/1.1 "));
    pool.Follow(h, Next(h, sent, ServerReads(0, |OPENING|, true, "HTTP/1.1 ")), ServerReplies(0, |HANDSHAKE|, false));
    pool.OnRead(0, HANDSHAKE, None, 0, h, greeted);
    wire := pool.OnWrite(0, Again, None, 0, active);
    ghost var idle := active.(free := active.free + {0});
    pool.Call("", idle);
    pool.FreeKnown(CallStep(idle, ""));
    var picked;
    picked, wire, stray := pool.PutRequestsToFreeConnections(Broken, None, 0, CallStep(idle, ""));
  }
}
