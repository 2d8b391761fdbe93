/**
 The client pool and its server as a state machine: callers hand over requests, the pool dispatches
 them to connections, bytes move in pieces of any size, connections open, fail and are replaced. What
 is proved holds in every state of every run.
 */
module RpcSystem {
  import opened Machine
  import opened BinFraming
  import opened BinParsers
  import opened RpcLink

  /** A call of a request's callback. */
  datatype Finished = Finished(id: nat, ok: bool, answer: string)

  /** Who holds a request that has left the queue. */
  datatype Owner = InFlight(sock: nat) | Done

  /**
   `BinClientA` with the connections' other ends. `free` are the keys of `m_free_connections`, whose
   values are the same connections. `calls` and `owner` are history that no step depends on; `fault`
   would record an answer taken off an empty queue.
   */
  datatype System = System(
    links: map<nat, Link>, free: set<nat>, queue: seq<Request>,
    calls: seq<string>, owner: map<nat, Owner>, finished: seq<Finished>, fault: bool)

  const INIT := System(map[], {}, [], [], map[], [], false)

  /** The outcome of a `send`: some bytes, none for now, or a broken connection. */
  datatype Send = Sent(n: nat) | Again | Broken

  datatype Step =
    | Call(data: string)
    | Establish(sock: nat)
    | OnWrite(sock: nat, send: Send)
    | Dispatch(sock: nat, send: Send)
    | OnRead(sock: nat, n: nat)
    | CheckKeepAlive(sock: nat, send: Send)
    | Lose(sock: nat)
    | ServerReads(sock: nat, n: nat, grant: bool, refusal: string)
    | ServerReplies(sock: nat, n: nat, dies: bool)
    | ServerWrites(sock: nat, n: nat)
    | ServerKills(sock: nat)

  function AtMost(n: nat, s: string): nat { if n <= |s| then n else |s| }

  // ----- the client's steps

  function CallStep(t: System, data: string): System {
    t.(queue := t.queue + [Request(|t.calls|, data)], calls := t.calls + [data])
  }

  /** The callbacks of the first requests in flight on `sock` have been called. */
  function FinishFront(t: System, sock: nat, outs: seq<Finished>): System
    requires sock in t.links && |outs| <= |t.links[sock].c.sent|
  {
    var l := t.links[sock];
    var ids := set i | 0 <= i < |outs| :: l.c.sent[i].id;
    t.(links := t.links[sock := l.(c := l.c.(sent := l.c.sent[|outs|..]))],
       finished := t.finished + outs,
       owner := map id | id in t.owner :: if id in ids then Done else t.owner[id])
  }

  function Failures(sent: seq<Request>): (outs: seq<Finished>)
    ensures |outs| == |sent|
    ensures forall i :: 0 <= i < |sent| ==> outs[i] == Finished(sent[i].id, false, "")
  {
    seq(|sent|, i requires 0 <= i < |sent| => Finished(sent[i].id, false, ""))
  }

  function Successes(sent: seq<Request>, answers: seq<string>): (outs: seq<Finished>)
    requires |answers| <= |sent|
    ensures |outs| == |answers|
    ensures forall i :: 0 <= i < |answers| ==> outs[i] == Finished(sent[i].id, true, answers[i])
  {
    seq(|answers|, i requires 0 <= i < |answers| => Finished(sent[i].id, true, answers[i]))
  }

  /** `onLostConnection` and the connection's destructor. */
  function LoseLink(t: System, sock: nat): System
    requires sock in t.links
  {
    var u := FinishFront(t, sock, Failures(t.links[sock].c.sent));
    u.(links := u.links - {sock}, free := u.free - {sock})
  }

  function WithClient(t: System, sock: nat, c: Client): System
    requires sock in t.links
  {
    t.(links := t.links[sock := t.links[sock].(c := c)])
  }

  /** `performSend` on the client's side. */
  function ClientSend(t: System, sock: nat, send: Send): System
    requires sock in t.links
  {
    var l := t.links[sock];
    if l.c.sendBuf == "" then t
    else match send
      case Sent(n) =>
        var k := AtMost(n, l.c.sendBuf);
        t.(links := t.links[sock := l.(up := l.up + l.c.sendBuf[..k], c := l.c.(sendBuf := l.c.sendBuf[k..]))])
      case Again => t
      case Broken => LoseLink(t, sock)
  }

  /** The head of the queue goes to a connection. */
  function Assign(t: System, sock: nat): System
    requires sock in t.links && t.queue != []
  {
    var r := t.queue[0];
    WithClient(t, sock, AddRequest(t.links[sock].c, r))
      .(queue := t.queue[1..], owner := t.owner[r.id := InFlight(sock)])
  }

  function OnWriteStep(t: System, sock: nat, send: Send): System
    requires sock in t.links
  {
    var c := t.links[sock].c;
    if c.sendBuf != "" then ClientSend(t, sock, send)
    else if c.active && t.queue != [] then ClientSend(Assign(t, sock), sock, send)
    else t.(free := t.free + {sock})
  }

  /** `putRequestsToFreeConnections` for the free connection it picks. */
  function DispatchStep(t: System, sock: nat, send: Send): System {
    if t.queue == [] || sock !in t.free || sock !in t.links || !t.links[sock].c.active then t
    else
      var u := ClientSend(Assign(t, sock), sock, send);
      u.(free := u.free - {sock})
  }

  /** `performRecv` on the client's side. */
  function OnReadStep(t: System, sock: nat, n: nat): System
    requires sock in t.links
  {
    var l := t.links[sock];
    var k := AtMost(n, l.down);
    var r := ClientRead(l.c, l.down[..k]);
    if |r.answers| > |l.c.sent| then t.(fault := true)
    else
      var u := FinishFront(t, sock, Successes(l.c.sent, r.answers));
      var v := u.(links := u.links[sock := l.(c := r.c, down := l.down[k..])]);
      if r.kept then v else LoseLink(v, sock)
  }

  /** A keep-alive that is due. The exception for a broken connection leaves the connection where it is. */
  function KeepAliveStep(t: System, sock: nat, send: Send): System
    requires sock in t.links
  {
    ClientSend(WithClient(t, sock, KeepAlive(t.links[sock].c)), sock, if send.Broken? then Again else send)
  }

  // ----- the server's steps

  function SetLink(t: System, sock: nat, l: Link): System { t.(links := t.links[sock := l]) }

  function SendDown(l: Link, n: nat): Link {
    var s := Refill(l.s);
    var k := AtMost(n, s.sendBuf);
    l.(down := l.down + s.sendBuf[..k], s := s.(sendBuf := s.sendBuf[k..]))
  }

  function ServerReadsLink(h: string -> string, l: Link, n: nat, grant: bool, refusal: string): Link {
    if !l.s.registered || !IsHttpReply(refusal) then l
    else
      var k := AtMost(n, l.up);
      l.(up := l.up[k..], s := ServerRead(h, l.s, l.up[..k], grant, refusal))
  }

  /** `performSend` returns true: there was something to send, and all of it has been sent. */
  predicate SentWhole(s: Server, n: nat) { 0 < |Refill(s).sendBuf| <= n }

  /**
   One turn of the loops in `handleEvents` that drain the response queues; `dies` says that the connection
   is found dead if its response has not been sent as a whole.
   */
  function ServerRepliesLink(h: string -> string, l: Link, n: nat, dies: bool): Link {
    if l.s.outq == [] then l
    else
      var a := l.(s := l.s.(resps := l.s.resps + [l.s.outq[0]], outq := l.s.outq[1..], waiting := false));
      var b := SendDown(a, n);
      if dies && !SentWhole(a.s, n) then b.(s := b.s.(registered := false)) else b.(s := HandleWaiting(h, b.s))
  }

  // ----- runs

  function Next(h: string -> string, t: System, step: Step): System {
    match step
    case Call(data) => CallStep(t, data)
    case Establish(sock) => if sock in t.links then t else SetLink(t, sock, NEW_LINK)
    case OnWrite(sock, send) => if sock in t.links then OnWriteStep(t, sock, send) else t
    case Dispatch(sock, send) => DispatchStep(t, sock, send)
    case OnRead(sock, n) => if sock in t.links then OnReadStep(t, sock, n) else t
    case CheckKeepAlive(sock, send) =>
      if sock in t.links && t.links[sock].c.sendBuf == "" then KeepAliveStep(t, sock, send) else t
    case Lose(sock) => if sock in t.links then LoseLink(t, sock) else t
    case ServerReads(sock, n, grant, refusal) =>
      if sock in t.links then SetLink(t, sock, ServerReadsLink(h, t.links[sock], n, grant, refusal)) else t
    case ServerReplies(sock, n, dies) =>
      if sock in t.links then SetLink(t, sock, ServerRepliesLink(h, t.links[sock], n, dies)) else t
    case ServerWrites(sock, n) =>
      if sock in t.links && t.links[sock].s.registered then SetLink(t, sock, SendDown(t.links[sock], n)) else t
    case ServerKills(sock) =>
      if sock in t.links then
        SetLink(t, sock, t.links[sock].(s := t.links[sock].s.(registered := false)))
      else t
  }

  function Execute(h: string -> string, steps: seq<Step>): System {
    if steps == [] then INIT else Next(h, Execute(h, steps[..|steps| - 1]), steps[|steps| - 1])
  }

  /** Several steps from `t`. */
  function Play(h: string -> string, t: System, steps: seq<Step>): System {
    if steps == [] then t else Next(h, Play(h, t, steps[..|steps| - 1]), steps[|steps| - 1])
  }

  lemma PlayMore(h: string -> string, t: System, steps: seq<Step>, step: Step)
    ensures Play(h, t, []) == t
    ensures Play(h, t, steps + [step]) == Next(h, Play(h, t, steps), step)
  {
    assert (steps + [step])[..|steps|] == steps;
  }

  // ----- the invariant

  /** How many requests have left the queue. */
  function Dispatched(t: System): int { |t.calls| - |t.queue| }

  /** The queue holds the latest calls, in call order. */
  predicate QueueInv(t: System) {
    && |t.queue| <= |t.calls|
    && forall i :: 0 <= i < |t.queue| ==> t.queue[i] == Request(Dispatched(t) + i, t.calls[Dispatched(t) + i])
  }

  /** Requests as they were made, in the order of their calls, and in flight on `sock`. */
  predicate SentAs(sent: seq<Request>, calls: seq<string>, dispatched: int, owner: map<nat, Owner>, sock: nat) {
    && (forall i :: 0 <= i < |sent| ==> sent[i].id < dispatched <= |calls| && sent[i].data == calls[sent[i].id])
    && (forall i :: 0 <= i < |sent| ==> sent[i].id in owner && owner[sent[i].id] == InFlight(sock))
    && (forall i, j :: 0 <= i < j < |sent| ==> sent[i].id < sent[j].id)
  }

  predicate SentInv(t: System, sock: nat)
    requires sock in t.links
  {
    SentAs(t.links[sock].c.sent, t.calls, Dispatched(t), t.owner, sock)
  }

  ghost predicate OwnerInv(t: System) {
    && (forall id :: id in t.owner <==> 0 <= id < Dispatched(t))
    && (forall id :: id in t.owner && t.owner[id].InFlight? ==>
          t.owner[id].sock in t.links && Holds(t.links[t.owner[id].sock].c.sent, id))
    && (forall id :: id in t.owner && t.owner[id].Done? ==> Called(t.finished, id))
  }

  ghost predicate Holds(sent: seq<Request>, id: nat) { exists i :: 0 <= i < |sent| && sent[i].id == id }

  ghost predicate Called(finished: seq<Finished>, id: nat) { exists i :: 0 <= i < |finished| && finished[i].id == id }

  /** Callbacks: at most one per request, and every success carries the handler's answer to that request. */
  predicate FinishedInv(h: string -> string, t: System) {
    && (forall i :: 0 <= i < |t.finished| ==>
          t.finished[i].id in t.owner && t.owner[t.finished[i].id] == Done && t.finished[i].id < |t.calls|)
    && (forall i, j :: 0 <= i < j < |t.finished| ==> t.finished[i].id != t.finished[j].id)
    && (forall i :: 0 <= i < |t.finished| && t.finished[i].ok && t.finished[i].id < |t.calls| ==>
          t.finished[i].answer == h(t.calls[t.finished[i].id]))
  }

  /** The bookkeeping of requests. */
  ghost predicate Book(h: string -> string, t: System) {
    && QueueInv(t) && OwnerInv(t) && FinishedInv(h, t) && !t.fault
    && (forall sock :: sock in t.links ==> SentInv(t, sock))
    && t.free <= t.links.Keys
  }

  ghost predicate LinksInv(h: string -> string, t: System) {
    forall sock :: sock in t.links ==> LinkInv(h, t.links[sock])
  }

  ghost predicate Inv(h: string -> string, t: System) { Book(h, t) && LinksInv(h, t) }

  lemma InitInv(h: string -> string)
    ensures Inv(h, INIT)
  {}

  // ----- bookkeeping of the elementary changes

  /** The same requests in the same places; connections with nothing in flight may come and go. */
  ghost predicate SameRequests(t: System, u: System) {
    && u.queue == t.queue && u.calls == t.calls && u.owner == t.owner && u.finished == t.finished && u.fault == t.fault
    && u.free <= u.links.Keys
    && (forall k :: k in t.links && t.links[k].c.sent != [] ==> k in u.links)
    && (forall k :: k in u.links ==> u.links[k].c.sent == if k in t.links then t.links[k].c.sent else [])
  }

  lemma SameOwner(t: System, u: System)
    requires OwnerInv(t) && SameRequests(t, u)
    ensures OwnerInv(u)
  {
    forall id | id in u.owner && u.owner[id].InFlight?
      ensures u.owner[id].sock in u.links && Holds(u.links[u.owner[id].sock].c.sent, id)
    {
      var k := t.owner[id].sock;
      var i :| 0 <= i < |t.links[k].c.sent| && t.links[k].c.sent[i].id == id;
    }
    hide Called, Holds;
  }

  lemma SameSent(t: System, u: System, k: nat)
    requires SameRequests(t, u) && k in u.links && (k in t.links ==> SentInv(t, k))
    ensures SentInv(u, k)
  {}

  lemma SameBook(h: string -> string, t: System, u: System)
    requires Book(h, t) && SameRequests(t, u)
    ensures Book(h, u)
  {
    SameOwner(t, u);
    SameHistory(h, t, u);
    hide OwnerInv, QueueInv, FinishedInv, SentInv;
    forall k | k in u.links
      ensures SentInv(u, k)
    {
      SameSent(t, u, k);
    }
  }

  lemma SameHistory(h: string -> string, t: System, u: System)
    requires QueueInv(t) && FinishedInv(h, t) && SameRequests(t, u)
    ensures QueueInv(u) && FinishedInv(h, u)
  {}

  /** A link may change in everything but its requests in flight. */
  lemma SetLinkBook(h: string -> string, t: System, sock: nat, l: Link)
    requires Book(h, t) && sock in t.links && l.c.sent == t.links[sock].c.sent
    ensures Book(h, SetLink(t, sock, l))
  {
    assert t.free <= t.links.Keys;
    hide Book;
    SameBook(h, t, SetLink(t, sock, l));
  }

  lemma NewLinkBook(h: string -> string, t: System, sock: nat)
    requires Book(h, t) && sock !in t.links
    ensures Book(h, SetLink(t, sock, NEW_LINK))
  {
    assert t.free <= t.links.Keys;
    hide Book;
    SameBook(h, t, SetLink(t, sock, NEW_LINK));
  }

  lemma RemoveLinkBook(h: string -> string, t: System, sock: nat)
    requires Book(h, t) && sock in t.links && t.links[sock].c.sent == []
    ensures Book(h, t.(links := t.links - {sock}, free := t.free - {sock}))
  {
    assert t.free <= t.links.Keys;
    hide Book;
    SameBook(h, t, t.(links := t.links - {sock}, free := t.free - {sock}));
  }

  lemma CallBook(h: string -> string, t: System, data: string)
    requires Book(h, t)
    ensures Book(h, CallStep(t, data))
  {
    var u := CallStep(t, data);
    CallOwner(t, data);
    assert Dispatched(u) == Dispatched(t);
    assert QueueInv(u);
    assert FinishedInv(h, u);
    forall k | k in u.links
      ensures SentInv(u, k)
    {
      assert SentInv(t, k);
    }
    hide OwnerInv, SentInv, QueueInv, FinishedInv;
  }

  lemma CallOwner(t: System, data: string)
    requires OwnerInv(t)
    ensures OwnerInv(CallStep(t, data))
  {
    assert Dispatched(CallStep(t, data)) == Dispatched(t);
    hide Holds, Called;
  }

  /** The oldest request in the queue becomes the youngest in flight on `sock`. */
  lemma AssignBook(h: string -> string, t: System, sock: nat)
    requires Book(h, t) && sock in t.links && t.queue != []
    ensures Book(h, Assign(t, sock))
  {
    AssignOwner(h, t, sock);
    AssignSent(h, t, sock);
    var u := Assign(t, sock);
    assert Dispatched(u) == Dispatched(t) + 1;
    assert QueueInv(u);
    assert FinishedInv(h, u);
    hide QueueInv, OwnerInv, FinishedInv, SentInv;
  }

  lemma AssignOwner(h: string -> string, t: System, sock: nat)
    requires Book(h, t) && sock in t.links && t.queue != []
    ensures OwnerInv(Assign(t, sock))
  {
    hide LinkInv, FinishedInv, SentInv;
    var u := Assign(t, sock);
    var id := t.queue[0].id;
    var sent := t.links[sock].c.sent;
    assert u.links[sock].c.sent == sent + [t.queue[0]];
    forall k | k in u.owner && u.owner[k].InFlight?
      ensures u.owner[k].sock in u.links && Holds(u.links[u.owner[k].sock].c.sent, k)
    {
      if k == id {
        assert u.links[sock].c.sent[|sent|].id == k;
      } else {
        var i :| 0 <= i < |t.links[t.owner[k].sock].c.sent| && t.links[t.owner[k].sock].c.sent[i].id == k;
        assert u.links[t.owner[k].sock].c.sent[i].id == k;
      }
    }
  }

  lemma AssignSent(h: string -> string, t: System, sock: nat)
    requires Book(h, t) && sock in t.links && t.queue != []
    ensures var u := Assign(t, sock); forall k :: k in u.links ==> SentInv(u, k)
  {
    var u := Assign(t, sock);
    forall k | k in u.links
      ensures SentInv(u, k)
    {
      if k == sock {
        AssignSentThere(h, t, sock);
      } else {
        AssignSentElsewhere(h, t, sock, k);
      }
    }
  }

  lemma AssignSentThere(h: string -> string, t: System, sock: nat)
    requires Book(h, t) && sock in t.links && t.queue != []
    ensures SentInv(Assign(t, sock), sock)
  {
    assert SentInv(t, sock);
    var u := Assign(t, sock);
    assert Dispatched(u) == Dispatched(t) + 1;
    assert t.queue[0] == Request(Dispatched(t), t.calls[Dispatched(t)]);
    assert u.links[sock].c.sent == t.links[sock].c.sent + [t.queue[0]];
    hide LinkInv, FinishedInv, OwnerInv, QueueInv;
  }

  lemma AssignSentElsewhere(h: string -> string, t: System, sock: nat, k: nat)
    requires Book(h, t) && sock in t.links && t.queue != [] && k in t.links && k != sock
    ensures SentInv(Assign(t, sock), k)
  {
    assert SentInv(t, k);
    var u := Assign(t, sock);
    assert Dispatched(u) == Dispatched(t) + 1;
    assert t.queue[0].id == Dispatched(t);
    assert u.links[k] == t.links[k];
    hide LinkInv, FinishedInv, OwnerInv, QueueInv;
  }

  ghost predicate FrontOuts(h: string -> string, sent: seq<Request>, outs: seq<Finished>) {
    && |outs| <= |sent|
    && (forall i :: 0 <= i < |outs| ==> outs[i].id == sent[i].id)
    && (forall i :: 0 <= i < |outs| && outs[i].ok ==> outs[i].answer == h(sent[i].data))
  }

  lemma FinishInFlight(h: string -> string, t: System, sock: nat, outs: seq<Finished>, id: nat)
    requires Book(h, t) && sock in t.links && FrontOuts(h, t.links[sock].c.sent, outs)
    requires var u := FinishFront(t, sock, outs); id in u.owner && u.owner[id].InFlight?
    ensures var u := FinishFront(t, sock, outs);
      u.owner[id].sock in u.links && Holds(u.links[u.owner[id].sock].c.sent, id)
  {
    hide QueueInv, FinishedInv, SentInv;
    var u := FinishFront(t, sock, outs);
    var sent := t.links[sock].c.sent;
    var k := t.owner[id].sock;
    var i :| 0 <= i < |t.links[k].c.sent| && t.links[k].c.sent[i].id == id;
    if k == sock {
      assert i >= |outs|;
      assert u.links[sock].c.sent[i - |outs|] == sent[i];
    }
  }

  lemma FinishDone(h: string -> string, t: System, sock: nat, outs: seq<Finished>, id: nat)
    requires Book(h, t) && sock in t.links && FrontOuts(h, t.links[sock].c.sent, outs)
    requires var u := FinishFront(t, sock, outs); id in u.owner && u.owner[id].Done?
    ensures Called(FinishFront(t, sock, outs).finished, id)
  {
    hide QueueInv, FinishedInv, SentInv;
    var u := FinishFront(t, sock, outs);
    if t.owner[id].Done? {
      var i :| 0 <= i < |t.finished| && t.finished[i].id == id;
      assert u.finished[i].id == id;
    } else {
      var i :| 0 <= i < |outs| && t.links[sock].c.sent[i].id == id;
      assert u.finished[|t.finished| + i].id == id;
    }
  }

  lemma FinishOwner(h: string -> string, t: System, sock: nat, outs: seq<Finished>)
    requires Book(h, t) && sock in t.links && FrontOuts(h, t.links[sock].c.sent, outs)
    ensures OwnerInv(FinishFront(t, sock, outs))
  {
    var u := FinishFront(t, sock, outs);
    FinishKeys(t, sock, outs);
    assert forall id :: id in t.owner <==> 0 <= id < Dispatched(t) by {
      hide Holds, Called, SentInv, FinishedInv, QueueInv;
    }
    hide FinishFront, Book, Holds, Called, FrontOuts;
    forall id | id in u.owner && u.owner[id].InFlight?
      ensures u.owner[id].sock in u.links && Holds(u.links[u.owner[id].sock].c.sent, id)
    {
      FinishInFlight(h, t, sock, outs, id);
    }
    forall id | id in u.owner && u.owner[id].Done?
      ensures Called(u.finished, id)
    {
      FinishDone(h, t, sock, outs, id);
    }
  }

  lemma FinishKeys(t: System, sock: nat, outs: seq<Finished>)
    requires sock in t.links && |outs| <= |t.links[sock].c.sent|
    ensures var u := FinishFront(t, sock, outs);
      u.owner.Keys == t.owner.Keys && Dispatched(u) == Dispatched(t) && u.calls == t.calls
  {}

  /** Only requests in flight on `sock` change their owner. */
  lemma FinishKeepsOwner(h: string -> string, t: System, sock: nat, outs: seq<Finished>, k: nat, i: nat)
    requires Book(h, t) && sock in t.links && FrontOuts(h, t.links[sock].c.sent, outs)
    requires k in t.links && i < |t.links[k].c.sent| && (k == sock ==> i >= |outs|)
    ensures var id := t.links[k].c.sent[i].id;
      id in t.owner && FinishFront(t, sock, outs).owner[id] == t.owner[id]
  {
    assert SentInv(t, sock) && SentInv(t, k);
    hide OwnerInv, FinishedInv, QueueInv;
    var sent := t.links[sock].c.sent;
    var id := t.links[k].c.sent[i].id;
    forall j | 0 <= j < |outs|
      ensures sent[j].id != id
    {
      assert t.owner[sent[j].id] == InFlight(sock);
    }
  }

  lemma SentRest(sent: seq<Request>, n: nat, calls: seq<string>, dispatched: int,
                 owner: map<nat, Owner>, after: map<nat, Owner>, sock: nat)
    requires SentAs(sent, calls, dispatched, owner, sock) && n <= |sent|
    requires forall i :: n <= i < |sent| ==> sent[i].id in after && after[sent[i].id] == owner[sent[i].id]
    ensures SentAs(sent[n..], calls, dispatched, after, sock)
  {}

  lemma FinishSentOne(h: string -> string, t: System, sock: nat, outs: seq<Finished>, k: nat)
    requires Book(h, t) && sock in t.links && FrontOuts(h, t.links[sock].c.sent, outs) && k in t.links
    ensures SentInv(FinishFront(t, sock, outs), k)
  {
    hide SentAs, OwnerInv, QueueInv, FinishedInv;
    assert SentInv(t, k);
    var u := FinishFront(t, sock, outs);
    var before := t.links[k].c.sent;
    var from := if k == sock then |outs| else 0;
    assert u.links[k].c.sent == before[from..];
    FinishKeys(t, sock, outs);
    forall i | from <= i < |before|
      ensures before[i].id in u.owner && u.owner[before[i].id] == t.owner[before[i].id]
    {
      FinishKeepsOwner(h, t, sock, outs, k, i);
    }
    hide Book, FinishFront, FrontOuts;
    SentRest(before, from, t.calls, Dispatched(t), t.owner, u.owner, k);
  }

  lemma FinishSent(h: string -> string, t: System, sock: nat, outs: seq<Finished>)
    requires Book(h, t) && sock in t.links && FrontOuts(h, t.links[sock].c.sent, outs)
    ensures var u := FinishFront(t, sock, outs); forall k :: k in u.links ==> SentInv(u, k)
  {
    var u := FinishFront(t, sock, outs);
    assert u.links.Keys == t.links.Keys;
    hide Book, FinishFront, FrontOuts, SentInv;
    forall k | k in u.links
      ensures SentInv(u, k)
    {
      FinishSentOne(h, t, sock, outs, k);
    }
  }

  lemma FinishAnswers(h: string -> string, t: System, sock: nat, outs: seq<Finished>, i: nat)
    requires Book(h, t) && sock in t.links && FrontOuts(h, t.links[sock].c.sent, outs)
    requires i < |t.finished| + |outs|
    ensures var u := FinishFront(t, sock, outs);
      && u.finished[i].id in u.owner && u.owner[u.finished[i].id] == Done && u.finished[i].id < |u.calls|
      && (u.finished[i].ok ==> u.finished[i].answer == h(u.calls[u.finished[i].id]))
  {
    assert SentInv(t, sock);
    hide QueueInv, OwnerInv;
    var u := FinishFront(t, sock, outs);
    var n := |t.finished|;
    if i >= n {
      assert u.finished[i] == outs[i - n];
      assert outs[i - n].id == t.links[sock].c.sent[i - n].id;
    } else {
      assert u.finished[i] == t.finished[i];
    }
  }

  lemma FinishOnce(h: string -> string, t: System, sock: nat, outs: seq<Finished>, i: nat, j: nat)
    requires Book(h, t) && sock in t.links && FrontOuts(h, t.links[sock].c.sent, outs)
    requires i < j < |t.finished| + |outs|
    ensures var u := FinishFront(t, sock, outs); u.finished[i].id != u.finished[j].id
  {
    assert SentInv(t, sock);
    hide QueueInv, OwnerInv;
    var u := FinishFront(t, sock, outs);
    var sent := t.links[sock].c.sent;
    var n := |t.finished|;
    if j >= n {
      assert u.finished[j] == outs[j - n] && t.owner[sent[j - n].id] == InFlight(sock);
      if i < n {
        assert t.owner[t.finished[i].id] == Done;
      } else {
        assert sent[i - n].id < sent[j - n].id;
      }
    }
  }

  lemma FinishFinished(h: string -> string, t: System, sock: nat, outs: seq<Finished>)
    requires Book(h, t) && sock in t.links && FrontOuts(h, t.links[sock].c.sent, outs)
    ensures FinishedInv(h, FinishFront(t, sock, outs))
  {
    var u := FinishFront(t, sock, outs);
    assert |u.finished| == |t.finished| + |outs|;
    hide Book, FrontOuts, FinishFront;
    forall i | 0 <= i < |u.finished|
      ensures u.finished[i].id in u.owner && u.owner[u.finished[i].id] == Done && u.finished[i].id < |u.calls|
      ensures u.finished[i].ok ==> u.finished[i].answer == h(u.calls[u.finished[i].id])
    {
      FinishAnswers(h, t, sock, outs, i);
    }
    forall i, j | 0 <= i < j < |u.finished|
      ensures u.finished[i].id != u.finished[j].id
    {
      FinishOnce(h, t, sock, outs, i, j);
    }
  }

  /** The oldest requests in flight on `sock` are answered or given up. */
  lemma FinishFrontBook(h: string -> string, t: System, sock: nat, outs: seq<Finished>)
    requires Book(h, t) && sock in t.links && FrontOuts(h, t.links[sock].c.sent, outs)
    ensures Book(h, FinishFront(t, sock, outs))
  {
    FinishOwner(h, t, sock, outs);
    FinishSent(h, t, sock, outs);
    FinishFinished(h, t, sock, outs);
    hide OwnerInv, SentInv, FinishedInv;
  }

  // ----- every step keeps the invariant

  lemma LoseLinkInv(h: string -> string, t: System, sock: nat)
    requires Book(h, t) && sock in t.links
    requires forall k :: k in t.links && k != sock ==> LinkInv(h, t.links[k])
    ensures Inv(h, LoseLink(t, sock))
  {
    hide LinkInv;
    var outs := Failures(t.links[sock].c.sent);
    FinishFrontBook(h, t, sock, outs);
    RemoveLinkBook(h, FinishFront(t, sock, outs), sock);
    hide Book;
  }

  lemma SetLinkInv(h: string -> string, t: System, sock: nat, l: Link)
    requires Inv(h, t) && sock in t.links && l.c.sent == t.links[sock].c.sent && LinkInv(h, l)
    ensures Inv(h, SetLink(t, sock, l))
  {
    hide LinkInv;
    SetLinkBook(h, t, sock, l);
    hide Book;
  }

  lemma ClientSendStep(h: string -> string, t: System, sock: nat, send: Send)
    requires Inv(h, t) && sock in t.links
    ensures Inv(h, ClientSend(t, sock, send))
  {
    hide LinkInv, Book;
    var l := t.links[sock];
    if l.c.sendBuf != "" {
      match send
      case Sent(n) =>
        var k := AtMost(n, l.c.sendBuf);
        ClientSendInv(h, l, k);
        SetLinkInv(h, t, sock, l.(up := l.up + l.c.sendBuf[..k], c := l.c.(sendBuf := l.c.sendBuf[k..])));
      case Again =>
      case Broken => LoseLinkInv(h, t, sock);
    }
  }

  lemma AssignInv(h: string -> string, t: System, sock: nat)
    requires Inv(h, t) && sock in t.links && t.queue != [] && t.links[sock].c.active
    ensures Inv(h, Assign(t, sock))
  {
    hide LinkInv;
    AssignBook(h, t, sock);
    hide Book;
    AddRequestInv(h, t.links[sock], t.queue[0]);
  }

  lemma OnReadInv(h: string -> string, t: System, sock: nat, n: nat)
    requires Inv(h, t) && sock in t.links
    ensures Inv(h, OnReadStep(t, sock, n))
  {
    hide LinkInv, ClientRead;
    var l := t.links[sock];
    var k := AtMost(n, l.down);
    var r := ClientRead(l.c, l.down[..k]);
    ClientReadInv(h, l, k);
    var outs := Successes(l.c.sent, r.answers);
    FinishFrontBook(h, t, sock, outs);
    var u := FinishFront(t, sock, outs);
    var m := l.(c := r.c, down := l.down[k..]);
    SetLinkBook(h, u, sock, m);
    hide Book;
    var v := SetLink(u, sock, m);
    if r.kept {
      assert LinkInv(h, m);
    } else {
      LoseLinkInv(h, v, sock);
    }
  }

  lemma SendDownInv(h: string -> string, l: Link, n: nat)
    requires LinkInv(h, l)
    ensures LinkInv(h, SendDown(l, n)) && SendDown(l, n).c == l.c
  {
    hide LinkInv;
    ServerSendInv(h, l, AtMost(n, Refill(l.s).sendBuf));
  }

  lemma ServerReadsInv(h: string -> string, l: Link, n: nat, grant: bool, refusal: string)
    requires LinkInv(h, l)
    ensures LinkInv(h, ServerReadsLink(h, l, n, grant, refusal)) && ServerReadsLink(h, l, n, grant, refusal).c == l.c
  {
    hide LinkInv;
    if l.s.registered && IsHttpReply(refusal) {
      ServerReadInv(h, l, AtMost(n, l.up), grant, refusal);
    }
  }

  lemma ServerRepliesInv(h: string -> string, l: Link, n: nat, dies: bool)
    requires LinkInv(h, l)
    ensures LinkInv(h, ServerRepliesLink(h, l, n, dies)) && ServerRepliesLink(h, l, n, dies).c == l.c
  {
    hide LinkInv;
    if l.s.outq != [] {
      AddResponseInv(h, l);
      var a := l.(s := l.s.(resps := l.s.resps + [l.s.outq[0]], outq := l.s.outq[1..], waiting := false));
      SendDownInv(h, a, n);
      HandleWaitingInv(h, SendDown(a, n));
      KillInv(h, SendDown(a, n));
    }
  }

  lemma ClientStepInv(h: string -> string, t: System, sock: nat, send: Send)
    requires Inv(h, t)
    ensures sock in t.links ==> Inv(h, OnWriteStep(t, sock, send))
    ensures Inv(h, DispatchStep(t, sock, send))
  {
    hide LinkInv, Inv, ClientSend;
    if sock in t.links {
      if t.queue != [] && t.links[sock].c.active {
        AssignInv(h, t, sock);
        ClientSendStep(h, Assign(t, sock), sock, send);
        var u := ClientSend(Assign(t, sock), sock, send);
        FreeInv(h, u, sock);
      }
      ClientSendStep(h, t, sock, send);
      FreeInv(h, t, sock);
    }
  }

  lemma FreeInv(h: string -> string, t: System, sock: nat)
    requires Inv(h, t)
    ensures Inv(h, t.(free := t.free - {sock})) && (sock in t.links ==> Inv(h, t.(free := t.free + {sock})))
  {
    hide LinkInv;
    FreeBook(h, t, t.free - {sock});
    if sock in t.links {
      FreeBook(h, t, t.free + {sock});
    }
    hide Book;
  }

  lemma FreeBook(h: string -> string, t: System, free: set<nat>)
    requires Book(h, t) && free <= t.links.Keys
    ensures Book(h, t.(free := free))
  {
    hide Book;
    SameBook(h, t, t.(free := free));
  }

  /** Every step keeps the invariant. */
  lemma NextInv(h: string -> string, t: System, step: Step)
    requires Inv(h, t)
    ensures Inv(h, Next(h, t, step))
  {
    hide LinkInv, ServerReadsLink, ServerRepliesLink, SendDown, OnWriteStep, DispatchStep, OnReadStep, ClientSend;
    match step
    case Call(data) => CallBook(h, t, data);
    case Establish(sock) =>
      if sock !in t.links {
        NewLinkBook(h, t, sock);
        NewLinkInv(h);
      }
    case OnWrite(sock, send) => ClientStepInv(h, t, sock, send);
    case Dispatch(sock, send) => ClientStepInv(h, t, sock, send);
    case OnRead(sock, n) => if sock in t.links { OnReadInv(h, t, sock, n); }
    case CheckKeepAlive(sock, send) =>
      if sock in t.links {
        var l := t.links[sock];
        KeepAliveInv(h, l);
        SetLinkInv(h, t, sock, l.(c := KeepAlive(l.c)));
        ClientSendStep(h, WithClient(t, sock, KeepAlive(l.c)), sock, if send.Broken? then Again else send);
      }
    case Lose(sock) => if sock in t.links { LoseLinkInv(h, t, sock); }
    case ServerReads(sock, n, grant, refusal) =>
      if sock in t.links {
        ServerReadsInv(h, t.links[sock], n, grant, refusal);
        SetLinkInv(h, t, sock, ServerReadsLink(h, t.links[sock], n, grant, refusal));
      }
    case ServerReplies(sock, n, dies) =>
      if sock in t.links {
        ServerRepliesInv(h, t.links[sock], n, dies);
        SetLinkInv(h, t, sock, ServerRepliesLink(h, t.links[sock], n, dies));
      }
    case ServerWrites(sock, n) =>
      if sock in t.links {
        SendDownInv(h, t.links[sock], n);
        SetLinkInv(h, t, sock, SendDown(t.links[sock], n));
      }
    case ServerKills(sock) =>
      if sock in t.links {
        KillInv(h, t.links[sock]);
        SetLinkInv(h, t, sock, t.links[sock].(s := t.links[sock].s.(registered := false)));
      }
  }

  lemma {:induction false} ExecuteInv(h: string -> string, steps: seq<Step>)
    ensures Inv(h, Execute(h, steps))
  {
    hide Inv, Next;
    if steps == [] {
      InitInv(h);
    } else {
      ExecuteInv(h, steps[..|steps| - 1]);
      NextInv(h, Execute(h, steps[..|steps| - 1]), steps[|steps| - 1]);
    }
  }

  // ----- what callers can rely on

  /**
   In every run, whatever the segmentation, the partial sends, the keep-alives and the losses: a callback
   that is called with success gets the handler's answer to that very request, and an answer is never
   taken off an empty queue.
   */
  lemma Soundness(h: string -> string, steps: seq<Step>)
    ensures var t := Execute(h, steps);
      && !t.fault
      && forall i :: 0 <= i < |t.finished| && t.finished[i].ok ==>
          t.finished[i].id < |t.calls| && t.finished[i].answer == h(t.calls[t.finished[i].id])
  {
    ExecuteInv(h, steps);
    hide LinksInv, QueueInv, OwnerInv, SentInv;
  }

  /** Where a request is. */
  ghost predicate Queued(t: System, id: nat) { exists i :: 0 <= i < |t.queue| && t.queue[i].id == id }

  ghost predicate OnLink(t: System, sock: nat, id: nat) { sock in t.links && Holds(t.links[sock].c.sent, id) }

  /**
   Every request is in the queue, or in flight on exactly one connection, or its callback has been
   called; never two of these, and never two callbacks.
   */
  lemma Conservation(h: string -> string, steps: seq<Step>, id: nat)
    ensures var t := Execute(h, steps);
      id < |t.calls| ==>
        && (Queued(t, id) || Called(t.finished, id) || exists sock :: OnLink(t, sock, id))
        && (Queued(t, id) ==> !Called(t.finished, id) && forall sock :: !OnLink(t, sock, id))
        && (Called(t.finished, id) ==> forall sock :: !OnLink(t, sock, id))
        && (forall a, b :: OnLink(t, a, id) && OnLink(t, b, id) ==> a == b)
        && (forall i, j :: 0 <= i < j < |t.finished| ==> t.finished[i].id != t.finished[j].id)
  {
    var t := Execute(h, steps);
    ExecuteInv(h, steps);
    hide LinksInv, Execute;
    if id < |t.calls| {
      if id >= Dispatched(t) {
        assert t.queue[id - Dispatched(t)].id == id;
      } else if t.owner[id].InFlight? {
        assert OnLink(t, t.owner[id].sock, id);
      }
      forall sock | OnLink(t, sock, id)
        ensures id in t.owner && t.owner[id] == InFlight(sock)
      {
        assert SentInv(t, sock);
      }
    }
  }

  /** Requests leave in the order of their calls: everything in flight is older than everything queued. */
  lemma CallOrder(h: string -> string, steps: seq<Step>)
    ensures var t := Execute(h, steps);
      && (forall i, j :: 0 <= i < j < |t.queue| ==> t.queue[i].id < t.queue[j].id)
      && (forall sock, i, j :: sock in t.links && 0 <= i < |t.links[sock].c.sent| && 0 <= j < |t.queue| ==>
            t.links[sock].c.sent[i].id < t.queue[j].id)
      && (forall sock, i, j :: sock in t.links && 0 <= i < j < |t.links[sock].c.sent| ==>
            t.links[sock].c.sent[i].id < t.links[sock].c.sent[j].id)
      && t.free <= t.links.Keys
  {
    var t := Execute(h, steps);
    ExecuteInv(h, steps);
    hide LinksInv, Execute, OwnerInv, FinishedInv;
    assert forall sock :: sock in t.links ==> SentInv(t, sock);
  }

  /**
   No answer is lost on a healthy connection: once nothing is buffered or on the wire in either direction,
   the client is connected and has an answer for everything it sent.
   */
  lemma Quiescence(h: string -> string, steps: seq<Step>, sock: nat)
    requires sock in Execute(h, steps).links
    requires var l := Execute(h, steps).links[sock];
      && l.s.phase.Upgraded? && l.s.registered && l.s.requests == []
      && ToServer(l) == "" && ToClient(l) == ""
    ensures var l := Execute(h, steps).links[sock];
      l.c.active && l.c.sent == []
  {
    hide Execute, Book;
    ExecuteInv(h, steps);
    var l := Execute(h, steps).links[sock];
    assert LinkInv(h, l);
    assert Fold(ClientStep, l.c.mode, "") == Result(l.c.mode, [], 0, false);
    assert Fold(ServerStep, l.s.phase.mode, "") == Result(l.s.phase.mode, [], 0, false);
    hide Fold;
    assert Due(h, l.c) == [];
    assert |Due(h, l.c)| == |Announced(!l.c.active)| + |l.c.sent|;
  }
}
