/**
 Whole requests: whatever a client renders, the parser hands over again, piece by piece, and the
 headers' meaning decides where the message ends.
 */
module HttpMessages {
  import opened HttpTypes
  import opened Numbers
  import opened Machine
  import opened Sequences
  import opened HttpStep
  import opened HttpInvariant
  import opened HttpBodies
  import opened HttpHeaders
  import opened HttpRequestLine
  import HttpParser

  // ----- the header block

  function RenderHeaders(hs: seq<Header>): string {
    if hs == [] then "" else RenderHeaders(hs[..|hs| - 1]) + RenderHeader(hs[|hs| - 1])
  }

  function HeadersEvents(hs: seq<Header>): seq<Event> {
    if hs == [] then [] else HeadersEvents(hs[..|hs| - 1]) + HeaderEvents(hs[|hs| - 1])
  }

  predicate ValidHeaders(hs: seq<Header>) { forall h :: h in hs ==> ValidHeader(h) }

  /** What the headers say together, after `m`; a later Content-Length replaces an earlier one. */
  function MeaningFrom(m: Meaning, hs: seq<Header>): Meaning
    requires ValidHeaders(hs)
  {
    if hs == [] then m else HeaderMeaning(MeaningFrom(m, hs[..|hs| - 1]), hs[|hs| - 1])
  }

  function HeadersMeaning(hs: seq<Header>): Meaning
    requires ValidHeaders(hs)
  {
    MeaningFrom(Meaning(NO_FLAGS, ULLONG_MAX), hs)
  }

  lemma {:induction false} HeadersRun(f: Fields, hs: seq<Header>) returns (g: Fields)
    requires f.errno == Ok && f.state.HeaderFieldStart? && ValidHeaders(hs)
    requires f.nread + |RenderHeaders(hs)| <= MAX_HEADER_SIZE
    ensures AtFieldStart(g.state) && InHeaders(f, g, |RenderHeaders(hs)|, MeaningFrom(MeaningOf(f), hs))
    ensures Runs(Step, f, RenderHeaders(hs), g, HeadersEvents(hs))
  {
    hide Runs, Step, ValidHeader, RenderHeader, HeaderMeaning, HeaderEvents;
    if hs == [] {
      g := f;
      RunsNothing(Step, f);
    } else {
      var n := |hs| - 1;
      var h := HeadersRun(f, hs[..n]);
      g := HeaderRun(h, hs[n]);
      RunsThen(Step, f, RenderHeaders(hs[..n]), h, HeadersEvents(hs[..n]), RenderHeader(hs[n]), g, HeaderEvents(hs[n]));
    }
  }

  // ----- requests

  /** A chunked body ends with a last chunk, which has no data, and the trailer's headers. */
  datatype Body =
    | NoBody
    | Sized(bytes: string)
    | Chunks(chunks: seq<Chunk>, last: Chunk, trailer: seq<Header>, end: string)

  datatype Request = Request(line: RequestLine, headers: seq<Header>, end: string, body: Body)

  predicate ValidHead(r: Request) {
    ValidRequestLine(r.line) && ValidHeaders(r.headers) && IsBreak(r.end)
  }

  function RenderHead(r: Request): string {
    RenderRequestLine(r.line) + RenderHeaders(r.headers) + r.end
  }

  function HeadEvents(r: Request): seq<Event> {
    [Begin] + Bytes(Url, RenderTarget(r.line.target)) + HeadersEvents(r.headers)
  }

  /** The parser at the end of the header block, before the empty line. */
  ghost predicate AfterHead(f: Fields, r: Request, g: Fields)
    requires ValidHead(r)
  {
    && AtFieldStart(g.state) && g.errno == Ok && g.verb == r.line.verb
    && g.major == MajorOf(r.line.version) && g.minor == MinorOf(r.line.version)
    && g.nread == f.nread + |RenderHead(r)| - |r.end|
    && g.upgrade == f.upgrade
    && MeaningOf(g) == HeadersMeaning(r.headers)
  }

  /** The parser reads a head up to its empty line, with the meaning its headers have. */
  lemma HeadRun(f: Fields, r: Request) returns (g: Fields)
    requires f.errno == Ok && f.state.StartReq? && ValidHead(r) && f.nread + |RenderHead(r)| <= MAX_HEADER_SIZE
    ensures AfterHead(f, r, g)
    ensures Runs(Step, f, RenderRequestLine(r.line) + RenderHeaders(r.headers), g, HeadEvents(r))
  {
    hide Runs, Step, ValidRequestLine, RenderRequestLine, RenderTarget, MajorOf, MinorOf;
    hide ValidHeaders, RenderHeaders, MeaningFrom, HeadersEvents;
    var a := RequestLineRun(f, r.line);
    g := HeadersRun(a, r.headers);
    RunsThen(Step, f, RenderRequestLine(r.line), a, [Begin] + Bytes(Url, RenderTarget(r.line.target)),
      RenderHeaders(r.headers), g, HeadersEvents(r.headers));
  }

  // ----- the end of a header block

  lemma StepEmptyCr(f: Fields)
    requires f.errno == Ok && AtFieldStart(f.state) && f.nread < MAX_HEADER_SIZE
    ensures Step(f, CR) == Stepped(f.(state := HeadersAlmostDone, nread := f.nread + 1), [], Continue)
  {
    hide LineByte, ChunkByte, StartByte, FieldStartByte, HeadersAlmostDoneByte, HeadersDoneByte;
    var none: seq<Event> := [];
    assert none + none == none;
  }

  lemma HeadersEndState(f: Fields)
    requires f.errno == Ok && f.state.HeadersAlmostDone?
    ensures var g := HeadersAlmostDoneByte(f, LF).f;
      g.errno == Ok && !UrlState(g.state) && !g.state.HeaderField? && !g.state.HeaderValue?
  {}

  lemma StepEmptyLf(f: Fields)
    requires f.errno == Ok && f.state.HeadersAlmostDone? && f.nread < MAX_HEADER_SIZE
    ensures var o := HeadersAlmostDoneByte(f.(nread := f.nread + 1), LF);
      o.f.errno == Ok && Step(f, LF) == Stepped(o.f, o.notes, if o.exit then Exit else Continue)
  {
    HeadersEndState(f.(nread := f.nread + 1));
    hide LineByte, ChunkByte, StartByte, HeaderFieldStartByte, HeadersAlmostDoneByte, HeadersDoneByte;
    var o := HeadersAlmostDoneByte(f.(nread := f.nread + 1), LF);
    assert [] + o.notes == o.notes;
  }

  lemma StepBareLf(f: Fields)
    requires f.errno == Ok && AtFieldStart(f.state) && f.nread < MAX_HEADER_SIZE
    ensures var o := HeadersAlmostDoneByte(f.(state := HeadersAlmostDone, nread := f.nread + 1), LF);
      o.f.errno == Ok && Step(f, LF) == Stepped(o.f, o.notes, if o.exit then Exit else Continue)
  {
    HeadersEndState(f.(state := HeadersAlmostDone, nread := f.nread + 1));
    hide LineByte, ChunkByte, StartByte, HeadersAlmostDoneByte;
    var o := HeadersAlmostDoneByte(f.(state := HeadersAlmostDone, nread := f.nread + 1), LF);
    assert [] + o.notes == o.notes;
  }

  /** The empty line after the headers: the message ends here, or its body begins. */
  lemma EmptyLineRun(f: Fields, end: string)
    requires f.errno == Ok && AtFieldStart(f.state) && IsBreak(end) && f.nread + |end| <= MAX_HEADER_SIZE
    ensures var o := HeadersAlmostDoneByte(f.(state := HeadersAlmostDone, nread := f.nread + |end|), LF);
      o.f.errno == Ok && Fold(Step, f, end) == Result(o.f, o.notes, |end|, o.exit)
  {
    hide Step, HeadersAlmostDoneByte, Fold;
    if end == CRLF {
      var g := f.(state := HeadersAlmostDone, nread := f.nread + 1);
      StepEmptyCr(f);
      StepEmptyLf(g);
      FoldCons(Step, f, CR, [LF]);
      FoldOne(Step, g, LF);
      assert CRLF == [CR] + [LF];
      var o := HeadersAlmostDoneByte(g.(nread := g.nread + 1), LF);
      assert [] + o.notes == o.notes;
    } else {
      StepBareLf(f);
      FoldOne(Step, f, LF);
    }
  }

  // ----- whole requests

  /** What the headers say about the connection, together with those of the trailer. */
  function FinalFlags(r: Request): Flags
    requires ValidHead(r) && (r.body.Chunks? ==> ValidHeaders(r.body.trailer))
  {
    var flags := HeadersMeaning(r.headers).flags;
    if r.body.Chunks? then MeaningFrom(Meaning(flags.(trailing := true), 0), r.body.trailer).flags else flags
  }

  /** Whether the connection can carry another request (`http_should_keep_alive`). */
  predicate KeepsAlive(r: Request)
    requires ValidRequest(r)
  {
    var v := r.line.version;
    if MajorOf(v) > 0 && MinorOf(v) > 0 then !FinalFlags(r).close else FinalFlags(r).keepAlive
  }

  predicate ValidBody(b: Body) {
    match b
    case NoBody => true
    case Sized(bytes) => bytes != ""
    case Chunks(chunks, last, trailer, end) =>
      && ValidChunks(chunks) && ValidChunk(last) && last.data == ""
      && ValidHeaders(trailer) && IsBreak(end) && |RenderHeaders(trailer)| + |end| <= MAX_HEADER_SIZE
  }

  /** Whether the connection is another protocol's behind the head. */
  predicate Upgrades(r: Request)
    requires ValidHead(r)
  {
    HeadersMeaning(r.headers).flags.upgrade || r.line.verb == CONNECT
  }

  /** The body is the one the headers announce (section 4.4 of RFC 2616). */
  predicate ValidRequest(r: Request): (valid: bool)
    ensures valid ==> ValidHead(r) && ValidBody(r.body)
  {
    && ValidHead(r) && ValidBody(r.body)
    && var m := HeadersMeaning(r.headers);
      if Upgrades(r) then r.body.NoBody?
      else if m.flags.chunked then r.body.Chunks?
      else if m.contentLength == 0 || m.contentLength == ULLONG_MAX then r.body.NoBody?
      else r.body.Sized? && |r.body.bytes| == m.contentLength
  }

  function RenderBody(b: Body): string {
    match b
    case NoBody => ""
    case Sized(bytes) => bytes
    case Chunks(chunks, last, trailer, end) => RenderChunks(chunks) + (SizeLine(last) + RenderHeaders(trailer) + end)
  }

  /** What the embedder must see of a body: its content, and the trailer's headers behind it. */
  function BodyEvents(b: Body): seq<Event> {
    match b
    case NoBody => []
    case Sized(bytes) => Bytes(HttpTypes.Body, bytes)
    case Chunks(chunks, _, trailer, _) => Bytes(HttpTypes.Body, Joined(chunks)) + HeadersEvents(trailer)
  }

  /** Bytes of a request that count towards the limit of the next head: those of its trailer. */
  function Leftover(b: Body): nat { if b.Chunks? then |RenderHeaders(b.trailer)| + |b.end| else 0 }

  function Render(r: Request): string { RenderHead(r) + RenderBody(r.body) }

  /** What the embedder must see of a request. */
  function Events(r: Request): seq<Event> {
    HeadEvents(r) + [HeadersComplete] + BodyEvents(r.body) + [Complete]
  }

  lemma NotesAlone(es: seq<Event>)
    ensures [] + es == es && es + [] == es
  {}

  /** The last chunk and the trailer, whose empty line ends the message. */
  lemma LastChunkRun(f: Fields, last: Chunk, trailer: seq<Header>, end: string) returns (g: Fields)
    requires f.errno == Ok && f.state.ChunkSizeStart? && f.nread == 0 && ValidBody(Chunks([], last, trailer, end))
    ensures var m := MeaningFrom(Meaning(f.flags.(trailing := true), 0), trailer);
      && g == f.(state := g.state, headerState := g.headerState, index := g.index, flags := m.flags,
                 contentLength := m.contentLength, nread := |RenderHeaders(trailer)| + |end|)
      && g.state == NewMessage(g)
    ensures Runs(Step, f, SizeLine(last) + RenderHeaders(trailer) + end, g, HeadersEvents(trailer) + [Complete])
  {
    hide Step, Runs, RenderHeaders, HeadersEvents, MeaningFrom, SizeLine, ValidChunk, ValidHeaders;
    var h := f.(state := HeaderFieldStart, contentLength := 0, flags := f.flags.(trailing := true));
    SizeLineRun(f, last);
    var k := HeadersRun(h, trailer);
    RunsThen(Step, f, SizeLine(last), h, [], RenderHeaders(trailer), k, HeadersEvents(trailer));
    NotesAlone(HeadersEvents(trailer));
    TrailingStays(MeaningOf(h), trailer);
    TrailerEnd(k, end);
    g := k.(nread := k.nread + |end|);
    g := g.(state := NewMessage(g));
    RunsThen(Step, f, SizeLine(last) + RenderHeaders(trailer), k, HeadersEvents(trailer), end, g, [Complete]);
  }

  lemma TrailerEnd(f: Fields, end: string)
    requires f.errno == Ok && AtFieldStart(f.state) && f.flags.trailing
    requires IsBreak(end) && f.nread + |end| <= MAX_HEADER_SIZE
    ensures var g := f.(nread := f.nread + |end|); Runs(Step, f, end, g.(state := NewMessage(g)), [Complete])
  {
    hide Step, Fold;
    EmptyLineRun(f, end);
  }

  lemma {:induction false} TrailingStays(m: Meaning, hs: seq<Header>)
    requires ValidHeaders(hs)
    ensures MeaningFrom(m, hs).flags.trailing == m.flags.trailing
  {
    hide ValidHeader;
    if hs != [] {
      TrailingStays(m, hs[..|hs| - 1]);
      HeaderTrailing(MeaningFrom(m, hs[..|hs| - 1]), hs[|hs| - 1]);
    }
  }

  lemma HeaderTrailing(m: Meaning, h: Header)
    requires ValidHeader(h)
    ensures HeaderMeaning(m, h).flags.trailing == m.flags.trailing
  {
    hide IsWord, IsName, IsValue;
  }

  /** What follows the head when the parser has read its empty line. */
  lemma BodyPartRun(f: Fields, b: Body) returns (g: Fields)
    requires f.errno == Ok && ValidBody(b) && f.nread == 0
    requires match b
      case NoBody => false
      case Sized(bytes) => f.state.BodyIdentity? && |bytes| == f.contentLength
      case Chunks(_, _, _, _) => f.state.ChunkSizeStart?
    ensures g.errno == Ok && g.nread == Leftover(b) && g.upgrade == f.upgrade && g.state == NewMessage(g)
    ensures g.major == f.major && g.minor == f.minor
    ensures g.flags ==
      if b.Chunks? then MeaningFrom(Meaning(f.flags.(trailing := true), 0), b.trailer).flags else f.flags
    ensures Runs(Step, f, RenderBody(b), g, BodyEvents(b) + [Complete])
  {
    hide Step, Bytes;
    match b
    case Sized(bytes) =>
      BodyRun(f, bytes);
      g := TakeBody(f, |bytes|).f;
    case Chunks(chunks, last, trailer, end) =>
      hide Runs, RenderChunks, ValidChunks, ValidChunk, MeaningFrom, SizeLine, RenderHeaders, HeadersEvents;
      ChunksRun(f, chunks);
      var h := f.(contentLength := if chunks == [] then f.contentLength else 0);
      assert ValidChunks([]) by { NoChunks(); }
      g := LastChunkRun(h, last, trailer, end);
      RunsThen(Step, f, RenderChunks(chunks), h, Bytes(HttpTypes.Body, Joined(chunks)),
        SizeLine(last) + RenderHeaders(trailer) + end, g, HeadersEvents(trailer) + [Complete]);
      assert BodyEvents(b) + [Complete] ==
             Bytes(HttpTypes.Body, Joined(chunks)) + (HeadersEvents(trailer) + [Complete]);
  }

  lemma NoChunks()
    ensures ValidChunks([])
  {}

  /** The end of the headers, by what they mean. */
  lemma EndOfHead(f: Fields, r: Request, g: Fields)
    requires ValidRequest(r) && AfterHead(f, r, g) && g.nread + |r.end| <= MAX_HEADER_SIZE
    ensures var o := HeadersAlmostDoneByte(g.(state := HeadersAlmostDone, nread := g.nread + |r.end|), LF);
      && o.f.errno == Ok && o.f.nread == 0 && o.f.upgrade == Upgrades(r) && o.exit == Upgrades(r)
      && o.f.flags == HeadersMeaning(r.headers).flags
      && o.f.major == MajorOf(r.line.version) && o.f.minor == MinorOf(r.line.version)
      && (match r.body
          case NoBody => o.notes == [HeadersComplete, Complete] && o.f.state == NewMessage(o.f)
          case Sized(bytes) =>
            o.notes == [HeadersComplete] && o.f.state.BodyIdentity? && |bytes| == o.f.contentLength && !o.exit
          case Chunks(_, _, _, _) => o.notes == [HeadersComplete] && o.f.state.ChunkSizeStart? && !o.exit)
  {
    TrailingStays(Meaning(NO_FLAGS, ULLONG_MAX), r.headers);
    hide HeadersMeaning, ValidHeaders, RenderHead, ValidBody, MajorOf, MinorOf;
  }

  lemma RequestAssembly(r: Request)
    ensures r.body.NoBody? ==>
      Render(r) == RenderHead(r) && Events(r) == HeadEvents(r) + [HeadersComplete, Complete]
    ensures Render(r) == RenderHead(r) + RenderBody(r.body)
    ensures Events(r) == HeadEvents(r) + [HeadersComplete] + (BodyEvents(r.body) + [Complete])
  {
    hide HeadEvents, RenderHead;
    if r.body.NoBody? {
      assert RenderHead(r) + "" == RenderHead(r);
      assert HeadEvents(r) + [HeadersComplete] + [] + [Complete] == HeadEvents(r) + [HeadersComplete, Complete];
    }
  }

  /**
   A rendered request is handed over exactly: its target, its headers, its content and its trailer, byte
   by byte, with one notification each for its beginning, the end of its headers and its end.
   */
  lemma RequestRun(f: Fields, r: Request) returns (g: Fields)
    requires f.errno == Ok && f.state.StartReq? && !f.upgrade && ValidRequest(r)
    requires f.nread + |RenderHead(r)| <= MAX_HEADER_SIZE
    ensures g.errno == Ok && g.nread == Leftover(r.body) && g.upgrade == Upgrades(r)
    ensures g.state == if KeepsAlive(r) then StartReq else Dead
    ensures r.body.NoBody? ==> g.state == NewMessage(g)
    ensures Fold(Step, f, Render(r)) == Result(g, Events(r), |Render(r)|, g.upgrade)
  {
    hide Step, Fold, HeadersMeaning, HeadersAlmostDoneByte, RenderBody, BodyEvents, MeaningFrom;
    hide Runs, Render, HeadEvents, Events, ValidBody, ValidRequestLine, MajorOf, MinorOf;
    hide RenderRequestLine, RenderHeaders, ValidHeaders;
    RequestAssembly(r);
    var h := HeadRun(f, r);
    EndOfHead(f, r, h);
    EmptyLineRun(h, r.end);
    FoldAfter(Step, f, RenderRequestLine(r.line) + RenderHeaders(r.headers), h, HeadEvents(r), r.end);
    var o := HeadersAlmostDoneByte(h.(state := HeadersAlmostDone, nread := h.nread + |r.end|), LF);
    if r.body.NoBody? {
      g := o.f;
    } else {
      g := BodyPartRun(o.f, r.body);
      HeadThenBody(f, r, o.f, g);
    }
  }

  lemma HeadThenBody(f: Fields, r: Request, h: Fields, g: Fields)
    requires Fold(Step, f, RenderHead(r)) == Result(h, HeadEvents(r) + [HeadersComplete], |RenderHead(r)|, false)
    requires Runs(Step, h, RenderBody(r.body), g, BodyEvents(r.body) + [Complete])
    ensures Fold(Step, f, Render(r)) == Result(g, Events(r), |Render(r)|, false)
  {
    hide Step, BodyEvents, RenderBody, RenderHead, HeadEvents, Fold;
    assert Runs(Step, f, RenderHead(r), h, HeadEvents(r) + [HeadersComplete]);
    RunsThen(Step, f, RenderHead(r), h, HeadEvents(r) + [HeadersComplete], RenderBody(r.body), g,
      BodyEvents(r.body) + [Complete]);
    RequestAssembly(r);
  }

  // ----- pipelines

  function RenderAll(rs: seq<Request>): string {
    if rs == [] then "" else RenderAll(rs[..|rs| - 1]) + Render(rs[|rs| - 1])
  }

  function AllEvents(rs: seq<Request>): seq<Event> {
    if rs == [] then [] else AllEvents(rs[..|rs| - 1]) + Events(rs[|rs| - 1])
  }

  /** A request that leaves the connection open for another request of the same protocol. */
  predicate Continues(r: Request)
    requires ValidRequest(r)
  {
    KeepsAlive(r) && !Upgrades(r)
  }

  /** The head fits into the limit together with what the request before it, or `nread`, leaves over. */
  predicate Fits(nread: nat, rs: seq<Request>, i: nat)
    requires i < |rs|
  {
    (if i == 0 then nread else Leftover(rs[i - 1].body)) + |RenderHead(rs[i])| <= MAX_HEADER_SIZE
  }

  predicate ValidPipeline(nread: nat, rs: seq<Request>) {
    && (forall i :: 0 <= i < |rs| ==> ValidRequest(rs[i]))
    && (forall i :: 0 <= i < |rs| ==> Fits(nread, rs, i))
    && forall i :: 0 <= i < |rs| - 1 ==> Continues(rs[i])
  }

  /** Where the parser is after a pipeline that began at `nread`. */
  ghost predicate AfterPipeline(nread: nat, rs: seq<Request>, g: Fields) {
    && g.errno == Ok && g.state.StartReq? && !g.upgrade
    && g.nread == if rs == [] then nread else Leftover(rs[|rs| - 1].body)
  }

  lemma PipelineInit(nread: nat, rs: seq<Request>)
    requires ValidPipeline(nread, rs) && rs != []
    ensures ValidPipeline(nread, rs[..|rs| - 1])
    ensures |rs| == 1 || Continues(rs[|rs| - 2])
    ensures ValidRequest(rs[|rs| - 1])
  {
    hide ValidRequest, Continues, RenderHead;
    var ps := rs[..|rs| - 1];
    assert forall i :: 0 <= i < |ps| ==> ps[i] == rs[i];
    assert forall i :: 0 <= i < |ps| ==> Fits(nread, ps, i) == Fits(nread, rs, i);
  }

  /** Requests one after the other on a connection come out one after the other. */
  lemma {:induction false} PipelineRun(f: Fields, rs: seq<Request>)
    requires f.errno == Ok && f.state.StartReq? && !f.upgrade && ValidPipeline(f.nread, rs)
    ensures var r := Run(f, RenderAll(rs));
      && r.events == AllEvents(rs) && r.consumed == |RenderAll(rs)| && r.f.errno == Ok
      && (rs == [] || Continues(rs[|rs| - 1]) ==> !r.stopped && AfterPipeline(f.nread, rs, r.f))
  {
    hide Step, Fold, ValidRequest, RenderHead, Render, Events, Continues, Leftover;
    if rs == [] {
      RunsNothing(Step, f);
    } else {
      var n := |rs| - 1;
      PipelineInit(f.nread, rs);
      PipelineRun(f, rs[..n]);
      var h := Run(f, RenderAll(rs[..n])).f;
      assert n > 0 ==> rs[..n][n - 1] == rs[n - 1];
      PipelineNext(f, rs, h);
    }
  }

  lemma PipelineNext(f: Fields, rs: seq<Request>, h: Fields)
    requires rs != [] && f.errno == Ok && ValidPipeline(f.nread, rs)
    requires var n := |rs| - 1;
      && Fold(Step, f, RenderAll(rs[..n])) == Result(h, AllEvents(rs[..n]), |RenderAll(rs[..n])|, false)
      && AfterPipeline(f.nread, rs[..n], h)
    ensures var r := Fold(Step, f, RenderAll(rs));
      && r.events == AllEvents(rs) && r.consumed == |RenderAll(rs)| && r.f.errno == Ok
      && (Continues(rs[|rs| - 1]) ==> !r.stopped && AfterPipeline(f.nread, rs, r.f))
  {
    hide Step, Fold, RenderHead, Render, Events, KeepsAlive, Upgrades, ValidRequest, Leftover;
    var n := |rs| - 1;
    assert n > 0 ==> rs[..n][n - 1] == rs[n - 1];
    assert Fits(f.nread, rs, n);
    var g := RequestRun(h, rs[n]);
    assert Runs(Step, f, RenderAll(rs[..n]), h, AllEvents(rs[..n]));
    FoldAfter(Step, f, RenderAll(rs[..n]), h, AllEvents(rs[..n]), Render(rs[n]));
  }

  /** The same however the stream is cut. */
  lemma PipelineAnyCut(f: Fields, rs: seq<Request>, pieces: seq<string>)
    requires f.errno == Ok && Inv(f) && f.state.StartReq? && !f.upgrade && ValidPipeline(f.nread, rs)
    requires Concat(pieces) == RenderAll(rs)
    ensures HttpParser.RunPieces(f, pieces).events == AllEvents(rs)
    ensures HttpParser.RunPieces(f, pieces).consumed == |RenderAll(rs)|
  {
    hide Step, Run, Inv;
    HttpParser.CutIndependence(f, pieces);
    PipelineRun(f, rs);
  }
}
