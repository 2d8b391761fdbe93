/**
 `http_parser_execute` as it works on the caller's buffers: it marks where a piece of data begins,
 hands the marked bytes over when the piece or the buffer ends, and skips body bytes in bulk.
 */
module HttpParser {
  import opened HttpTypes
  import opened Numbers
  import opened Machine
  import opened Sequences
  import opened HttpStep
  import opened HttpInvariant
  import opened HttpBodies

  /** A call into the embedder's `http_parser_settings`; every callback returns 0. */
  datatype Callback = OnMessageBegin | OnHeadersComplete | OnMessageComplete | OnData(kind: Kind, bytes: string)

  function Notify(notes: seq<Event>): (calls: seq<Callback>)
    requires forall e :: e in notes ==> !e.Data?
    ensures Flatten(calls) == notes
  {
    if notes == [] then []
    else
      var n := |notes| - 1;
      Notify(notes[..n]) +
      [match notes[n] case Begin => OnMessageBegin
       case HeadersComplete => OnHeadersComplete case Complete => OnMessageComplete]
  }

  function Expand(c: Callback): seq<Event> {
    match c
    case OnMessageBegin => [Begin]
    case OnHeadersComplete => [HeadersComplete]
    case OnMessageComplete => [Complete]
    case OnData(kind, bytes) => Bytes(kind, bytes)
  }

  /** What the embedder has been told, byte by byte. */
  function Flatten(calls: seq<Callback>): seq<Event> {
    if calls == [] then []
    else
      var n := |calls| - 1;
      Flatten(calls[..n]) + Expand(calls[n])
  }

  lemma {:induction false} FlattenConcat(a: seq<Callback>, b: seq<Callback>)
    ensures Flatten(a + b) == Flatten(a) + Flatten(b)
  {
    hide Expand;
    if b == [] {
      assert a + b == a;
    } else {
      var n := |b| - 1;
      FlattenConcat(a, b[..n]);
      assert (a + b)[..|a| + n] == a + b[..n];
      assert (a + b)[|a| + n] == b[n];
    }
  }

  // ----- marks

  /** Positions in the buffer where data of each kind begins; negative for the null pointer. */
  datatype Marks = Marks(field: int, value: int, url: int, body: int)

  const NO_MARKS := Marks(-1, -1, -1, -1)

  /** `MARK`: does not move a mark that is already set. */
  function Mark(mark: int, p: nat): int { if mark < 0 then p else mark }

  /** `CALLBACK_DATA`: the marked bytes before `p`, if there is a mark. */
  function Flush(kind: Kind, mark: int, data: string, p: nat): seq<Callback>
    requires mark <= p <= |data|
  {
    if mark < 0 then [] else [OnData(kind, data[mark..p])]
  }

  /** The marks set at the head of the loop: at most one, and which one is decided by the state. */
  predicate MarksFit(s: State, m: Marks, p: nat) {
    && -1 <= m.field <= p && -1 <= m.value <= p && -1 <= m.url <= p && -1 <= m.body <= p
    && (m.field >= 0 <==> s.HeaderField?)
    && (m.value >= 0 <==> s.HeaderValue?)
    && (m.url >= 0 <==> UrlState(s))
    && (m.body >= 0 ==> s.ChunkDataAlmostDone? || BodyState(s))
  }

  function InitialMarks(s: State): (m: Marks)
    ensures MarksFit(s, m, 0)
  {
    Marks(if s.HeaderField? then 0 else -1, if s.HeaderValue? then 0 else -1, if UrlState(s) then 0 else -1, -1)
  }

  /** The trace owed for one mark. */
  function Open(kind: Kind, mark: int, data: string, p: nat): seq<Event>
    requires mark <= p <= |data|
  {
    if mark < 0 then [] else Bytes(kind, data[mark..p])
  }

  /** The trace owed for the marked bytes; at most one mark is set. */
  function Owed(m: Marks, data: string, p: nat): seq<Event>
    requires m.field <= p && m.value <= p && m.url <= p && m.body <= p <= |data|
  {
    if m.field >= 0 then Open(Field, m.field, data, p)
    else if m.value >= 0 then Open(Value, m.value, data, p)
    else if m.url >= 0 then Open(Url, m.url, data, p)
    else Open(Body, m.body, data, p)
  }

  lemma OpenNext(kind: Kind, mark: int, data: string, p: nat)
    requires 0 <= mark <= p < |data|
    ensures Open(kind, mark, data, p + 1) == Open(kind, mark, data, p) + [Data(kind, data[p])]
  {}

  lemma FlattenFlush(calls: seq<Callback>, kind: Kind, mark: int, data: string, p: nat)
    requires mark <= p <= |data|
    ensures Flatten(calls + Flush(kind, mark, data, p)) == Flatten(calls) + Open(kind, mark, data, p)
  {
    if mark >= 0 {
      var c := OnData(kind, data[mark..p]);
      assert (calls + [c])[..|calls|] == calls;
    } else {
      assert calls + [] == calls;
    }
  }

  // ----- one byte outside the body

  /** The URL states that no white space may end. */
  predicate LeadingUrlState(s: State) {
    s.Schema? || s.SchemaSlash? || s.SchemaSlashSlash? || s.ServerStart?
  }

  /** Which states a byte can lead to, as far as the marks care. */
  predicate MarkMoves(from: State, ch: char, to: State) {
    && (UrlState(to) <==>
        (from.SpacesBeforeUrl? && ch != ' ') || (UrlState(from) && ch != ' ' && ch != CR && ch != LF))
    && (to.HeaderField? <==>
        (from.HeaderFieldStart? || from.HeaderValueLws? || from.HeaderField?) && IsToken(ch))
    && (to.HeaderValue? <==>
        && (from.HeaderValue? || (from.HeaderValueStart? && ch != ' ' && ch != '\t'))
        && ch != CR && ch != LF)
    && (LeadingUrlState(from) ==> ch != ' ' && ch != CR && ch != LF)
    && (from.HeaderField? && !IsToken(ch) ==> ch == ':' || ch == CR || ch == LF)
    && (from.ChunkDataAlmostDone? ==> ch == CR)
    && !to.ChunkDataAlmostDone?
  }

  lemma UrlMoves(g: Fields, ch: char)
    requires g.errno == Ok
    ensures UrlState(g.state) && UrlByte(g, ch).errno == Ok ==> MarkMoves(g.state, ch, UrlByte(g, ch).state)
    ensures g.state.SpacesBeforeUrl? && SpaceByte(g, ch).errno == Ok ==> MarkMoves(g.state, ch, SpaceByte(g, ch).state)
  {
    hide IsToken, IsUserinfoChar, IsUrlChar, IsAlpha;
  }

  lemma HeaderMoves(g: Fields, ch: char)
    requires g.errno == Ok
    ensures g.state.HeaderField? && FieldByte(g, ch).errno == Ok ==> MarkMoves(g.state, ch, FieldByte(g, ch).state)
    ensures g.state.HeaderValueStart? && ValueStartByte(g, ch).errno == Ok ==>
      MarkMoves(g.state, ch, ValueStartByte(g, ch).state)
    ensures g.state.HeaderValue? && ValueByte(g, ch).errno == Ok ==> MarkMoves(g.state, ch, ValueByte(g, ch).state)
  {
    hide Lower, TokenLower;
    assert IsToken(ch) ==> ch != CR && ch != LF && ch != ' ' && ch != '\t' && ch != ':';
    hide IsToken;
  }

  lemma LineMoves(g: Fields, ch: char)
    requires g.errno == Ok && LineState(g.state)
    requires LineByte(g, ch).errno == Ok
    ensures MarkMoves(g.state, ch, LineByte(g, ch).state)
  {
    hide FieldByte, ValueStartByte, ValueByte, UrlByte, SpaceByte, IsToken, MethodChar, Alternative;
    UrlMoves(g, ch);
    HeaderMoves(g, ch);
  }

  lemma StartMoves(g: Fields, ch: char)
    requires g.errno == Ok && g.state.StartReq?
    ensures var o := StartByte(g, ch);
      && (o.f.errno == Ok ==> MarkMoves(g.state, ch, o.f.state))
      && (o.notes == [] || (o.notes == [Begin] && o.f.state.ReqMethod?)) && !o.exit
  {
    hide IsToken;
  }

  lemma ChunkMoves(g: Fields, ch: char)
    requires g.errno == Ok && ChunkState(g.state)
    ensures ChunkByte(g, ch).errno == Ok ==> MarkMoves(g.state, ch, ChunkByte(g, ch).state)
  {
    hide Unhex, IsToken;
  }

  lemma HeadersAlmostDoneMoves(g: Fields, ch: char)
    requires g.errno == Ok
    ensures var o := HeadersAlmostDoneByte(g, ch);
      && (o.f.errno == Ok ==>
          ch == LF && (o.f.state.StartReq? || o.f.state.Dead? || o.f.state.ChunkSizeStart? || o.f.state.BodyIdentity?))
      && (o.notes == [] || o.notes == [Complete] || o.notes == [HeadersComplete]
       || o.notes == [HeadersComplete, Complete])
  {}

  lemma HeaderFieldStartMoves(g: Fields, ch: char)
    requires g.errno == Ok
    ensures var o := HeaderFieldStartByte(g, ch);
      && (o.f.errno == Ok ==> MarkMoves(HeaderFieldStart, ch, o.f.state))
      && (o.f.errno == Ok && (o.notes != [] || o.exit) ==> DataOf(o.f.state, ch) == [])
      && (o.notes == [] || o.notes == [Complete] || o.notes == [HeadersComplete]
       || o.notes == [HeadersComplete, Complete])
  {
    hide HeadersAlmostDoneByte, TokenLower;
    HeadersAlmostDoneMoves(g.(state := HeadersAlmostDone), ch);
    assert IsToken(ch) ==> ch != CR && ch != LF;
    hide IsToken;
  }

  lemma ControlMoves(g: Fields, ch: char)
    requires g.errno == Ok && !BodyState(g.state)
    requires Control(g, ch).f.errno == Ok
    ensures MarkMoves(g.state, ch, Control(g, ch).f.state)
    ensures var o := Control(g, ch);
      && (forall e :: e in o.notes ==> !e.Data?)
      && (o.notes != [] || o.exit ==> DataOf(o.f.state, ch) == [])
  {
    hide LineByte, ChunkByte, StartByte, HeaderFieldStartByte, HeadersAlmostDoneByte;
    assert IsToken(ch) ==> ch != ' ' && ch != '\t';
    hide IsToken;
    if LineState(g.state) {
      LineMoves(g, ch);
    } else if ChunkState(g.state) {
      ChunkMoves(g, ch);
    } else if g.state.StartReq? {
      StartMoves(g, ch);
    } else if g.state.HeadersAlmostDone? {
      HeadersAlmostDoneMoves(g, ch);
    } else if g.state.HeaderFieldStart? || g.state.HeaderValueLws? {
      HeaderFieldStartMoves(g.(state := HeaderFieldStart), ch);
    }
  }

  /** The bytes that end a piece of data. */
  predicate FlushByte(s: State, ch: char) {
    || (UrlState(s) && !LeadingUrlState(s) && (ch == ' ' || ch == CR || ch == LF))
    || (s.HeaderField? && !IsToken(ch) && (ch == ':' || ch == CR || ch == LF))
    || ((s.HeaderValueStart? || s.HeaderValue?) && (ch == CR || ch == LF))
    || (s.ChunkDataAlmostDone? && ch == CR)
  }

  /** Such a byte is never rejected. */
  lemma FlushAccepted(g: Fields, ch: char)
    requires g.errno == Ok && FlushByte(g.state, ch)
    ensures Control(g, ch).f.errno == Ok
  {
    hide IsToken;
  }

  /** What moving the marks over one byte has to achieve, if the byte leads to the state `to`. */
  ghost predicate Moved(s: State, to: State, data: string, p: nat, m: Marks, calls: seq<Callback>,
                        m': Marks, calls': seq<Callback>)
    requires p < |data| && MarksFit(s, m, p)
  {
    && (!FlushByte(s, data[p]) ==> calls' == calls)
    && (MarkMoves(s, data[p], to) ==>
        && MarksFit(to, m', p + 1) && m'.body < 0
        && Flatten(calls') + Owed(m', data, p + 1) == Flatten(calls) + Owed(m, data, p) + DataOf(to, data[p]))
  }

  /** Nothing is owed and no data begins or ends here. */
  lemma MovedIdle(s: State, to: State, data: string, p: nat, m: Marks, calls: seq<Callback>)
    requires p < |data| && MarksFit(s, m, p) && m == NO_MARKS
    requires MarkMoves(s, data[p], to) ==> DataOf(to, ' ') == [] && !to.ChunkDataAlmostDone?
    ensures Moved(s, to, data, p, m, calls, m, calls)
  {
    hide Flatten, IsToken, Bytes, MarkMoves;
    assert Flatten(calls) + [] == Flatten(calls);
  }

  /** The only mark set, if any, is the one for `kind`. */
  function OneMark(kind: Kind, mark: int): Marks {
    match kind
    case Url => NO_MARKS.(url := mark)
    case Field => NO_MARKS.(field := mark)
    case Value => NO_MARKS.(value := mark)
    case Body => NO_MARKS.(body := mark)
  }

  lemma OneOwed(kind: Kind, mark: int, data: string, p: nat)
    requires mark <= p <= |data|
    ensures var m := OneMark(kind, mark);
      && m.field <= p && m.value <= p && m.url <= p && m.body <= p
      && Owed(m, data, p) == Open(kind, mark, data, p)
  {
    hide Bytes;
  }

  lemma FitData(kind: Kind, to: State, p: nat, ch: char)
    requires kind != Body && MarksFit(to, OneMark(kind, p), p + 1)
    ensures DataOf(to, ch) == [Data(kind, ch)]
  {}

  lemma OpenFirst(kind: Kind, data: string, p: nat)
    requires p < |data|
    ensures Open(kind, p, data, p + 1) == [Data(kind, data[p])]
  {
    assert data[p..p + 1] == [data[p]];
  }

  /** A piece of data begins at `p`. */
  lemma MovedMark(s: State, to: State, data: string, p: nat, kind: Kind, calls: seq<Callback>)
    requires p < |data| && MarksFit(s, NO_MARKS, p) && !FlushByte(s, data[p]) && kind != Body
    requires MarkMoves(s, data[p], to) ==> MarksFit(to, OneMark(kind, p), p + 1)
    ensures Moved(s, to, data, p, NO_MARKS, calls, OneMark(kind, p), calls)
  {
    hide Flatten, IsToken, MarkMoves, FlushByte, Bytes, Owed, MarksFit, DataOf;
    OneOwed(kind, p, data, p + 1);
    OpenFirst(kind, data, p);
    assert Owed(NO_MARKS, data, p) == [] by { OneOwed(kind, -1, data, p); }
    if MarkMoves(s, data[p], to) {
      FitData(kind, to, p, data[p]);
    }
    assert Flatten(calls) + [] == Flatten(calls);
  }

  /** The piece of data under way goes on. */
  lemma MovedOn(s: State, to: State, data: string, p: nat, m: Marks, calls: seq<Callback>)
    requires p < |data| && MarksFit(s, m, p) && m != NO_MARKS && m.body < 0
    requires MarkMoves(s, data[p], to) ==> MarksFit(to, m, p + 1)
    ensures Moved(s, to, data, p, m, calls, m, calls)
  {
    hide Flatten, IsToken, Bytes, MarkMoves;
    if m.url >= 0 {
      OpenNext(Url, m.url, data, p);
    } else if m.field >= 0 {
      OpenNext(Field, m.field, data, p);
    } else {
      OpenNext(Value, m.value, data, p);
    }
  }

  /** The piece of data under way ends before `p`. */
  lemma MovedFlush(s: State, to: State, data: string, p: nat, calls: seq<Callback>, kind: Kind, mark: int)
    requires p < |data| && -1 <= mark <= p && MarksFit(s, OneMark(kind, mark), p) && FlushByte(s, data[p])
    requires MarkMoves(s, data[p], to) ==> MarksFit(to, NO_MARKS, p + 1)
    ensures Moved(s, to, data, p, OneMark(kind, mark), calls, NO_MARKS, calls + Flush(kind, mark, data, p))
  {
    hide Flatten, IsToken, Bytes, MarkMoves, FlushByte;
    FlattenFlush(calls, kind, mark, data, p);
    OneOwed(kind, mark, data, p);
    assert Owed(NO_MARKS, data, p + 1) == [] by { OneOwed(Url, -1, data, p + 1); }
    hide Owed;
    var told := Flatten(calls) + Open(kind, mark, data, p);
    assert told + [] == told;
  }

  lemma MovedEmptyValue(s: State, to: State, data: string, p: nat, calls: seq<Callback>)
    requires p < |data| && s.HeaderValueStart? && (data[p] == CR || data[p] == LF)
    ensures Moved(s, to, data, p, NO_MARKS, calls, NO_MARKS, calls + Flush(Value, p, data, p))
  {
    hide Flatten, IsToken;
    FlattenFlush(calls, Value, p, data, p);
    assert Flatten(calls) + [] == Flatten(calls);
    hide Bytes;
  }

  /** The byte is going to be rejected. */
  lemma MovedNowhere(s: State, to: State, data: string, p: nat, m: Marks, calls: seq<Callback>)
    requires p < |data| && MarksFit(s, m, p) && !MarkMoves(s, data[p], to)
    ensures Moved(s, to, data, p, m, calls, m, calls)
  {
    hide Flatten, Bytes, MarkMoves;
  }

  /** Inside the URL its mark is the only one, and it stays until white space ends the URL. */
  lemma UrlFit(s: State, to: State, ch: char, p: nat, m: Marks)
    requires UrlState(s) && MarksFit(s, m, p) && MarkMoves(s, ch, to)
    ensures MarksFit(to, if ch == ' ' || ch == CR || ch == LF then NO_MARKS else m, p + 1)
  {
    hide IsToken;
  }

  /** The URL's mark and callback for one byte. */
  method MoveUrlMark(s: State, data: string, p: nat, m: Marks, calls: seq<Callback>, ghost to: State)
    returns (m': Marks, calls': seq<Callback>)
    requires p < |data| && (s.SpacesBeforeUrl? || UrlState(s)) && MarksFit(s, m, p)
    ensures Moved(s, to, data, p, m, calls, m', calls')
  {
    hide Flatten, IsToken, Moved, Owed;
    var ch := data[p];
    m', calls' := m, calls;
    if s.SpacesBeforeUrl? {
      if ch != ' ' {
        m' := m.(url := Mark(m.url, p));
        MovedMark(s, to, data, p, Url, calls);
      } else {
        MovedIdle(s, to, data, p, m, calls);
      }
      return;
    }
    if MarkMoves(s, ch, to) {
      UrlFit(s, to, ch, p, m);
    }
    assert m == OneMark(Url, m.url) && 0 <= m.url <= p &&
           (MarkMoves(s, ch, to) && LeadingUrlState(s) ==> ch != ' ' && ch != CR && ch != LF);
    assert FlushByte(s, ch) <==> !LeadingUrlState(s) && (ch == ' ' || ch == CR || ch == LF);
    hide MarkMoves, FlushByte, UrlState;
    if !LeadingUrlState(s) && (ch == ' ' || ch == CR || ch == LF) {
      calls' := calls + Flush(Url, m.url, data, p);
      m' := m.(url := -1);
      MovedFlush(s, to, data, p, calls, Url, m.url);
    } else {
      MovedOn(s, to, data, p, m, calls);
    }
  }

  /** The header field's mark and callback for one byte. */
  method MoveFieldMark(s: State, data: string, p: nat, m: Marks, calls: seq<Callback>, ghost to: State)
    returns (m': Marks, calls': seq<Callback>)
    requires p < |data| && (s.HeaderFieldStart? || s.HeaderValueLws? || s.HeaderField?) && MarksFit(s, m, p)
    ensures Moved(s, to, data, p, m, calls, m', calls')
  {
    hide Flatten, IsToken, Moved, Owed;
    var ch := data[p];
    m', calls' := m, calls;
    if !s.HeaderField? {
      if IsToken(ch) {
        m' := m.(field := Mark(m.field, p));
        MovedMark(s, to, data, p, Field, calls);
      } else {
        MovedIdle(s, to, data, p, m, calls);
      }
    } else if !IsToken(ch) && (ch == ':' || ch == CR || ch == LF) {
      calls' := calls + Flush(Field, m.field, data, p);
      m' := m.(field := -1);
      MovedFlush(s, to, data, p, calls, Field, m.field);
    } else {
      MovedOn(s, to, data, p, m, calls);
    }
  }

  /** The header value's mark and callback for one byte; an empty value is still handed over. */
  method MoveValueMark(s: State, data: string, p: nat, m: Marks, calls: seq<Callback>, ghost to: State)
    returns (m': Marks, calls': seq<Callback>)
    requires p < |data| && (s.HeaderValueStart? || s.HeaderValue?) && MarksFit(s, m, p)
    ensures Moved(s, to, data, p, m, calls, m', calls')
  {
    hide Flatten, IsToken, Moved, Owed;
    var ch := data[p];
    m', calls' := m, calls;
    if s.HeaderValueStart? {
      if ch == ' ' || ch == '\t' {
        MovedIdle(s, to, data, p, m, calls);
      } else {
        m' := m.(value := Mark(m.value, p));
        if ch == CR || ch == LF {
          calls' := calls + Flush(Value, m'.value, data, p);
          m' := m'.(value := -1);
          MovedEmptyValue(s, to, data, p, calls);
        } else {
          MovedMark(s, to, data, p, Value, calls);
        }
      }
    } else if ch == CR || ch == LF {
      calls' := calls + Flush(Value, m.value, data, p);
      m' := m.(value := -1);
      MovedFlush(s, to, data, p, calls, Value, m.value);
    } else {
      MovedOn(s, to, data, p, m, calls);
    }
  }

  /** The marks and data callbacks of one byte outside the body, as the `switch` of the source makes them. */
  method MoveMarks(s: State, data: string, p: nat, m: Marks, calls: seq<Callback>, ghost to: State)
    returns (m': Marks, calls': seq<Callback>)
    requires p < |data| && !BodyState(s) && MarksFit(s, m, p)
    ensures Moved(s, to, data, p, m, calls, m', calls')
  {
    hide Flatten, IsToken, Moved, Owed;
    m', calls' := m, calls;
    if s.SpacesBeforeUrl? || UrlState(s) {
      m', calls' := MoveUrlMark(s, data, p, m, calls, to);
    } else if s.HeaderFieldStart? || s.HeaderValueLws? || s.HeaderField? {
      m', calls' := MoveFieldMark(s, data, p, m, calls, to);
    } else if s.HeaderValueStart? || s.HeaderValue? {
      m', calls' := MoveValueMark(s, data, p, m, calls, to);
    } else if !s.ChunkDataAlmostDone? {
      MovedIdle(s, to, data, p, m, calls);
    } else if data[p] == CR {
      calls' := calls + Flush(Body, m.body, data, p);
      m' := m.(body := -1);
      MovedFlush(s, to, data, p, calls, Body, m.body);
    } else {
      MovedNowhere(s, to, data, p, m, calls);
    }
  }

  // ----- the parser object

  /** End of file: fine between messages, an error anywhere else. */
  function AtEof(f: Fields): Fields {
    if f.errno != Ok || f.state.Dead? || f.state.StartReq? then f else Fail(f, InvalidEofState)
  }

  /** What the bulk loop has established after `p` bytes of `data`. */
  ghost predicate Progress(f0: Fields, f: Fields, data: string, p: nat, m: Marks, calls: seq<Callback>)
    requires p <= |data|
  {
    var r := Fold(Step, f0, data[..p]);
    && !r.stopped && f == r.f && f.errno == Ok && Inv(f)
    && MarksFit(f.state, m, p)
    && (BodyState(f.state) && p < |data| ==> m.body < 0)
    && Flatten(calls) + Owed(m, data, p) == r.events
  }

  /** What `execute` has done when it returns inside the buffer. */
  ghost predicate Done(f0: Fields, f: Fields, data: string, nparsed: nat, calls: seq<Callback>) {
    var r := Run(f0, data);
    && f == r.f && nparsed == r.consumed
    && Flatten(calls) <= r.events
    && (f.errno == Ok ==> Inv(f) && Flatten(calls) == r.events)
  }

  lemma StepControl(f: Fields, ch: char)
    requires f.errno == Ok && !BodyState(f.state)
    ensures var g := Counted(f);
      var o := Control(g, ch);
      && g.state == f.state
      && Step(f, ch) ==
         if g.errno != Ok then Stepped(g, [], Reject)
         else if o.f.errno != Ok then Stepped(o.f, o.notes, Reject)
         else Stepped(o.f, DataOf(o.f.state, ch) + o.notes, if o.exit then Exit else Continue)
  {
    hide Control, DataOf;
  }

  /** The specification's account of a byte that is not body data. */
  lemma ByteOutcome(f0: Fields, data: string, p: nat)
    requires p < |data| && f0.errno == Ok
    requires var r := Fold(Step, f0, data[..p]); !r.stopped && r.f.errno == Ok && Inv(r.f) && !BodyState(r.f.state)
    ensures
      var r := Fold(Step, f0, data[..p]);
      var g := Counted(r.f);
      var o := Control(g, data[p]);
      g.state == r.f.state &&
      if g.errno != Ok then Run(f0, data) == Result(g, r.events, p, true)
      else if o.f.errno != Ok then Run(f0, data) == Result(o.f, r.events, p, true)
      else
        var events := r.events + (DataOf(o.f.state, data[p]) + o.notes);
        && Inv(o.f)
        && Fold(Step, f0, data[..p + 1]) == Result(o.f, events, p + 1, o.exit)
        && (o.exit ==> Run(f0, data) == Result(o.f, events, p + 1, true))
  {
    hide Step, Control, Inv, Counted, DataOf;
    var f := Fold(Step, f0, data[..p]).f;
    StepInv(f, data[p]);
    StepControl(f, data[p]);
    FoldAdvance(Step, f0, data, p, 1);
    FoldOne(Step, f, data[p]);
    assert data[p..p + 1] == [data[p]];
    if Fold(Step, f0, data[..p + 1]).stopped {
      FoldStopped(Step, f0, data, p + 1);
    }
  }

  lemma TakeInv(f: Fields, n: nat)
    requires f.errno == Ok && Inv(f) && BodyState(f.state) && n <= f.contentLength
    ensures if f.state.BodyIdentity? then Inv(TakeBody(f, n).f) else Inv(TakeChunk(f, n))
  {}

  /** Body bytes `s`, and the end of the message if the parser has left the body. */
  function BodyEvents(s: string, f: Fields): seq<Event> {
    if f.state.BodyIdentity? then Bytes(Body, s) else Bytes(Body, s) + [Complete]
  }

  /** The specification's account of a bulk read of `n` body bytes. */
  lemma BulkOutcome(f0: Fields, data: string, p: nat, n: nat)
    requires 0 < n && p + n <= |data| && f0.errno == Ok
    requires var r := Fold(Step, f0, data[..p]);
      !r.stopped && r.f.errno == Ok && Inv(r.f) && BodyState(r.f.state) && n <= r.f.contentLength
    ensures var r := Fold(Step, f0, data[..p]);
      if r.f.state.BodyIdentity? then
        var o := TakeBody(r.f, n);
        && Inv(o.f)
        && Fold(Step, f0, data[..p + n]) ==
           Result(o.f, r.events + BodyEvents(data[p..p + n], o.f), p + n, false)
      else
        && Inv(TakeChunk(r.f, n))
        && Fold(Step, f0, data[..p + n]) ==
           Result(TakeChunk(r.f, n), r.events + Bytes(Body, data[p..p + n]), p + n, false)
  {
    hide Step, Control, Bytes, Fold;
    var f := Fold(Step, f0, data[..p]).f;
    TakeInv(f, n);
    hide Inv;
    FoldAdvance(Step, f0, data, p, n);
    if f.state.BodyIdentity? {
      BodyRun(f, data[p..p + n]);
      assert Bytes(Body, data[p..p + n]) + [] == Bytes(Body, data[p..p + n]);
    } else {
      ChunkRun(f, data[p..p + n]);
    }
  }

  /** Between body bytes at the start of a bulk read, nothing is owed. */
  lemma BulkOwed(f0: Fields, f: Fields, data: string, p: nat, m: Marks, calls: seq<Callback>)
    requires p < |data| && Progress(f0, f, data, p, m, calls) && BodyState(f.state)
    ensures m == NO_MARKS && Flatten(calls) == Fold(Step, f0, data[..p]).events
  {
    hide Flatten, Step, Bytes, Inv;
    assert Owed(m, data, p) == [];
    assert Flatten(calls) + [] == Flatten(calls);
  }

  lemma OwedNothing(s: State, m: Marks, data: string, p: nat)
    requires p <= |data| && MarksFit(s, m, p) && m.body < 0 && DataOf(s, ' ') == []
    ensures Owed(m, data, p) == []
  {}

  lemma BodyUnfinished(f0: Fields, f: Fields, data: string, p: nat, m: Marks, calls: seq<Callback>, n: nat)
    requires p < |data| && Progress(f0, f, data, p, m, calls) && f0.errno == Ok && f.state.BodyIdentity?
    requires 0 < n < f.contentLength && p + n == |data|
    ensures Progress(f0, f.(contentLength := f.contentLength - n), data, p + n, m.(body := p), calls)
  {
    hide Flatten, Step, Bytes, Control, Fold;
    BulkOutcome(f0, data, p, n);
    BulkOwed(f0, f, data, p, m, calls);
    hide Inv;
  }

  lemma BodyFinished(f0: Fields, f: Fields, data: string, p: nat, m: Marks, calls: seq<Callback>, n: nat)
    requires p < |data| && Progress(f0, f, data, p, m, calls) && f0.errno == Ok && f.state.BodyIdentity?
    requires n == f.contentLength && p + n <= |data|
    ensures Progress(f0, f.(contentLength := 0, state := NewMessage(f)), data, p + n, m,
              calls + Flush(Body, p, data, p + n) + [OnMessageComplete])
  {
    hide Flatten, Step, Bytes, Control, Fold;
    BulkOutcome(f0, data, p, n);
    BulkOwed(f0, f, data, p, m, calls);
    hide Inv;
    BodyComplete(calls, p, data, p + n);
    var done := calls + Flush(Body, p, data, p + n) + [OnMessageComplete];
    assert Flatten(done) == Fold(Step, f0, data[..p + n]).events;
    assert Flatten(done) + [] == Flatten(done);
    OwedNothing(NewMessage(f), m, data, p + n);
  }

  /** Notifications come only when nothing is owed. */
  lemma NotifyAfter(told: seq<Event>, owed: seq<Event>, before: seq<Event>, data: seq<Event>, notes: seq<Event>)
    requires told + owed == before + data
    requires notes != [] ==> owed == [] && data == []
    ensures (told + notes) + owed == before + (data + notes)
  {
    if notes == [] {
      assert told + notes == told && data + notes == data;
    } else {
      assert told + owed == told && before + data == before;
      assert (told + notes) + owed == told + notes;
      assert data + notes == notes;
    }
  }

  lemma BodyComplete(calls: seq<Callback>, mark: int, data: string, p: nat)
    requires 0 <= mark <= p <= |data|
    ensures Flatten(calls + Flush(Body, mark, data, p) + [OnMessageComplete]) ==
            Flatten(calls) + (Bytes(Body, data[mark..p]) + [Complete])
  {
    hide Bytes;
    var a := calls + Flush(Body, mark, data, p);
    FlattenFlush(calls, Body, mark, data, p);
    assert (a + [OnMessageComplete])[..|a|] == a;
  }

  lemma FlattenNothing()
    ensures Flatten([]) == []
  {}

  /** The leftover callbacks at the end of the buffer hand over exactly what is owed. */
  lemma FlushAll(calls: seq<Callback>, m: Marks, data: string, s: State)
    requires MarksFit(s, m, |data|)
    ensures var p := |data|;
      Flatten(calls + Flush(Field, m.field, data, p) + Flush(Value, m.value, data, p) + Flush(Url, m.url, data, p) +
              Flush(Body, m.body, data, p)) ==
      Flatten(calls) + Owed(m, data, p)
  {
    hide Flatten, Bytes;
    var p := |data|;
    var a := calls + Flush(Field, m.field, data, p);
    var b := a + Flush(Value, m.value, data, p);
    var c := b + Flush(Url, m.url, data, p);
    if m.field >= 0 {
      FlattenFlush(calls, Field, m.field, data, p);
      assert b == a && c == b && c + [] == c;
    } else if m.value >= 0 {
      FlattenFlush(calls, Value, m.value, data, p);
      assert a == calls && c == b && c + [] == c;
    } else if m.url >= 0 {
      FlattenFlush(calls, Url, m.url, data, p);
      assert a == calls && b == a && c + [] == c;
    } else {
      FlattenFlush(calls, Body, m.body, data, p);
      assert a == calls && b == a && c == b;
    }
  }

  // ----- streams that arrive in pieces

  /** One run per piece, each from where the last one ended, until one stops early. */
  function RunPieces(f: Fields, pieces: seq<string>): Result<Fields, Event> {
    if pieces == [] then Result(f, [], 0, f.errno != Ok)
    else
      var n := |pieces| - 1;
      var r := RunPieces(f, pieces[..n]);
      Then(r, r.consumed, Run(r.f, pieces[n]))
  }

  /** However a stream is cut, the parser ends in the same state, after the same trace and the same bytes. */
  lemma {:induction false} CutIndependence(f: Fields, pieces: seq<string>)
    ensures RunPieces(f, pieces) == Run(f, Concat(pieces))
    requires f.errno == Ok ==> Inv(f)
  {
    hide Step;
    if pieces != [] {
      var n := |pieces| - 1;
      CutIndependence(f, pieces[..n]);
      if f.errno == Ok {
        RunInv(f, Concat(pieces[..n]));
        FoldConcat(Step, f, Concat(pieces[..n]), pieces[n]);
      }
    }
  }

  /** What came before a piece that stops the run is all there is. */
  lemma {:induction false} PiecesStopped(f: Fields, pieces: seq<string>, i: nat)
    requires i <= |pieces| && RunPieces(f, pieces[..i]).stopped
    ensures RunPieces(f, pieces) == RunPieces(f, pieces[..i])
  {
    hide Run;
    if i == |pieces| {
      assert pieces[..i] == pieces;
    } else {
      var n := |pieces| - 1;
      assert pieces[..n][..i] == pieces[..i];
      PiecesStopped(f, pieces[..n], i);
    }
  }

  class HttpParser {
    var f: Fields

    constructor ()
      ensures f == INIT && Inv(f)
    {
      f := INIT;
    }

    /** A byte that is not body data. `done` says that `execute` returns after `nparsed` bytes. */
    method Byte(data: string, p: nat, m: Marks, calls: seq<Callback>, ghost f0: Fields)
      returns (m': Marks, calls': seq<Callback>, done: bool, nparsed: nat)
      requires p < |data| && Progress(f0, f, data, p, m, calls) && f0.errno == Ok && !BodyState(f.state)
      modifies this
      ensures !done ==> Progress(f0, f, data, p + 1, m', calls')
      ensures done ==> Done(f0, f, data, nparsed, calls')
    {
      hide Control, Flatten, Inv, Step, Counted;
      ByteOutcome(f0, data, p);
      f := Counted(f);
      m', calls', done, nparsed := m, calls, true, p;
      if f.errno == Ok {
        var o := Control(f, data[p]);
        if o.f.errno == Ok {
          ControlMoves(f, data[p]);
        } else if FlushByte(f.state, data[p]) {
          FlushAccepted(f, data[p]);
        }
        m', calls' := MoveMarks(f.state, data, p, m, calls, o.f.state);
        f := o.f;
        if f.errno == Ok {
          FlattenConcat(calls', Notify(o.notes));
          if DataOf(f.state, ' ') == [] {
            OwedNothing(f.state, m', data, p + 1);
          }
          NotifyAfter(Flatten(calls'), Owed(m', data, p + 1), Flatten(calls) + Owed(m, data, p),
            DataOf(f.state, data[p]), o.notes);
          calls' := calls' + Notify(o.notes);
          done, nparsed := o.exit, p + 1;
        }
      }
    }

    /** `s_body_identity`: as many bytes as the message and the buffer both have. */
    method BulkBody(data: string, p: nat, m: Marks, calls: seq<Callback>, ghost f0: Fields)
      returns (m': Marks, calls': seq<Callback>, p': nat)
      requires p < |data| && Progress(f0, f, data, p, m, calls) && f0.errno == Ok && f.state.BodyIdentity?
      modifies this
      ensures p < p' <= |data| && Progress(f0, f, data, p', m', calls')
    {
      hide Flatten, Step, Bytes, Control, Fold;
      assert f.contentLength != 0 && f.contentLength != ULLONG_MAX;
      BulkOwed(f0, f, data, p, m, calls);
      var toRead := if f.contentLength < |data| - p then f.contentLength else |data| - p;
      if toRead < f.contentLength {
        BodyUnfinished(f0, f, data, p, m, calls, toRead);
      } else {
        BodyFinished(f0, f, data, p, m, calls, toRead);
      }
      hide Progress;
      m' := m.(body := Mark(m.body, p));
      p' := p + toRead;
      calls' := calls;
      f := f.(contentLength := f.contentLength - toRead);
      if f.contentLength == 0 {
        calls' := calls + Flush(Body, m'.body, data, p');
        m' := m'.(body := -1);
        f := f.(state := NewMessage(f));
        calls' := calls' + [OnMessageComplete];
      }
    }

    /** `s_chunk_data`: as many bytes as the chunk and the buffer both have. */
    method BulkChunk(data: string, p: nat, m: Marks, calls: seq<Callback>, ghost f0: Fields)
      returns (m': Marks, calls': seq<Callback>, p': nat)
      requires p < |data| && Progress(f0, f, data, p, m, calls) && f0.errno == Ok && f.state.ChunkData?
      modifies this
      ensures p < p' <= |data| && Progress(f0, f, data, p', m', calls')
    {
      hide Flatten, Step, Bytes, Control, Fold;
      assert f.contentLength != 0 && f.contentLength != ULLONG_MAX && f.flags.chunked;
      hide Inv;
      var toRead := if f.contentLength < |data| - p then f.contentLength else |data| - p;
      BulkOutcome(f0, data, p, toRead);
      BulkOwed(f0, f, data, p, m, calls);
      m' := m.(body := Mark(m.body, p));
      p' := p + toRead;
      calls' := calls;
      f := f.(contentLength := f.contentLength - toRead);
      if f.contentLength == 0 {
        f := f.(state := ChunkDataAlmostDone);
      }
    }

    /**
     `http_parser_execute` on one buffer: the fields, the number of bytes consumed and the data handed
     to the callbacks are those of the byte-at-a-time run. After an error a piece still marked is lost.
     */
    method Execute(data: string) returns (nparsed: nat, calls: seq<Callback>)
      requires f.errno == Ok ==> Inv(f)
      modifies this
      ensures data == "" ==> f == AtEof(old(f)) && calls == [] && nparsed == if f == old(f) then 0 else 1
      ensures data != "" ==> Done(old(f), f, data, nparsed, calls)
    {
      hide Flatten, Step;
      ghost var f0 := f;
      nparsed, calls := 0, [];
      if f.errno != Ok {
        FlattenNothing();
        return;
      }
      if data == "" {
        f := AtEof(f);
        nparsed := if f.errno == Ok then 0 else 1;
        return;
      }
      var m := InitialMarks(f.state);
      var p := 0;
      assert Progress(f0, f, data, p, m, calls) by {
        FlattenNothing();
        assert data[..0] == "";
      }
      while p < |data|
        invariant p <= |data| && Progress(f0, f, data, p, m, calls)
      {
        if f.state.BodyIdentity? {
          m, calls, p := BulkBody(data, p, m, calls, f0);
        } else if f.state.ChunkData? {
          m, calls, p := BulkChunk(data, p, m, calls, f0);
        } else {
          var done;
          m, calls, done, nparsed := Byte(data, p, m, calls, f0);
          if done {
            return;
          }
          p := p + 1;
        }
      }
      assert data[..p] == data;
      FlushAll(calls, m, data, f.state);
      nparsed := |data|;
      calls := calls + Flush(Field, m.field, data, p);
      calls := calls + Flush(Value, m.value, data, p);
      calls := calls + Flush(Url, m.url, data, p);
      calls := calls + Flush(Body, m.body, data, p);
    }
  }

  /**
   The read loop of an embedder: one `Execute` per piece, until the parser fails or asks for another
   protocol. What the callbacks are told does not depend on the cut.
   */
  method Feed(parser: HttpParser, pieces: seq<string>) returns (calls: seq<Callback>)
    requires parser.f.errno == Ok && Inv(parser.f) && !parser.f.upgrade
    requires forall i :: 0 <= i < |pieces| ==> pieces[i] != ""
    modifies parser
    ensures var r := Run(old(parser.f), Concat(pieces));
      && parser.f == r.f
      && Flatten(calls) <= r.events
      && (parser.f.errno == Ok ==> Flatten(calls) == r.events)
  {
    hide Flatten, Step, Inv, Fold;
    ghost var f0 := parser.f;
    calls := [];
    FlattenNothing();
    CutIndependence(f0, pieces);
    var i := 0;
    while i < |pieces|
      invariant i <= |pieces|
      invariant parser.f.errno == Ok && Inv(parser.f) && !parser.f.upgrade
      invariant var r := RunPieces(f0, pieces[..i]);
        !r.stopped && r.f == parser.f && r.events == Flatten(calls)
    {
      assert pieces[..i + 1][..i] == pieces[..i];
      RunInv(parser.f, pieces[i]);
      var nparsed, told := parser.Execute(pieces[i]);
      FlattenConcat(calls, told);
      calls := calls + told;
      i := i + 1;
      if parser.f.errno != Ok || parser.f.upgrade {
        PiecesStopped(f0, pieces, i);
        return;
      }
    }
    assert pieces[..i] == pieces;
  }
}
