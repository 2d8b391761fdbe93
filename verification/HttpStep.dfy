/**
 The request parser as a machine that consumes one byte at a time: `Step` for a byte, `Run` for a
 stream. The states follow `http_parser_execute`; `goto reexecute_byte` becomes a nested call.
 */
module HttpStep {
  import opened HttpTypes
  import opened Numbers
  import opened Machine

  function Fail(f: Fields, e: Errno): Fields { f.(errno := e) }

  function NextIndex(f: Fields): nat { (f.index + 1) % 256 }

  /** What a byte does: the new fields, the notifications it triggers, and whether `execute` returns here. */
  datatype Out = Out(f: Fields, notes: seq<Event>, exit: bool)

  function Quiet(f: Fields): Out { Out(f, [], false) }

  // ----- the request line

  function StartByte(f: Fields, ch: char): Out {
    if ch == CR || ch == LF then Quiet(f)
    else
      var g := f.(flags := NO_FLAGS, contentLength := ULLONG_MAX);
      if !IsAlpha(ch) then Quiet(Fail(g, InvalidMethod))
      else
        var h := g.(verb := DELETE, index := 1);
        var begun := h.(state := ReqMethod);
        match ch
        case 'C' => Out(begun.(verb := CONNECT), [Begin], false)
        case 'D' => Out(begun.(verb := DELETE), [Begin], false)
        case 'G' => Out(begun.(verb := GET), [Begin], false)
        case 'H' => Out(begun.(verb := HEAD), [Begin], false)
        case 'L' => Out(begun.(verb := LOCK), [Begin], false)
        case 'M' => Out(begun.(verb := MKCOL), [Begin], false)
        case 'N' => Out(begun.(verb := NOTIFY), [Begin], false)
        case 'O' => Out(begun.(verb := OPTIONS), [Begin], false)
        case 'P' => Out(begun.(verb := POST), [Begin], false)
        case 'R' => Out(begun.(verb := REPORT), [Begin], false)
        case 'S' => Out(begun.(verb := SUBSCRIBE), [Begin], false)
        case 'T' => Out(begun.(verb := TRACE), [Begin], false)
        case 'U' => Out(begun.(verb := UNLOCK), [Begin], false)
        case _ => Quiet(Fail(h, InvalidMethod))
  }

  /** `method_strings[m][i]`, where the terminator is the character 0. */
  function MethodChar(m: Method, i: nat): char {
    if i < |MethodName(m)| then MethodName(m)[i] else '\0'
  }

  /** The method to go on with when `ch` does not continue `m` at position `i`, if there is one. */
  function Alternative(m: Method, i: nat, ch: char): Method {
    if m == CONNECT then
      if i == 1 && ch == 'H' then CHECKOUT else if i == 2 && ch == 'P' then COPY else m
    else if m == MKCOL then
      if i == 1 && ch == 'O' then MOVE
      else if i == 1 && ch == 'E' then MERGE
      else if i == 1 && ch == '-' then MSEARCH
      else if i == 2 && ch == 'A' then MKACTIVITY
      else m
    else if m == SUBSCRIBE then
      if i == 1 && ch == 'E' then SEARCH else m
    else if i == 1 && m == POST then
      if ch == 'R' then PROPFIND else if ch == 'U' then PUT else if ch == 'A' then PATCH else m
    else if i == 2 then
      if m == PUT && ch == 'R' then PURGE
      else if m == UNLOCK && ch == 'S' then UNSUBSCRIBE
      else m
    else if i == 4 && m == PROPFIND && ch == 'P' then PROPPATCH
    else m
  }

  function MethodByte(f: Fields, ch: char): Fields {
    if ch == '\0' then Fail(f, InvalidMethod)
    else
      var expected := MethodChar(f.verb, f.index);
      if ch == ' ' && expected == '\0' then f.(state := SpacesBeforeUrl, index := NextIndex(f))
      else if ch == expected then f.(index := NextIndex(f))
      else
        var m := Alternative(f.verb, f.index, ch);
        if m == f.verb then Fail(f, InvalidMethod) else f.(verb := m, index := NextIndex(f))
  }

  /** `parse_url_char`; `Dead` means that the character is not allowed here. */
  function UrlNext(s: State, ch: char): State {
    if ch == ' ' || ch == CR || ch == LF || ch == '\t' || ch == '\U{0C}' then Dead
    else match s
      case SpacesBeforeUrl =>
        if ch == '/' || ch == '*' then Path else if IsAlpha(ch) then Schema else Dead
      case Schema =>
        if IsAlpha(ch) then Schema else if ch == ':' then SchemaSlash else Dead
      case SchemaSlash => if ch == '/' then SchemaSlashSlash else Dead
      case SchemaSlashSlash => if ch == '/' then ServerStart else Dead
      case ServerWithAt => if ch == '@' then Dead else ServerNext(ch)
      case ServerStart => ServerNext(ch)
      case Server => ServerNext(ch)
      case Path =>
        if IsUrlChar(ch) then Path
        else if ch == '?' then QueryStringStart
        else if ch == '#' then FragmentStart
        else Dead
      case QueryStringStart => QueryNext(ch)
      case QueryString => QueryNext(ch)
      case FragmentStart =>
        if IsUrlChar(ch) || ch == '?' then Fragment else if ch == '#' then FragmentStart else Dead
      case Fragment => if IsUrlChar(ch) || ch == '?' || ch == '#' then Fragment else Dead
      case _ => Dead
  }

  function ServerNext(ch: char): State {
    if ch == '/' then Path
    else if ch == '?' then QueryStringStart
    else if ch == '@' then ServerWithAt
    else if IsUserinfoChar(ch) || ch == '[' || ch == ']' then Server
    else Dead
  }

  function QueryNext(ch: char): State {
    if IsUrlChar(ch) || ch == '?' then QueryString else if ch == '#' then FragmentStart else Dead
  }

  function EnterUrl(f: Fields, s: State, ch: char): Fields {
    var g := f.(state := UrlNext(s, ch));
    if g.state.Dead? then Fail(g, InvalidUrl) else g
  }

  function SpaceByte(f: Fields, ch: char): Fields {
    if ch == ' ' then f
    else EnterUrl(f, if f.verb == CONNECT then ServerStart else f.state, ch)
  }

  function UrlByte(f: Fields, ch: char): Fields {
    if f.state.Schema? || f.state.SchemaSlash? || f.state.SchemaSlashSlash? || f.state.ServerStart? then
      if ch == ' ' || ch == CR || ch == LF then Fail(f, InvalidUrl) else EnterUrl(f, f.state, ch)
    else if ch == ' ' then f.(state := HttpStart)
    else if ch == CR then f.(major := 0, minor := 9, state := ReqLineAlmostDone)
    else if ch == LF then f.(major := 0, minor := 9, state := HeaderFieldStart)
    else EnterUrl(f, f.state, ch)
  }

  /** A byte that has to be `want` to reach `next`. */
  function Expect(f: Fields, ch: char, want: char, next: State, e: Errno): Fields {
    if ch == want then f.(state := next) else Fail(f, e)
  }

  function VersionByte(f: Fields, ch: char): Fields {
    match f.state
    case FirstMajor =>
      if '1' <= ch <= '9' then f.(major := Digit(ch), state := Major) else Fail(f, InvalidVersion)
    case Major =>
      if ch == '.' then f.(state := FirstMinor)
      else if !IsNum(ch) then Fail(f, InvalidVersion)
      else
        var g := f.(major := f.major * 10 + Digit(ch));
        if g.major > 999 then Fail(g, InvalidVersion) else g
    case FirstMinor =>
      if IsNum(ch) then f.(minor := Digit(ch), state := Minor) else Fail(f, InvalidVersion)
    case _ =>
      if ch == CR then f.(state := ReqLineAlmostDone)
      else if ch == LF then f.(state := HeaderFieldStart)
      else if !IsNum(ch) then Fail(f, InvalidVersion)
      else
        var g := f.(minor := f.minor * 10 + Digit(ch));
        if g.minor > 999 then Fail(g, InvalidVersion) else g
  }

  // ----- headers

  /** One character of a keyword match: `word` is being matched in `matching`, a full match gives `matched`. */
  function MatchWord(f: Fields, c: char, word: string, matched: HeaderState): Fields
    requires |word| > 0
  {
    var i := NextIndex(f);
    var g := f.(index := i);
    if i > |word| || c != (if i < |word| then word[i] else '\0') then g.(headerState := General)
    else if i == |word| - 1 then g.(headerState := matched)
    else g
  }

  function FieldStartByte(f: Fields, ch: char): Fields {
    var c := TokenLower(ch);
    f.(index := 0, state := HeaderField,
       headerState :=
         if c == 'c' then C
         else if c == 'p' then MatchingProxyConnection
         else if c == 't' then MatchingTransferEncoding
         else if c == 'u' then MatchingUpgrade
         else General)
  }

  /** The header-name matcher on a token character, already in lower case. */
  function MatchField(f: Fields, c: char): Fields {
    match f.headerState
    case General => f
    case C => f.(index := NextIndex(f), headerState := if c == 'o' then CO else General)
    case CO => f.(index := NextIndex(f), headerState := if c == 'n' then CON else General)
    case CON =>
      f.(index := NextIndex(f),
         headerState :=
           if c == 'n' then MatchingConnection
           else if c == 't' then MatchingContentLength
           else General)
    case MatchingConnection => MatchWord(f, c, CONNECTION, Connection)
    case MatchingProxyConnection => MatchWord(f, c, PROXY_CONNECTION, Connection)
    case MatchingContentLength => MatchWord(f, c, CONTENT_LENGTH, ContentLength)
    case MatchingTransferEncoding => MatchWord(f, c, TRANSFER_ENCODING, TransferEncoding)
    case MatchingUpgrade => MatchWord(f, c, UPGRADE, Upgrade)
    case _ => f.(headerState := General)
  }

  function FieldByte(f: Fields, ch: char): Fields {
    if IsToken(ch) then MatchField(f, TokenLower(ch))
    else if ch == ':' then f.(state := HeaderValueStart)
    else if ch == CR then f.(state := HeaderAlmostDone)
    else if ch == LF then f.(state := HeaderFieldStart)
    else Fail(f, InvalidHeaderToken)
  }

  function ValueStartByte(f: Fields, ch: char): Fields {
    if ch == ' ' || ch == '\t' then f
    else
      var g := f.(index := 0);
      if ch == CR then g.(headerState := General, state := HeaderAlmostDone)
      else if ch == LF then g.(state := HeaderFieldStart)
      else
        var h := g.(state := HeaderValue);
        var c := Lower(ch);
        match f.headerState
        case Upgrade => h.(flags := h.flags.(upgrade := true), headerState := General)
        case TransferEncoding => h.(headerState := if c == 'c' then MatchingChunked else General)
        case ContentLength =>
          if IsNum(ch) then h.(contentLength := Digit(ch)) else Fail(h, InvalidContentLength)
        case Connection =>
          h.(headerState := if c == 'k' then MatchingKeepAlive else if c == 'c' then MatchingClose else General)
        case _ => h.(headerState := General)
  }

  /** `content_length * base + digit` in 64 bits, guarded by the parser's overflow test. */
  function Accumulate(f: Fields, base: nat, digit: nat): Fields
    requires base > 0
  {
    if (ULLONG_MAX - base) / base < f.contentLength then Fail(f, InvalidContentLength)
    else f.(contentLength := (f.contentLength * base + digit) % (ULLONG_MAX + 1))
  }

  /** The header-value matcher on a byte that does not end the value. */
  function MatchValue(f: Fields, ch: char): Fields {
    match f.headerState
    case ContentLength =>
      if ch == ' ' then f
      else if !IsNum(ch) then Fail(f, InvalidContentLength)
      else Accumulate(f, 10, Digit(ch))
    case MatchingChunked => MatchWord(f, Lower(ch), CHUNKED, ChunkedValue)
    case MatchingKeepAlive => MatchWord(f, Lower(ch), KEEP_ALIVE, KeepAliveValue)
    case MatchingClose => MatchWord(f, Lower(ch), CLOSE, CloseValue)
    case ChunkedValue => if ch == ' ' then f else f.(headerState := General)
    case KeepAliveValue => if ch == ' ' then f else f.(headerState := General)
    case CloseValue => if ch == ' ' then f else f.(headerState := General)
    case _ => f.(headerState := General)
  }

  function ValueByte(f: Fields, ch: char): Fields {
    if ch == CR then f.(state := HeaderAlmostDone)
    else if ch == LF then AlmostDoneByte(f.(state := HeaderAlmostDone), ch)
    else MatchValue(f, ch)
  }

  function AlmostDoneByte(f: Fields, ch: char): Fields {
    if ch != LF then Fail(f, Strict)
    else
      var g := f.(state := HeaderValueLws);
      match f.headerState
      case KeepAliveValue => g.(flags := g.flags.(keepAlive := true))
      case CloseValue => g.(flags := g.flags.(close := true))
      case ChunkedValue => g.(flags := g.flags.(chunked := true))
      case _ => g
  }

  /** `http_should_keep_alive` for a request. */
  predicate ShouldKeepAlive(f: Fields) {
    if f.major > 0 && f.minor > 0 then !f.flags.close else f.flags.keepAlive
  }

  function NewMessage(f: Fields): State { if ShouldKeepAlive(f) then StartReq else Dead }

  function FinishMessage(f: Fields, exit: bool): Out { Out(f.(state := NewMessage(f)), [Complete], exit) }

  function HeaderFieldStartByte(f: Fields, ch: char): Out {
    if ch == CR then Quiet(f.(state := HeadersAlmostDone))
    else if ch == LF then HeadersAlmostDoneByte(f.(state := HeadersAlmostDone), ch)
    else if !IsToken(ch) then Quiet(Fail(f, InvalidHeaderToken))
    else Quiet(FieldStartByte(f, ch))
  }

  function HeadersAlmostDoneByte(f: Fields, ch: char): Out {
    if ch != LF then Quiet(Fail(f, Strict))
    else if f.flags.trailing then FinishMessage(f, false)
    else
      var g := f.(state := HeadersDone, upgrade := f.flags.upgrade || f.verb == CONNECT);
      var o := HeadersDoneByte(g, ch);
      o.(notes := [HeadersComplete] + o.notes)
  }

  function HeadersDoneByte(f: Fields, ch: char): Out {
    if ch != LF then Quiet(Fail(f, Strict))
    else
      var g := f.(nread := 0);
      if g.upgrade then FinishMessage(g, true)
      else if g.flags.chunked then Quiet(g.(state := ChunkSizeStart))
      else if g.contentLength == 0 then FinishMessage(g, false)
      else if g.contentLength != ULLONG_MAX then Quiet(g.(state := BodyIdentity))
      else FinishMessage(g, false)
  }

  // ----- bodies

  /** `n` bytes of an identity body at once. */
  function TakeBody(f: Fields, n: nat): Out
    requires n <= f.contentLength
  {
    var g := f.(contentLength := f.contentLength - n);
    if g.contentLength == 0 then FinishMessage(g.(state := MessageDone), false) else Quiet(g)
  }

  /** `n` bytes of chunk data at once. */
  function TakeChunk(f: Fields, n: nat): Fields
    requires n <= f.contentLength
  {
    var g := f.(contentLength := f.contentLength - n);
    if g.contentLength == 0 then g.(state := ChunkDataAlmostDone) else g
  }

  function ChunkSizeByte(f: Fields, ch: char): Fields {
    if ch == CR then f.(state := ChunkSizeAlmostDone)
    else if Unhex(ch) == -1 then
      if ch == ';' || ch == ' ' then f.(state := ChunkParameters) else Fail(f, InvalidChunkSize)
    else Accumulate(f, 16, Unhex(ch))
  }

  function ChunkByte(f: Fields, ch: char): Fields {
    match f.state
    case ChunkSizeStart =>
      if Unhex(ch) == -1 then Fail(f, InvalidChunkSize) else f.(contentLength := Unhex(ch), state := ChunkSize)
    case ChunkSize => ChunkSizeByte(f, ch)
    case ChunkParameters => if ch == CR then f.(state := ChunkSizeAlmostDone) else f
    case ChunkSizeAlmostDone =>
      if ch != LF then Fail(f, Strict)
      else if f.contentLength == 0 then
        f.(nread := 0, flags := f.flags.(trailing := true), state := HeaderFieldStart)
      else f.(nread := 0, state := ChunkData)
    case ChunkDataAlmostDone => Expect(f, ch, CR, ChunkDataDone, Strict)
    case _ => if ch != LF then Fail(f, Strict) else f.(nread := 0, state := ChunkSizeStart)
  }

  // ----- one byte

  /** The states whose byte changes only the request line or a header in progress. */
  function LineByte(f: Fields, ch: char): Fields {
    match f.state
    case ReqMethod => MethodByte(f, ch)
    case SpacesBeforeUrl => SpaceByte(f, ch)
    case HttpStart =>
      if ch == ' ' then f else Expect(f, ch, 'H', HttpH, InvalidConstant)
    case HttpH => Expect(f, ch, 'T', HttpHT, Strict)
    case HttpHT => Expect(f, ch, 'T', HttpHTT, Strict)
    case HttpHTT => Expect(f, ch, 'P', HttpHTTP, Strict)
    case HttpHTTP => Expect(f, ch, '/', FirstMajor, Strict)
    case FirstMajor => VersionByte(f, ch)
    case Major => VersionByte(f, ch)
    case FirstMinor => VersionByte(f, ch)
    case Minor => VersionByte(f, ch)
    case ReqLineAlmostDone => Expect(f, ch, LF, HeaderFieldStart, LfExpected)
    case HeaderField => FieldByte(f, ch)
    case HeaderValueStart => ValueStartByte(f, ch)
    case HeaderValue => ValueByte(f, ch)
    case HeaderAlmostDone => AlmostDoneByte(f, ch)
    case _ => UrlByte(f, ch)
  }

  predicate LineState(s: State) {
    || UrlState(s) || s.ReqMethod? || s.SpacesBeforeUrl?
    || s.HttpStart? || s.HttpH? || s.HttpHT? || s.HttpHTT? || s.HttpHTTP?
    || s.FirstMajor? || s.Major? || s.FirstMinor? || s.Minor? || s.ReqLineAlmostDone?
    || s.HeaderField? || s.HeaderValueStart? || s.HeaderValue? || s.HeaderAlmostDone?
  }

  predicate ChunkState(s: State) {
    || s.ChunkSizeStart? || s.ChunkSize? || s.ChunkParameters? || s.ChunkSizeAlmostDone?
    || s.ChunkDataAlmostDone? || s.ChunkDataDone?
  }

  predicate BodyState(s: State) { s.BodyIdentity? || s.ChunkData? }

  /** The `switch` of `http_parser_execute`, outside the two states that consume body data. */
  function Control(f: Fields, ch: char): Out {
    if LineState(f.state) then Quiet(LineByte(f, ch))
    else if ChunkState(f.state) then Quiet(ChunkByte(f, ch))
    else match f.state
      case Dead => Quiet(if ch == CR || ch == LF then f else Fail(f, ClosedConnection))
      case StartReq => StartByte(f, ch)
      case HeaderFieldStart => HeaderFieldStartByte(f, ch)
      case HeaderValueLws =>
        if ch == ' ' || ch == '\t' then Quiet(f.(state := HeaderValueStart))
        else HeaderFieldStartByte(f.(state := HeaderFieldStart), ch)
      case HeadersAlmostDone => HeadersAlmostDoneByte(f, ch)
      case HeadersDone => HeadersDoneByte(f, ch)
      case _ => FinishMessage(f, false)
  }

  /** Counting the byte towards the header limit. */
  function Counted(f: Fields): Fields {
    if ParsingHeader(f.state) then
      var g := f.(nread := (f.nread + 1) % 0x1_0000_0000);
      if g.nread > MAX_HEADER_SIZE then Fail(g, HeaderOverflow) else g
    else f
  }

  /** The data a byte contributes, judged by the state it leads to. */
  function DataOf(s: State, ch: char): seq<Event> {
    if UrlState(s) then [Data(Url, ch)]
    else if s.HeaderField? then [Data(Field, ch)]
    else if s.HeaderValue? then [Data(Value, ch)]
    else []
  }

  /** One byte, with its contribution to the trace. */
  function Step(f: Fields, ch: char): Stepped<Fields, Event> {
    var g := Counted(f);
    if g.errno != Ok then Stepped(g, [], Reject)
    else if g.state.BodyIdentity? then
      if g.contentLength == 0 then Stepped(g, [], Reject)
      else
        var o := TakeBody(g, 1);
        Stepped(o.f, [Data(Body, ch)] + o.notes, Continue)
    else if g.state.ChunkData? then
      if g.contentLength == 0 then Stepped(g, [], Reject)
      else Stepped(TakeChunk(g, 1), [Data(Body, ch)], Continue)
    else
      var o := Control(g, ch);
      if o.f.errno != Ok then Stepped(o.f, o.notes, Reject)
      else Stepped(o.f, DataOf(o.f.state, ch) + o.notes, if o.exit then Exit else Continue)
  }

  /** A stream, byte by byte. A parser that has failed consumes nothing. */
  function Run(f: Fields, s: string): Result<Fields, Event> {
    if f.errno != Ok then Result(f, [], 0, true) else Fold(Step, f, s)
  }
}
