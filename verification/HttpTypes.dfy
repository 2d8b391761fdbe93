/**
 The vocabulary of the HTTP/1.x request parser: its states, its fields and its character classes,
 in strict mode and for requests only. A byte of the stream is a `char`; every character from 128 up
 behaves alike, so the bytes 128..255 need no separate treatment.
 */
module HttpTypes {
  import opened Numbers

  const CR := '\r'
  const LF := '\n'
  const MAX_HEADER_SIZE: nat := 80 * 1024

  datatype Method =
    | DELETE | GET | HEAD | POST | PUT | CONNECT | OPTIONS | TRACE
    | COPY | LOCK | MKCOL | MOVE | PROPFIND | PROPPATCH | SEARCH | UNLOCK
    | REPORT | MKACTIVITY | CHECKOUT | MERGE
    | MSEARCH | NOTIFY | SUBSCRIBE | UNSUBSCRIBE
    | PATCH | PURGE

  function MethodName(m: Method): string {
    match m
    case DELETE => "DELETE"
    case GET => "GET"
    case HEAD => "HEAD"
    case POST => "POST"
    case PUT => "PUT"
    case CONNECT => "CONNECT"
    case OPTIONS => "OPTIONS"
    case TRACE => "TRACE"
    case COPY => "COPY"
    case LOCK => "LOCK"
    case MKCOL => "MKCOL"
    case MOVE => "MOVE"
    case PROPFIND => "PROPFIND"
    case PROPPATCH => "PROPPATCH"
    case SEARCH => "SEARCH"
    case UNLOCK => "UNLOCK"
    case REPORT => "REPORT"
    case MKACTIVITY => "MKACTIVITY"
    case CHECKOUT => "CHECKOUT"
    case MERGE => "MERGE"
    case MSEARCH => "M-SEARCH"
    case NOTIFY => "NOTIFY"
    case SUBSCRIBE => "SUBSCRIBE"
    case UNSUBSCRIBE => "UNSUBSCRIBE"
    case PATCH => "PATCH"
    case PURGE => "PURGE"
  }

  datatype State =
    | Dead
    | StartReq
    | ReqMethod
    | SpacesBeforeUrl
    | Schema | SchemaSlash | SchemaSlashSlash
    | ServerStart | Server | ServerWithAt
    | Path | QueryStringStart | QueryString | FragmentStart | Fragment
    | HttpStart | HttpH | HttpHT | HttpHTT | HttpHTTP
    | FirstMajor | Major | FirstMinor | Minor
    | ReqLineAlmostDone
    | HeaderFieldStart | HeaderField
    | HeaderValueStart | HeaderValue | HeaderValueLws
    | HeaderAlmostDone
    | ChunkSizeStart | ChunkSize | ChunkParameters | ChunkSizeAlmostDone
    | HeadersAlmostDone | HeadersDone
    | ChunkData | ChunkDataAlmostDone | ChunkDataDone
    | BodyIdentity
    | MessageDone

  /** The states whose bytes count towards the header limit. */
  predicate ParsingHeader(s: State) {
    !(s.ChunkData? || s.ChunkDataAlmostDone? || s.ChunkDataDone? || s.BodyIdentity? || s.MessageDone?)
  }

  predicate UrlState(s: State) {
    || s.Schema? || s.SchemaSlash? || s.SchemaSlashSlash?
    || s.ServerStart? || s.Server? || s.ServerWithAt?
    || s.Path? || s.QueryStringStart? || s.QueryString? || s.FragmentStart? || s.Fragment?
  }

  datatype HeaderState =
    | General
    | C | CO | CON
    | MatchingConnection | MatchingProxyConnection | MatchingContentLength
    | MatchingTransferEncoding | MatchingUpgrade
    | Connection | ContentLength | TransferEncoding | Upgrade
    | MatchingChunked | MatchingKeepAlive | MatchingClose
    | ChunkedValue | KeepAliveValue | CloseValue

  const CONNECTION := "connection"
  const PROXY_CONNECTION := "proxy-connection"
  const CONTENT_LENGTH := "content-length"
  const TRANSFER_ENCODING := "transfer-encoding"
  const UPGRADE := "upgrade"
  const CHUNKED := "chunked"
  const KEEP_ALIVE := "keep-alive"
  const CLOSE := "close"

  datatype Errno =
    | Ok
    | InvalidEofState | HeaderOverflow | ClosedConnection | InvalidVersion
    | InvalidMethod | InvalidUrl | LfExpected | InvalidHeaderToken
    | InvalidContentLength | InvalidChunkSize | InvalidConstant | Strict

  datatype Flags = Flags(chunked: bool, keepAlive: bool, close: bool, trailing: bool, upgrade: bool)

  const NO_FLAGS := Flags(false, false, false, false, false)

  /** The fields of `struct http_parser`. */
  datatype Fields = Fields(
    state: State, headerState: HeaderState, index: nat, nread: nat, contentLength: nat,
    flags: Flags, major: nat, minor: nat, verb: Method, errno: Errno, upgrade: bool)

  /** `http_parser_init(parser, HTTP_REQUEST)`: everything zero, ready for a request. */
  const INIT := Fields(StartReq, General, 0, 0, 0, NO_FLAGS, 0, 0, DELETE, Ok, false)

  // ----- character classes

  function Lower(c: char): char {
    if c as int < 256 && (c as int / 32) % 2 == 0 then (c as int + 32) as char else c
  }

  predicate IsAlpha(c: char) { 'a' <= c <= 'z' || 'A' <= c <= 'Z' }

  predicate IsUserinfoChar(c: char) {
    || IsAlpha(c) || IsNum(c)
    || c == '-' || c == '_' || c == '.' || c == '!' || c == '~' || c == '*' || c == '\'' || c == '(' || c == ')'
    || c == '%' || c == ';' || c == ':' || c == '&' || c == '=' || c == '+' || c == '$' || c == ','
  }

  predicate IsUrlChar(c: char) { '!' <= c <= '~' && c != '#' && c != '?' }

  predicate IsToken(c: char) {
    || IsAlpha(c) || IsNum(c)
    || c == '!' || c == '#' || c == '$' || c == '%' || c == '&' || c == '\'' || c == '*' || c == '+'
    || c == '-' || c == '.' || c == '^' || c == '_' || c == '`' || c == '|' || c == '~'
  }

  /** The `tokens` table: a token character in lower case. */
  function TokenLower(c: char): char {
    if 'A' <= c <= 'Z' then (c as int + 32) as char else c
  }

  /** The `unhex` table, -1 for "not a digit". Its last 128 entries have no initialiser, so they are 0. */
  function Unhex(c: char): int {
    if IsNum(c) then c as int - '0' as int
    else if 'a' <= c <= 'f' then c as int - 'a' as int + 10
    else if 'A' <= c <= 'F' then c as int - 'A' as int + 10
    else if c as int < 128 then -1
    else 0
  }

  // ----- what the embedder sees

  datatype Kind = Url | Field | Value | Body

  /** The observable trace, one event per byte of data. */
  datatype Event = Begin | HeadersComplete | Complete | Data(kind: Kind, byte: char)

  /** `s` as data bytes of kind `k`. */
  function Bytes(k: Kind, s: string): (es: seq<Event>)
    ensures |es| == |s|
    ensures forall i :: 0 <= i < |s| ==> es[i] == Data(k, s[i])
  {
    seq(|s|, i requires 0 <= i < |s| => Data(k, s[i]))
  }
}
