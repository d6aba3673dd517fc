/** The data the request parser works on: states, flags, errors and callbacks. */
module HttpTypes {
  import opened Bytes

  const HTTP_MAX_HEADER_SIZE: nat := 80 * 1024

  datatype State =
    | Dead | StartReq | ReqMethod | SpacesBeforeUrl
    | Schema | SchemaSlash | SchemaSlashSlash
    | ServerStart | Server | ServerWithAt
    | Path | QueryStart | Query | FragmentStart | Fragment
    | HttpStart | HttpH | HttpHT | HttpHTT | HttpHTTP
    | FirstMajor | Major | FirstMinor | Minor | LineAlmostDone
    | FieldStart | Field | DiscardWs | DiscardWsAlmostDone | DiscardLws
    | ValueStart | Value | ValueLws | HeaderAlmostDone
    | ChunkSizeStart | ChunkSize | ChunkParameters | ChunkSizeAlmostDone
    | HeadersAlmostDone | HeadersDone
    | ChunkData | ChunkDataAlmostDone | ChunkDataDone
    | BodyIdentity | MessageDone

  datatype HeaderState =
    | HGeneral | HC | HCO | HCON
    | HMatchingConnection | HMatchingProxyConnection | HMatchingContentLength
    | HMatchingTransferEncoding | HMatchingUpgrade
    | HConnection | HContentLength | HTransferEncoding | HUpgrade
    | HMatchingChunked | HTokenStart | HMatchingKeepAlive | HMatchingClose
    | HMatchingConnUpgrade | HToken
    | HChunked | HKeepAlive | HClose | HConnUpgrade

  datatype Errno =
    | Ok | InvalidEofState | HeaderOverflow | ClosedConnection | InvalidVersion
    | InvalidMethod | InvalidUrl | LfExpected | InvalidHeaderToken
    | InvalidContentLength | UnexpectedContentLength | InvalidChunkSize
    | InvalidConstant | Strict

  datatype Method =
    | DELETE | GET | HEAD | POST | PUT | CONNECT | OPTIONS | TRACE
    | COPY | LOCK | MKCOL | MOVE | PROPFIND | PROPPATCH | SEARCH | UNLOCK
    | BIND | REBIND | UNBIND | ACL | REPORT | MKACTIVITY | CHECKOUT | MERGE
    | MSEARCH | NOTIFY | SUBSCRIBE | UNSUBSCRIBE | PATCH | PURGE | MKCALENDAR
    | LINK | UNLINK

  datatype Flags = Flags(chunked: bool, keepAlive: bool, close: bool, connUpgrade: bool,
                         trailing: bool, upgrade: bool, contentLength: bool)

  const NoFlags := Flags(false, false, false, false, false, false, false)

  /** The fields of an HTTP_REQUEST parser object. */
  datatype Parser = Parser(
    state: State, headerState: HeaderState, index: nat, nread: nat, contentLength: nat,
    flags: Flags, verb: Method, major: nat, minor: nat, errno: Errno, upgrade: bool,
    lenient: bool)

  /** A parser as http_parser_init leaves it (all fields zero but the state). */
  const InitialParser :=
    Parser(StartReq, HGeneral, 0, 0, 0, NoFlags, DELETE, 0, 0, Ok, false, false)

  datatype Kind = Url | HeaderField | HeaderValue | Body

  datatype Notice = MessageBegin | HeadersComplete | MessageComplete | ChunkHeader | ChunkComplete

  /** One invocation of a user callback. */
  datatype Call = Notify(notice: Notice) | Data(kind: Kind, text: seq<byte>)

  /** The states up to and including s_headers_done, whose bytes are counted. */
  predicate ParsingHeader(s: State) {
    !s.ChunkData? && !s.ChunkDataAlmostDone? && !s.ChunkDataDone? && !s.BodyIdentity? && !s.MessageDone?
  }

  predicate IsUrlState(s: State) {
    s.Schema? || s.SchemaSlash? || s.SchemaSlashSlash? || s.ServerStart? || s.Server? || s.ServerWithAt? ||
    s.Path? || s.QueryStart? || s.Query? || s.FragmentStart? || s.Fragment?
  }

  /** The spelling of a method on the request line. */
  function Name(m: Method): string {
    match m
    case DELETE => "DELETE" case GET => "GET" case HEAD => "HEAD" case POST => "POST"
    case PUT => "PUT" case CONNECT => "CONNECT" case OPTIONS => "OPTIONS" case TRACE => "TRACE"
    case COPY => "COPY" case LOCK => "LOCK" case MKCOL => "MKCOL" case MOVE => "MOVE"
    case PROPFIND => "PROPFIND" case PROPPATCH => "PROPPATCH" case SEARCH => "SEARCH"
    case UNLOCK => "UNLOCK" case BIND => "BIND" case REBIND => "REBIND" case UNBIND => "UNBIND"
    case ACL => "ACL" case REPORT => "REPORT" case MKACTIVITY => "MKACTIVITY"
    case CHECKOUT => "CHECKOUT" case MERGE => "MERGE" case MSEARCH => "M-SEARCH"
    case NOTIFY => "NOTIFY" case SUBSCRIBE => "SUBSCRIBE" case UNSUBSCRIBE => "UNSUBSCRIBE"
    case PATCH => "PATCH" case PURGE => "PURGE" case MKCALENDAR => "MKCALENDAR"
    case LINK => "LINK" case UNLINK => "UNLINK"
  }

  /** A C string's character at index i; the terminator is 0. */
  function CharAt(s: string, i: nat): int {
    if i < |s| then s[i] as int else 0
  }

  // Character classes (strict mode)

  /** LOWER(c): sets bit 5, whatever the character. */
  function Lower(c: byte): byte {
    if (c / 32) % 2 == 0 then c + 32 else c
  }

  /** tokens[c]: 0 for a byte no header name may hold, else its lower case. */
  function Token(c: byte): byte {
    if IsUpper(c) then c + 32
    else if IsLower(c) || IsDigit(c) then c
    else if c == 33 || 35 <= c <= 39 || c == 42 || c == 43 || c == 45 || c == 46 ||
            94 <= c <= 96 || c == 124 || c == 126 then c
    else 0
  }

  predicate IsUrlChar(c: byte) { 33 <= c <= 126 && c != 35 && c != 63 }

  predicate IsUserinfoChar(c: byte) {
    IsAlpha(c) || IsDigit(c) || c == 45 || c == 95 || c == 46 || c == 33 || c == 126 || c == 42 ||
    39 <= c <= 41 || c == 37 || c == 59 || c == 58 || c == 38 || c == 61 || c == 43 || c == 36 || c == 44
  }

  predicate IsHeaderChar(c: byte) { c == CR || c == LF || c == TAB || (c > 31 && c != 127) }

  /** unhex[c]: only the first 128 entries are listed in the table, so C leaves
      0 (not -1) in the others. */
  function Unhex(c: byte): (v: int)
    ensures -1 <= v < 16
  {
    if IsDigit(c) then c - 48
    else if 65 <= c <= 70 then c - 55
    else if 97 <= c <= 102 then c - 87
    else if c < 128 then -1
    else 0
  }
}
