/** The request parser one byte at a time.

    An `Act` is what one byte does outside the inner loops: the fields it leaves, and
    its calls in the order the source makes them: first a data callback, then the
    notifications, then a new mark. It never reads the header byte counter.

    A `Run` is a parser in the middle of one call: its fields, the callbacks made
    so far in the call, the open mark (which data callback is pending, with the
    bytes already seen for it), and the local variables of the two inner loops:
    `inner` is p - start, `skip` the distance travelled by the memchr skip and `hs`
    the local copy of the header state. Inner-loop bytes are charged to `nread`
    only when the loop ends, exactly as COUNT_HEADER_SIZE(p - start) does. */
module HttpMachine {
  import opened Bytes
  import opened HttpTypes

  /** Why a call leaves its loop before the last byte. */
  datatype Halt = Running | Failed | Upgraded

  /** CALLBACK_DATA for one kind: a pending mark, a pending mark including the byte
      itself, or MARK followed by the callback (an empty text if none was pending). */
  datatype Flush = NoFlush | Pending(kind: Kind) | Through(kind: Kind) | Forced(kind: Kind)

  datatype Marking = NoMarking | Marking(kind: Kind)

  datatype Act = Act(p: Parser, flush: Flush, notices: seq<Notice>, mark: Marking,
                     reset: bool, halt: Halt)

  function Go(p: Parser): Act { Act(p, NoFlush, [], NoMarking, false, Running) }

  function To(p: Parser, s: State): Act { Go(p.(state := s)) }

  function Fail(p: Parser, e: Errno): Act {
    Act(p.(errno := e), NoFlush, [], NoMarking, false, Failed)
  }

  /** STRICT_CHECK(!ok), then a state change. */
  function Strictly(ok: bool, p: Parser, s: State): Act {
    if ok then To(p, s) else Fail(p, Strict)
  }

  /** parser->index is a 7-bit field. */
  function NextIndex(i: nat): nat { (i + 1) % 128 }

  /** http_should_keep_alive; a request never needs an end of file. */
  predicate Persists(major: nat, minor: nat, flags: Flags) {
    if major > 0 && minor > 0 then !flags.close else flags.keepAlive
  }

  function ShouldKeepAlive(p: Parser): bool { Persists(p.major, p.minor, p.flags) }

  /** NEW_MESSAGE() of strict mode. */
  function NewMessage(p: Parser): State {
    if ShouldKeepAlive(p) then StartReq else Dead
  }

  // Request line

  function FirstMethod(c: byte): (m: Method)
    requires HasMethod(c)
  {
    if c == 65 then ACL else if c == 66 then BIND else if c == 67 then CONNECT
    else if c == 68 then DELETE else if c == 71 then GET else if c == 72 then HEAD
    else if c == 76 then LOCK else if c == 77 then MKCOL else if c == 78 then NOTIFY
    else if c == 79 then OPTIONS else if c == 80 then POST else if c == 82 then REPORT
    else if c == 83 then SUBSCRIBE else if c == 84 then TRACE else UNLOCK
  }

  predicate HasMethod(c: byte) {
    65 <= c <= 68 || c == 71 || c == 72 || 76 <= c <= 80 || 82 <= c <= 85
  }

  /** The table that turns one method into another as letters arrive. */
  function Reroute(m: Method, i: nat, c: byte): Method {
    match m
    case POST => if i == 1 && c == 85 then PUT else if i == 1 && c == 65 then PATCH
                 else if i == 1 && c == 82 then PROPFIND else m
    case CONNECT => if i == 1 && c == 72 then CHECKOUT else if i == 2 && c == 80 then COPY else m
    case MKCOL => if i == 1 && c == 79 then MOVE else if i == 1 && c == 69 then MERGE
                  else if i == 2 && c == 65 then MKACTIVITY
                  else if i == 3 && c == 65 then MKCALENDAR else m
    case SUBSCRIBE => if i == 1 && c == 69 then SEARCH else m
    case REPORT => if i == 2 && c == 66 then REBIND else m
    case PROPFIND => if i == 4 && c == 80 then PROPPATCH else m
    case PUT => if i == 2 && c == 82 then PURGE else m
    case LOCK => if i == 1 && c == 73 then LINK else m
    case UNLOCK => if i == 2 && c == 83 then UNSUBSCRIBE else if i == 2 && c == 66 then UNBIND
                   else if i == 3 && c == 73 then UNLINK else m
    case _ => m
  }

  function AtStart(p: Parser, c: byte): Act {
    var p1 := p.(flags := NoFlags, contentLength := ULLONG_MAX);
    if c == CR || c == LF then Go(p)
    else if !IsAlpha(c) then Fail(p1, InvalidMethod)
    else if !HasMethod(c) then Fail(p1.(verb := DELETE, index := 1), InvalidMethod)
    else Go(p1.(verb := FirstMethod(c), index := 1, state := ReqMethod)).(notices := [MessageBegin])
  }

  function AtMethod(p: Parser, c: byte): Act {
    var next := p.(index := NextIndex(p.index));
    var m := Reroute(p.verb, p.index, c);
    if c == NUL then Fail(p, InvalidMethod)
    else if c == SPACE && CharAt(Name(p.verb), p.index) == 0 then To(next, SpacesBeforeUrl)
    else if c == CharAt(Name(p.verb), p.index) then Go(next)
    else if IsAlpha(c) then if m == p.verb then Fail(p, InvalidMethod) else Go(next.(verb := m))
    else if c == 45 && p.index == 1 && p.verb.MKCOL? then Go(next.(verb := MSEARCH))
    else Fail(p, InvalidMethod)
  }

  /** parse_url_char: Dead when the character may not follow. */
  function UrlNext(s: State, c: byte): State {
    if c == SPACE || c == CR || c == LF || c == TAB || c == 12 then Dead
    else match s
      case SpacesBeforeUrl => if c == 47 || c == 42 then Path else if IsAlpha(c) then Schema else Dead
      case Schema => if IsAlpha(c) then Schema else if c == 58 then SchemaSlash else Dead
      case SchemaSlash => if c == 47 then SchemaSlashSlash else Dead
      case SchemaSlashSlash => if c == 47 then ServerStart else Dead
      case ServerWithAt => if c == 64 then Dead else ServerNext(c)
      case ServerStart => ServerNext(c)
      case Server => ServerNext(c)
      case Path => if IsUrlChar(c) then Path else if c == 63 then QueryStart
                   else if c == 35 then FragmentStart else Dead
      case QueryStart => QueryNext(c)
      case Query => QueryNext(c)
      case FragmentStart => if IsUrlChar(c) || c == 63 then Fragment
                            else if c == 35 then FragmentStart else Dead
      case Fragment => if IsUrlChar(c) || c == 63 || c == 35 then Fragment else Dead
      case _ => Dead
  }

  function ServerNext(c: byte): State {
    if c == 47 then Path else if c == 63 then QueryStart else if c == 64 then ServerWithAt
    else if IsUserinfoChar(c) || c == 91 || c == 93 then Server else Dead
  }

  function QueryNext(c: byte): State {
    if IsUrlChar(c) || c == 63 then Query else if c == 35 then FragmentStart else Dead
  }

  function AdvanceUrl(p: Parser, c: byte): Act {
    var s := UrlNext(p.state, c);
    if s.Dead? then Fail(p.(state := s), InvalidUrl) else To(p, s)
  }

  function AtSpaces(p: Parser, c: byte): Act {
    if c == SPACE then Go(p)
    else AdvanceUrl(if p.verb.CONNECT? then p.(state := ServerStart) else p, c).(mark := Marking(Url))
  }

  /** The states in which no white space may follow. */
  predicate IsUrlHead(s: State) { s.Schema? || s.SchemaSlash? || s.SchemaSlashSlash? || s.ServerStart? }

  function AtUrl(p: Parser, c: byte): Act {
    if c != SPACE && c != CR && c != LF then AdvanceUrl(p, c)
    else if IsUrlHead(p.state) then Fail(p, InvalidUrl)
    else if c == SPACE then To(p, HttpStart).(flush := Pending(Url))
    else To(p.(major := 0, minor := 9), if c == CR then LineAlmostDone else FieldStart).(flush := Pending(Url))
  }

  /** The literal "HTTP/". */
  function AtHttp(p: Parser, c: byte): Act {
    match p.state
    case HttpStart => if c == 72 then To(p, HttpH) else if c == SPACE then Go(p) else Fail(p, InvalidConstant)
    case HttpH => Strictly(c == 84, p, HttpHT)
    case HttpHT => Strictly(c == 84, p, HttpHTT)
    case HttpHTT => Strictly(c == 80, p, HttpHTTP)
    case _ => Strictly(c == 47, p, FirstMajor)
  }

  /** The version number and the end of the request line. */
  function AtNumber(p: Parser, c: byte): Act {
    match p.state
    case FirstMajor =>
      if c < 49 || c > 57 then Fail(p, InvalidVersion) else To(p.(major := c - 48), Major)
    case Major =>
      if c == 46 then To(p, FirstMinor)
      else if !IsDigit(c) then Fail(p, InvalidVersion)
      else
        var q := p.(major := p.major * 10 + (c - 48));
        if q.major > 999 then Fail(q, InvalidVersion) else Go(q)
    case FirstMinor =>
      if !IsDigit(c) then Fail(p, InvalidVersion) else To(p.(minor := c - 48), Minor)
    case Minor =>
      if c == CR then To(p, LineAlmostDone)
      else if c == LF then To(p, FieldStart)
      else if !IsDigit(c) then Fail(p, InvalidVersion)
      else
        var q := p.(minor := p.minor * 10 + (c - 48));
        if q.minor > 999 then Fail(q, InvalidVersion) else Go(q)
    case _ => if c != LF then Fail(p, LfExpected) else To(p, FieldStart)
  }

  predicate IsHttpState(s: State) { s.HttpStart? || s.HttpH? || s.HttpHT? || s.HttpHTT? || s.HttpHTTP? }

  predicate IsNumberState(s: State) {
    s.FirstMajor? || s.Major? || s.FirstMinor? || s.Minor? || s.LineAlmostDone?
  }

  // End of message and end of headers

  function AtMessageDone(p: Parser): Act {
    To(p, NewMessage(p)).(notices := [MessageComplete], halt := if p.upgrade then Upgraded else Running)
  }

  function AtHeadersDone(p: Parser, c: byte): Act {
    if c != LF then Fail(p, Strict)
    else
      var hasBody := p.flags.chunked || (p.contentLength > 0 && p.contentLength != ULLONG_MAX);
      var ended := To(p, NewMessage(p)).(notices := [MessageComplete], reset := true);
      if p.upgrade && (p.verb.CONNECT? || !hasBody) then ended.(halt := Upgraded)
      else if p.flags.chunked then To(p, ChunkSizeStart).(reset := true)
      else if p.contentLength == 0 || p.contentLength == ULLONG_MAX then ended
      else To(p, BodyIdentity).(reset := true)
  }

  function AtHeadersAlmostDone(p: Parser, c: byte): Act {
    if c != LF then Fail(p, Strict)
    else if p.flags.trailing then
      var done := AtMessageDone(p.(state := MessageDone));
      done.(notices := [ChunkComplete] + done.notices)
    else if p.flags.chunked && p.flags.contentLength then Fail(p, UnexpectedContentLength)
    else
      var upgrade := (p.flags.upgrade && p.flags.connUpgrade) || p.verb.CONNECT?;
      var done := AtHeadersDone(p.(state := HeadersDone, upgrade := upgrade), c);
      done.(notices := [HeadersComplete] + done.notices)
  }

  // Header fields

  function FirstLetter(t: byte): HeaderState {
    if t == 99 then HC
    else if t == 112 then HMatchingProxyConnection
    else if t == 116 then HMatchingTransferEncoding
    else if t == 117 then HMatchingUpgrade
    else HGeneral
  }

  function AtFieldStart(p: Parser, c: byte): Act {
    if c == CR then To(p, HeadersAlmostDone)
    else if c == LF then AtHeadersAlmostDone(p.(state := HeadersAlmostDone), c)
    else if Token(c) == 0 then Fail(p, InvalidHeaderToken)
    else To(p.(index := 0, headerState := FirstLetter(Token(c))), Field).(mark := Marking(HeaderField))
  }

  /** One more character compared with a literal: i is the index already advanced. */
  function Compare(literal: string, i: nat, c: byte, here: HeaderState,
                   done: HeaderState, fail: HeaderState): HeaderState {
    if i > |literal| || c != CharAt(literal, i) then fail
    else if i == |literal| - 1 then done
    else here
  }

  /** The header-name matcher on one token character (c is its lower case). */
  function MatchName(h: HeaderState, i: nat, ch: byte, c: byte): (HeaderState, nat) {
    var j := NextIndex(i);
    match h
    case HC => (if c == 111 then HCO else HGeneral, j)
    case HCO => (if c == 110 then HCON else HGeneral, j)
    case HCON => (if c == 110 then HMatchingConnection
                  else if c == 116 then HMatchingContentLength else HGeneral, j)
    case HMatchingConnection => (Compare("connection", j, c, h, HConnection, HGeneral), j)
    case HMatchingProxyConnection => (Compare("proxy-connection", j, c, h, HConnection, HGeneral), j)
    case HMatchingContentLength => (Compare("content-length", j, c, h, HContentLength, HGeneral), j)
    case HMatchingTransferEncoding => (Compare("transfer-encoding", j, c, h, HTransferEncoding, HGeneral), j)
    case HMatchingUpgrade => (Compare("upgrade", j, c, h, HUpgrade, HGeneral), j)
    case HConnection => (if ch != SPACE then HGeneral else h, i)
    case HContentLength => (if ch != SPACE then HGeneral else h, i)
    case HTransferEncoding => (if ch != SPACE then HGeneral else h, i)
    case HUpgrade => (if ch != SPACE then HGeneral else h, i)
    case _ => (h, i)
  }

  // Header values

  function AtValueStart(p: Parser, ch: byte): Act {
    var q := p.(state := Value, index := 0);
    var c := Lower(ch);
    var act := match q.headerState
      case HUpgrade => Go(q.(flags := q.flags.(upgrade := true), headerState := HGeneral))
      case HTransferEncoding => Go(q.(headerState := if c == 99 then HMatchingChunked else HGeneral))
      case HContentLength =>
        if !IsDigit(ch) then Fail(q, InvalidContentLength)
        else if q.flags.contentLength then Fail(q, UnexpectedContentLength)
        else Go(q.(flags := q.flags.(contentLength := true), contentLength := ch - 48))
      case HConnection =>
        Go(q.(headerState := if c == 107 then HMatchingKeepAlive else if c == 99 then HMatchingClose
                             else if c == 117 then HMatchingConnUpgrade else HToken))
      case HTokenStart => Go(q)
      case _ => Go(q.(headerState := HGeneral));
    act.(mark := Marking(HeaderValue))
  }

  /** The value matcher on one character under the local header state h. */
  function MatchValue(p: Parser, h: HeaderState, ch: byte): (Parser, HeaderState) {
    var c := Lower(ch);
    var j := NextIndex(p.index);
    match h
    case HMatchingChunked => (p.(index := j), Compare("chunked", j, c, h, HChunked, HGeneral))
    case HTokenStart =>
      (p, if c == 107 then HMatchingKeepAlive else if c == 99 then HMatchingClose
          else if c == 117 then HMatchingConnUpgrade else if Token(c) != 0 then HToken
          else if c == SPACE || c == TAB then h else HGeneral)
    case HMatchingKeepAlive => (p.(index := j), Compare("keep-alive", j, c, h, HKeepAlive, HToken))
    case HMatchingClose => (p.(index := j), Compare("close", j, c, h, HClose, HToken))
    case HMatchingConnUpgrade => (p.(index := j), Compare("upgrade", j, c, h, HConnUpgrade, HToken))
    case HToken => if ch == 44 then (p.(index := 0), HTokenStart) else (p, h)
    case HChunked => (p, if ch != SPACE then HGeneral else h)
    case HKeepAlive => AfterToken(p, p.flags.(keepAlive := true), h, ch)
    case HClose => AfterToken(p, p.flags.(close := true), h, ch)
    case HConnUpgrade => AfterToken(p, p.flags.(connUpgrade := true), h, ch)
    case _ => (p.(state := Value), HGeneral)
  }

  function AfterToken(p: Parser, f: Flags, h: HeaderState, ch: byte): (Parser, HeaderState) {
    if ch == 44 then (p.(flags := f, index := 0), HTokenStart)
    else (p, if ch != SPACE then HToken else h)
  }

  function AtHeaderAlmostDone(p: Parser, c: byte): Act {
    if c != LF then Fail(p, LfExpected) else To(p, ValueLws)
  }

  /** The flags a finished header value sets. */
  function FinishedFlags(h: HeaderState, f: Flags): Flags {
    match h
    case HKeepAlive => f.(keepAlive := true)
    case HClose => f.(close := true)
    case HChunked => f.(chunked := true)
    case HConnUpgrade => f.(connUpgrade := true)
    case _ => f
  }

  function AtValueLws(p: Parser, c: byte): Act {
    if c == SPACE || c == TAB then AtValueStart(p.(state := ValueStart), c)
    else AtFieldStart(p.(flags := FinishedFlags(p.headerState, p.flags), state := FieldStart), c)
  }

  function AtDiscardLws(p: Parser, c: byte): Act {
    if c == SPACE || c == TAB then To(p, DiscardWs)
    else
      AtFieldStart(p.(flags := FinishedFlags(p.headerState, p.flags), state := FieldStart), c)
        .(flush := Forced(HeaderValue))
  }

  function AtDiscardWs(p: Parser, c: byte): Act {
    if c == SPACE || c == TAB then Go(p)
    else if c == CR then To(p, DiscardWsAlmostDone)
    else if c == LF then To(p, DiscardLws)
    else AtValueStart(p, c)
  }

  // Bodies

  function LessOne(n: nat): nat { if n == 0 then 0 else n - 1 }

  /** One byte of a body that the source reads whole, MIN(content_length, rest) bytes at a time. */
  function AtBodyIdentity(p: Parser): Act {
    var q := p.(contentLength := LessOne(p.contentLength));
    if q.contentLength == 0 then AtMessageDone(q.(state := MessageDone)).(flush := Through(Body))
    else Go(q).(mark := Marking(Body))
  }

  function AtChunkSizeStart(p: Parser, c: byte): Act {
    if Unhex(c) == -1 then Fail(p, InvalidChunkSize) else To(p.(contentLength := Unhex(c)), ChunkSize)
  }

  function AtChunkSize(p: Parser, c: byte): Act {
    if c == CR then To(p, ChunkSizeAlmostDone)
    else if Unhex(c) == -1 then
      if c == 59 || c == SPACE then To(p, ChunkParameters) else Fail(p, InvalidChunkSize)
    else if (ULLONG_MAX - 16) / 16 < p.contentLength then Fail(p, InvalidContentLength)
    else Go(p.(contentLength := (p.contentLength * 16 + Unhex(c)) % TWO_TO_64))
  }

  function AtChunkSizeAlmostDone(p: Parser, c: byte): Act {
    if c != LF then Fail(p, Strict)
    else
      (if p.contentLength == 0 then To(p.(flags := p.flags.(trailing := true)), FieldStart)
       else To(p, ChunkData)).(reset := true, notices := [ChunkHeader])
  }

  function AtChunkData(p: Parser): Act {
    var n := LessOne(p.contentLength);
    To(p.(contentLength := n), if n == 0 then ChunkDataAlmostDone else ChunkData).(mark := Marking(Body))
  }

  function AtChunk(p: Parser, c: byte): Act {
    match p.state
    case ChunkSizeStart => AtChunkSizeStart(p, c)
    case ChunkSize => AtChunkSize(p, c)
    case ChunkParameters => if c == CR then To(p, ChunkSizeAlmostDone) else Go(p)
    case ChunkSizeAlmostDone => AtChunkSizeAlmostDone(p, c)
    case ChunkData => AtChunkData(p)
    case ChunkDataAlmostDone => Strictly(c == CR, p, ChunkDataDone).(flush := if c == CR then Pending(Body) else NoFlush)
    case _ => if c != LF then Fail(p, Strict)
              else To(p, ChunkSizeStart).(reset := true, notices := [ChunkComplete])
  }

  predicate IsChunkState(s: State) {
    s.ChunkSizeStart? || s.ChunkSize? || s.ChunkParameters? || s.ChunkSizeAlmostDone? ||
    s.ChunkData? || s.ChunkDataAlmostDone? || s.ChunkDataDone?
  }

  // The switch, but for the two states that are loops

  function AtHeader(p: Parser, c: byte): Act {
    match p.state
    case FieldStart => AtFieldStart(p, c)
    case DiscardWs => AtDiscardWs(p, c)
    case DiscardWsAlmostDone => Strictly(c == LF, p, DiscardLws)
    case DiscardLws => AtDiscardLws(p, c)
    case ValueStart => AtValueStart(p, c)
    case ValueLws => AtValueLws(p, c)
    case HeaderAlmostDone => AtHeaderAlmostDone(p, c)
    case HeadersAlmostDone => AtHeadersAlmostDone(p, c)
    case _ => AtHeadersDone(p, c)
  }

  function Switch(p: Parser, c: byte): Act {
    match p.state
    case Dead => if c == CR || c == LF then Go(p) else Fail(p, ClosedConnection)
    case StartReq => AtStart(p, c)
    case ReqMethod => AtMethod(p, c)
    case SpacesBeforeUrl => AtSpaces(p, c)
    case BodyIdentity => AtBodyIdentity(p)
    case MessageDone => AtMessageDone(p)
    case s =>
      if IsUrlState(s) then AtUrl(p, c)
      else if IsHttpState(s) then AtHttp(p, c)
      else if IsNumberState(s) then AtNumber(p, c)
      else if IsChunkState(s) then AtChunk(p, c)
      else AtHeader(p, c)
  }

  // Runs

  datatype Mark = NoMark | Mark(kind: Kind, text: seq<byte>)

  /** `clash` records a MARK made while a mark of another kind was open: the source
      keeps one pointer per kind and relies on at most one being set. */
  datatype Run = Run(p: Parser, calls: seq<Call>, mark: Mark, clash: bool,
                     inner: nat, skip: nat, hs: HeaderState, halt: Halt, consumed: nat)

  function Fails(r: Run, e: Errno): Run { r.(p := r.p.(errno := e), halt := Failed) }

  /** COUNT_HEADER_SIZE(n). */
  function Charged(r: Run, n: nat): Run {
    var r1 := r.(p := r.p.(nread := r.p.nread + n));
    if r1.p.nread > HTTP_MAX_HEADER_SIZE then Fails(r1, HeaderOverflow) else r1
  }

  /** The callback a flush makes, if any, when byte c is being handled. */
  function FlushCalls(m: Mark, f: Flush, c: byte): seq<Call> {
    if f.NoFlush? then []
    else
      var here := m.Mark? && m.kind == f.kind;
      var text := if here then m.text else [];
      if f.Through? then [Data(f.kind, text + [c])]
      else if here || f.Forced? then [Data(f.kind, text)]
      else []
  }

  function FlushMark(m: Mark, f: Flush): Mark {
    if !f.NoFlush? && m.Mark? && m.kind == f.kind then NoMark else m
  }

  function Notices(notices: seq<Notice>): seq<Call> {
    seq(|notices|, i requires 0 <= i < |notices| => Notify(notices[i]))
  }

  function Perform(r: Run, act: Act, c: byte): Run {
    var m := FlushMark(r.mark, act.flush);
    var opens := act.mark.Marking? && m.NoMark?;
    r.(p := act.p.(nread := if act.reset then 0 else r.p.nread),
       calls := r.calls + (FlushCalls(r.mark, act.flush, c) + Notices(act.notices)),
       mark := if opens then Mark(act.mark.kind, []) else m,
       clash := r.clash || (act.mark.Marking? && m.Mark? && m.kind != act.mark.kind),
       halt := act.halt)
  }

  /** One byte of the s_header_field loop. */
  function InField(r: Run, ch: byte): Run {
    if Token(ch) != 0 then
      var (h, i) := MatchName(r.p.headerState, r.p.index, ch, Token(ch));
      r.(p := r.p.(headerState := h, index := i), inner := r.inner + 1)
    else
      var r1 := Charged(r, r.inner).(inner := 0);
      if !r1.halt.Running? then r1
      else Perform(r1, EndField(r1.p, ch), ch)
  }

  /** Leaving the field loop on a byte that is no token. */
  function EndField(p: Parser, ch: byte): Act {
    if ch == 58 then To(p, DiscardWs).(flush := Pending(HeaderField)) else Fail(p, InvalidHeaderToken)
  }

  /** Leaving the value loop on CR or LF. On LF the byte is looked at again in
      s_header_almost_done; an overflow is noticed before the callback on LF,
      after it on CR. */
  function EndValue(r: Run, ch: byte): Run {
    var r1 := Charged(r, r.inner);
    var act := To(r.p.(headerState := r.hs), if ch == CR then HeaderAlmostDone else ValueLws)
                 .(flush := Pending(HeaderValue));
    if r1.halt.Running? then Perform(r1.(inner := 0, skip := 0), act, ch)
    else if ch == CR then
      Fails(Perform(r1.(inner := 0, skip := 0), act, ch), HeaderOverflow)
    else r1.(p := r1.p.(state := HeaderAlmostDone))
  }

  /** One more character of a Content-Length value. */
  function InLength(r: Run, ch: byte): Run {
    if ch == SPACE then r.(inner := r.inner + 1)
    else if !IsDigit(ch) || (ULLONG_MAX - 10) / 10 < r.p.contentLength then
      Fails(r.(p := r.p.(headerState := r.hs)), InvalidContentLength)
    else
      var t := (r.p.contentLength * 10 + (ch - 48)) % TWO_TO_64;
      r.(p := r.p.(contentLength := t), inner := r.inner + 1)
  }

  /** One byte of the s_header_value loop. */
  function InValue(r: Run, ch: byte): Run {
    if 0 < r.skip && (r.skip >= HTTP_MAX_HEADER_SIZE || (ch != CR && ch != LF)) then
      r.(inner := r.inner + 1, skip := r.skip + 1)
    else if ch == CR || ch == LF then EndValue(r, ch)
    else if !r.p.lenient && !IsHeaderChar(ch) then Fails(r, InvalidHeaderToken)
    else if r.hs.HGeneral? then r.(inner := r.inner + 1, skip := 1)
    else if r.hs.HContentLength? then InLength(r, ch)
    else
      var (p, h) := MatchValue(r.p, r.hs, ch);
      r.(p := p, hs := h, inner := r.inner + 1)
  }

  /** One byte: a fresh turn of the outer loop, or one more of an inner loop. */
  function Turn(r: Run, c: byte): Run {
    var r1 := if r.inner == 0 && ParsingHeader(r.p.state) then Charged(r, 1) else r;
    if !r1.halt.Running? then r1
    else if r.p.state.Field? then InField(r1, c)
    else if r.p.state.Value? then InValue(if r.inner == 0 then r1.(hs := r.p.headerState) else r1, c)
    else Perform(r1, Switch(r1.p.(nread := 0), c), c)
  }

  function WithByte(r: Run, c: byte): Run {
    if r.mark.Mark? then r.(mark := Mark(r.mark.kind, r.mark.text + [c])) else r
  }

  /** A turn, plus moving p past the byte unless the parser failed on it. */
  function Step(r: Run, c: byte): Run {
    var r1 := Turn(r, c);
    if r1.halt.Failed? then r1 else WithByte(r1, c).(consumed := r1.consumed + 1)
  }

  function Feed(r: Run, data: seq<byte>): Run
    decreases |data|
  {
    if data == [] || !r.halt.Running? then r else Feed(Step(r, data[0]), data[1..])
  }

  // One call of http_parser_execute

  function OpenMark(s: State): Mark {
    if s.Field? then Mark(HeaderField, [])
    else if s.Value? then Mark(HeaderValue, [])
    else if IsUrlState(s) then Mark(Url, [])
    else NoMark
  }

  function Begin(p: Parser): Run {
    Run(p, [], OpenMark(p.state), false, 0, 0, p.headerState, Running, 0)
  }

  /** Leaving the loop at the end of the data. */
  function Finish(r: Run): Run {
    if !r.halt.Running? then r
    else
      var r1 := if 0 < r.inner
                then Charged(if r.p.state.Value? then r.(p := r.p.(headerState := r.hs)) else r, r.inner)
                else r;
      if !r1.halt.Running? || r1.mark.NoMark? then r1
      else r1.(calls := r1.calls + [Data(r1.mark.kind, r1.mark.text)], mark := NoMark)
  }

  datatype Outcome = Outcome(p: Parser, calls: seq<Call>, consumed: nat)

  function Execute(p: Parser, data: seq<byte>): Outcome {
    if !p.errno.Ok? then Outcome(p, [], 0)
    else if data == [] then
      if p.state.Dead? || p.state.StartReq? then Outcome(p, [], 0)
      else Outcome(p.(errno := InvalidEofState), [], 1)
    else
      var r := Finish(Feed(Begin(p), data));
      Outcome(r.p, r.calls, r.consumed)
  }

  /** Calls with the pieces in turn; a parser in error ignores what follows. */
  function ExecuteAll(p: Parser, pieces: seq<seq<byte>>): Outcome
    decreases |pieces|
  {
    if pieces == [] then Outcome(p, [], 0)
    else
      var first := Execute(p, pieces[0]);
      var rest := ExecuteAll(first.p, pieces[1..]);
      Outcome(rest.p, first.calls + rest.calls, first.consumed + rest.consumed)
  }
}
