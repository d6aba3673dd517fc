/** What holds of the request parser between any two bytes of any run, and why
    none of its internal assertions can fail. */
module HttpInvariant {
  import opened Bytes
  import opened HttpTypes
  import opened HttpMachine

  /** Header states met while a field name is read, with the index bound of each matcher. */
  predicate NameState(h: HeaderState, index: nat) {
    match h
    case HGeneral => true
    case HC => index == 0
    case HCO => index == 1
    case HCON => index == 2
    case HMatchingConnection => index < 9
    case HMatchingProxyConnection => index < 15
    case HMatchingContentLength => index < 13
    case HMatchingTransferEncoding => index < 16
    case HMatchingUpgrade => index < 6
    case HConnection => true
    case HContentLength => true
    case HTransferEncoding => true
    case HUpgrade => true
    case _ => false
  }

  /** Header states met while a value is read. */
  predicate ValueState(h: HeaderState, index: nat) {
    match h
    case HGeneral => true
    case HContentLength => true
    case HMatchingChunked => index < 6
    case HTokenStart => index == 0
    case HMatchingKeepAlive => index < 9
    case HMatchingClose => index < 4
    case HMatchingConnUpgrade => index < 6
    case HToken => true
    case HChunked => true
    case HKeepAlive => true
    case HClose => true
    case HConnUpgrade => true
    case _ => false
  }

  /** The part of the invariant that does not look at the byte counter. */
  predicate Sound(p: Parser) {
    && p.errno.Ok?
    && p.contentLength <= ULLONG_MAX
    && p.index < 128
    && (p.flags.trailing ==> p.flags.chunked)
    && (p.state.ReqMethod? ==> 1 <= p.index <= |Name(p.verb)|)
    && (p.state.Field? || p.state.DiscardWs? || p.state.DiscardWsAlmostDone? || p.state.DiscardLws? ==>
          NameState(p.headerState, p.index))
    && (p.state.Value? || p.state.HeaderAlmostDone? || p.state.ValueLws? ==> ValueState(p.headerState, p.index))
    && (IsChunkState(p.state) ==> p.flags.chunked)
    && (p.state.ChunkSize? || p.state.ChunkParameters? || p.state.ChunkSizeAlmostDone? ==>
          p.contentLength < ULLONG_MAX)
    && (p.state.ChunkData? || p.state.BodyIdentity? ==> 0 < p.contentLength < ULLONG_MAX)
    && (p.state.ChunkDataAlmostDone? ==> p.contentLength == 0)
    && !p.state.ValueStart? && !p.state.HeadersDone? && !p.state.MessageDone?
  }

  /** The invariant of a parser at rest between two calls. */
  predicate Inv(p: Parser) {
    Sound(p) && p.nread <= HTTP_MAX_HEADER_SIZE && (p.state.ChunkSizeStart? ==> p.nread == 0)
  }

  /** Which mark may be open in which state. */
  predicate MarkFits(s: State, m: Mark) {
    if s.Field? then m.Mark? && m.kind == HeaderField
    else if s.Value? then m.Mark? && m.kind == HeaderValue
    else if IsUrlState(s) then m.Mark? && m.kind == Url
    else if s.BodyIdentity? || s.ChunkData? || s.ChunkDataAlmostDone? then m.Mark? ==> m.kind == Body
    else m.NoMark?
  }

  /** The parser a run would leave if its call ended here: the local header state is stored. */
  function Stored(r: Run): Parser {
    if 0 < r.inner && r.p.state.Value? then r.p.(headerState := r.hs) else r.p
  }

  /** The invariant inside a call, between two bytes. */
  predicate RunInv(r: Run) {
    && !r.clash
    && Inv(Stored(r))
    && MarkFits(r.p.state, r.mark)
    && (0 < r.inner ==> (r.p.state.Field? || r.p.state.Value?) && 1 <= r.p.nread)
    && (r.halt.Upgraded? ==> r.p.state.StartReq? || r.p.state.Dead?)
    && (0 < r.skip ==> r.p.state.Value? && r.hs.HGeneral? && r.skip <= r.inner)
  }

  /** A run that kept the invariant, or stopped with an error code. */
  predicate Good(r: Run) { !r.clash && if r.halt.Failed? then !r.p.errno.Ok? else RunInv(r) }

  // One action outside the inner loops

  function NextMark(m: Mark, act: Act): Mark {
    var m1 := FlushMark(m, act.flush);
    if act.mark.Marking? && m1.NoMark? then Mark(act.mark.kind, []) else m1
  }

  predicate Clashes(m: Mark, act: Act) {
    var m1 := FlushMark(m, act.flush);
    act.mark.Marking? && m1.Mark? && m1.kind != act.mark.kind
  }

  predicate Flows(s: State, act: Act, m: Mark) {
    MarkFits(s, m) ==> !Clashes(m, act) && (!act.halt.Failed? ==> MarkFits(act.p.state, NextMark(m, act)))
  }

  predicate IsBodyState(s: State) { s.BodyIdentity? || s.ChunkData? || s.ChunkDataAlmostDone? }

  /** A flush is of the kind its state may have pending; notifications only come
      when no mark is open; a body state always marks or flushes. */
  predicate Orderly(s: State, act: Act) {
    && (!act.flush.NoFlush? && OpenMark(s).Mark? ==> act.flush.kind == OpenMark(s).kind)
    && (!act.flush.NoFlush? && IsBodyState(s) ==> act.flush.kind.Body?)
    && (act.flush.NoFlush? && act.notices != [] ==> OpenMark(s).NoMark? && !IsBodyState(s))
    && (act.flush.NoFlush? && IsBodyState(s) ==> act.mark.Marking?)
  }

  /** The action takes every mark its state may have to one its next state may have. */
  predicate MarkFlow(s: State, act: Act) {
    Flows(s, act, OpenMark(s)) && (IsBodyState(s) ==> Flows(s, act, Mark(Body, []))) &&
    (!act.halt.Failed? ==> Orderly(s, act))
  }

  /** The action leaves a sound parser, or fails with an error code other than overflow. */
  predicate SoundAct(act: Act) {
    if act.halt.Failed? then !act.p.errno.Ok? && !act.p.errno.HeaderOverflow?
    else Sound(act.p) && (act.p.state.ChunkSizeStart? ==> act.reset) &&
         (act.halt.Upgraded? ==> act.p.state.StartReq? || act.p.state.Dead?)
  }

  /** What holds in every state. */
  predicate Plain(p: Parser) {
    p.errno.Ok? && p.contentLength <= ULLONG_MAX && p.index < 128 && (p.flags.trailing ==> p.flags.chunked)
  }

  lemma HeadersDoneSound(p: Parser, c: byte)
    requires Plain(p)
    ensures SoundAct(AtHeadersDone(p, c))
  {
    hide Name;
  }

  lemma HeadersAlmostDoneSound(p: Parser, c: byte)
    requires Plain(p)
    ensures SoundAct(AtHeadersAlmostDone(p, c))
  {
    hide Name, AtHeadersDone;
    var upgrade := (p.flags.upgrade && p.flags.connUpgrade) || p.verb.CONNECT?;
    HeadersDoneSound(p.(state := HeadersDone, upgrade := upgrade), c);
  }

  lemma FieldStartSound(p: Parser, c: byte)
    requires Plain(p)
    ensures SoundAct(AtFieldStart(p, c))
  {
    hide Name, AtHeadersAlmostDone;
    HeadersAlmostDoneSound(p.(state := HeadersAlmostDone), c);
  }

  /** What the first byte of a value leaves. */
  lemma ValueStartLeaves(p: Parser, c: byte)
    requires p.contentLength <= ULLONG_MAX
    ensures var act := AtValueStart(p, c);
      if act.halt.Failed? then !act.p.errno.Ok? && !act.p.errno.HeaderOverflow?
      else
        && act.halt.Running? && act.p.state.Value? && act.p.index == 0 && act.p.errno == p.errno
        && act.p.contentLength <= ULLONG_MAX && act.p.flags.chunked == p.flags.chunked
        && act.p.flags.trailing == p.flags.trailing && ValueState(act.p.headerState, 0)
  {
    hide Lower;
    match p.headerState
    case HUpgrade =>
    case HTransferEncoding =>
    case HContentLength =>
    case HConnection =>
    case _ =>
  }

  lemma ValueStartSound(p: Parser, c: byte)
    requires Plain(p)
    ensures SoundAct(AtValueStart(p, c))
  {
    hide Name, NameState, ValueState, AtValueStart;
    ValueStartLeaves(p, c);
  }

  predicate IsHeaderState(s: State) {
    s.FieldStart? || s.DiscardWs? || s.DiscardWsAlmostDone? || s.DiscardLws? || s.ValueLws? ||
    s.HeaderAlmostDone? || s.HeadersAlmostDone?
  }

  lemma ValueLwsSound(p: Parser, c: byte)
    requires Sound(p)
    ensures SoundAct(AtValueLws(p, c))
    ensures p.state.DiscardLws? ==> SoundAct(AtDiscardLws(p, c))
  {
    hide Name, AtFieldStart, AtValueStart;
    FieldStartSound(p.(flags := FinishedFlags(p.headerState, p.flags), state := FieldStart), c);
    ValueStartSound(p.(state := ValueStart), c);
  }

  lemma HeaderSound(p: Parser, c: byte)
    requires Sound(p) && IsHeaderState(p.state)
    ensures SoundAct(AtHeader(p, c))
  {
    hide Name, AtFieldStart, AtValueStart, AtValueLws, AtDiscardLws, AtDiscardWs, AtHeadersAlmostDone, AtHeadersDone, SoundAct,
         AtHeaderAlmostDone, Strictly;
    assert Plain(p);
    match p.state
    case FieldStart => FieldStartSound(p, c);
    case DiscardWs => DiscardWsSound(p, c);
    case HeadersAlmostDone => HeadersAlmostDoneSound(p, c);
    case DiscardWsAlmostDone => AlmostDoneSound(p, c);
    case HeaderAlmostDone => AlmostDoneSound(p, c);
    case _ => ValueLwsSound(p, c);
  }

  lemma AlmostDoneSound(p: Parser, c: byte)
    requires Sound(p)
    ensures p.state.DiscardWsAlmostDone? ==> SoundAct(Strictly(c == LF, p, DiscardLws))
    ensures p.state.HeaderAlmostDone? ==> SoundAct(AtHeaderAlmostDone(p, c))
  {
    hide Name, NameState, ValueState;
  }

  lemma DiscardWsSound(p: Parser, c: byte)
    requires Sound(p)
    ensures p.state.DiscardWs? ==> SoundAct(AtDiscardWs(p, c))
  {
    hide Name, AtValueStart;
    ValueStartSound(p, c);
  }

  lemma ChunkSound(p: Parser, c: byte)
    requires Sound(p) && IsChunkState(p.state)
    ensures SoundAct(AtChunk(p, c))
  {
    hide Name, NameState, ValueState, SoundAct, AtChunkSizeStart, AtChunkSize, AtChunkSizeAlmostDone, AtChunkData, Strictly, To,
         Go, Fail;
    match p.state
    case ChunkSizeStart => SizeStartSound(p, c);
    case ChunkSize => SizeSound(p, c);
    case ChunkSizeAlmostDone => SizeDoneSound(p, c);
    case ChunkData => DataSound(p);
    case ChunkParameters => ChunkStepSound(p, c);
    case _ => ChunkEndSound(p, c);
  }

  lemma SizeStartSound(p: Parser, c: byte)
    requires Sound(p) && p.state.ChunkSizeStart?
    ensures SoundAct(AtChunkSizeStart(p, c))
  {
    hide Name, Unhex, NameState, ValueState;
  }

  lemma SizeSound(p: Parser, c: byte)
    requires Sound(p) && p.state.ChunkSize?
    ensures SoundAct(AtChunkSize(p, c))
  {
    hide Name, Unhex, NameState, ValueState;
  }

  lemma SizeDoneSound(p: Parser, c: byte)
    requires Sound(p) && p.state.ChunkSizeAlmostDone?
    ensures SoundAct(AtChunkSizeAlmostDone(p, c))
  {
    hide Name, NameState, ValueState;
  }

  lemma DataSound(p: Parser)
    requires Sound(p) && p.state.ChunkData?
    ensures SoundAct(AtChunkData(p))
  {
    hide Name, NameState, ValueState;
  }

  lemma ChunkStepSound(p: Parser, c: byte)
    requires Sound(p) && p.state.ChunkParameters?
    ensures SoundAct(AtChunk(p, c))
  {
    hide Name, NameState, ValueState, AtChunkSizeStart, AtChunkSize, AtChunkSizeAlmostDone, AtChunkData;
  }

  lemma ChunkEndSound(p: Parser, c: byte)
    requires Sound(p) && (p.state.ChunkDataAlmostDone? || p.state.ChunkDataDone?)
    ensures SoundAct(AtChunk(p, c))
  {
    hide Name, NameState, ValueState, AtChunkSizeStart, AtChunkSize, AtChunkSizeAlmostDone, AtChunkData;
  }

  lemma StartSound(p: Parser, c: byte)
    requires Sound(p) && p.state.StartReq?
    ensures SoundAct(AtStart(p, c))
  {
    hide Name, FirstMethod;
    if HasMethod(c) { NameLonger(FirstMethod(c)); }
  }

  lemma MethodSound(p: Parser, c: byte)
    requires Sound(p) && p.state.ReqMethod?
    ensures SoundAct(AtMethod(p, c))
  {
    hide Name, Reroute, AtMethod, NameState, ValueState;
    MethodLeaves(p, c);
  }

  /** What a byte of the method leaves. */
  lemma MethodLeaves(p: Parser, c: byte)
    requires 1 <= p.index <= |Name(p.verb)| && p.state.ReqMethod?
    ensures var act := AtMethod(p, c);
      if act.halt.Failed? then act.p.errno.InvalidMethod?
      else
        && act.halt.Running? && act.p == p.(state := act.p.state, verb := act.p.verb, index := act.p.index)
        && (act.p.state.SpacesBeforeUrl? || (act.p.state.ReqMethod? && 1 <= act.p.index <= |Name(act.p.verb)|))
        && act.p.index < 128
  {
    hide Name, Reroute;
    RerouteLonger(p.verb, p.index, c);
    NameLonger(MSEARCH);
  }

  lemma NameLonger(m: Method)
    ensures 2 < |Name(m)| < 100
  {
  }

  /** Changing the method never leaves the index beyond the new spelling. */
  lemma RerouteLonger(m: Method, i: nat, c: byte)
    requires i <= |Name(m)|
    ensures Reroute(m, i, c) != m ==> i < |Name(Reroute(m, i, c))|
    ensures |Name(m)| < 100
  {
    hide Name, Reroute;
    NameLonger(m);
    NameLonger(Reroute(m, i, c));
    LongNames();
    if Reroute(m, i, c) != m { RerouteEarly(m, i, c); }
  }

  /** After the third letter only two methods, after the fourth only one, are changed to. */
  lemma RerouteEarly(m: Method, i: nat, c: byte)
    requires Reroute(m, i, c) != m
    ensures var n := Reroute(m, i, c); i <= 2 || (i == 3 && (n.MKCALENDAR? || n.UNLINK?)) || (i == 4 && n.PROPPATCH?)
  {
  }

  lemma LongNames()
    ensures |Name(MKCALENDAR)| == 10 && |Name(UNLINK)| == 6 && |Name(PROPPATCH)| == 9
  {
  }

  lemma UrlStays(s: State, c: byte)
    ensures UrlNext(s, c).Dead? || IsUrlState(UrlNext(s, c))
  {
  }

  lemma UrlSound(p: Parser, c: byte)
    requires Sound(p) && IsUrlState(p.state)
    ensures SoundAct(AtUrl(p, c))
  {
    hide Name, UrlNext, NameState, ValueState, AtUrl;
    UrlLeaves(p, c);
  }

  /** What a byte of the URL leaves. */
  lemma UrlLeaves(p: Parser, c: byte)
    requires IsUrlState(p.state)
    ensures var act := AtUrl(p, c);
      if act.halt.Failed? then act.p.errno.InvalidUrl?
      else
        && act.halt.Running? && act.p == p.(state := act.p.state, major := act.p.major, minor := act.p.minor)
        && (IsUrlState(act.p.state) || act.p.state.HttpStart? || act.p.state.LineAlmostDone? || act.p.state.FieldStart?)
  {
    hide UrlNext;
    UrlStays(p.state, c);
  }

  lemma SpacesSound(p: Parser, c: byte)
    requires Sound(p) && p.state.SpacesBeforeUrl?
    ensures SoundAct(AtSpaces(p, c))
  {
    hide Name, UrlNext;
    UrlStays(p.state, c);
    UrlStays(ServerStart, c);
  }

  lemma HttpSound(p: Parser, c: byte)
    requires Sound(p) && IsHttpState(p.state)
    ensures SoundAct(AtHttp(p, c))
  {
    hide Name, SoundAct, Go, To, Fail;
    RequestLine(p);
  }

  lemma NumberSound(p: Parser, c: byte)
    requires Sound(p) && IsNumberState(p.state)
    ensures SoundAct(AtNumber(p, c))
  {
    hide Name, SoundAct, Go, To, Fail;
    RequestLine(p);
    match p.state
    case FirstMajor => if 49 <= c <= 57 { RequestLine(p.(major := c - 48)); }
    case Major => if IsDigit(c) { RequestLine(p.(major := p.major * 10 + (c - 48))); }
    case FirstMinor => if IsDigit(c) { RequestLine(p.(minor := c - 48)); }
    case Minor => if IsDigit(c) { RequestLine(p.(minor := p.minor * 10 + (c - 48))); }
    case _ =>
  }

  /** On the request line after its method nothing but the plain facts is asked. */
  lemma RequestLine(p: Parser)
    requires Plain(p)
    ensures forall s: State :: IsHttpState(s) || IsNumberState(s) || s.FieldStart? ==> SoundAct(To(p, s))
    ensures IsHttpState(p.state) || IsNumberState(p.state) ==> SoundAct(Go(p))
    ensures forall e: Errno :: !e.Ok? && !e.HeaderOverflow? ==> SoundAct(Fail(p, e))
  {
    hide Name, NameState, ValueState;
  }

  lemma BodySound(p: Parser)
    requires Sound(p) && p.state.BodyIdentity?
    ensures SoundAct(AtBodyIdentity(p))
  {
    hide Name;
  }

  lemma SwitchSound(p: Parser, c: byte)
    requires Sound(p) && !p.state.Field? && !p.state.Value?
    ensures SoundAct(Switch(p, c))
  {
    hide Name, AtStart, AtMethod, AtSpaces, AtUrl, AtHttp, AtNumber, AtChunk, AtHeader, AtBodyIdentity, AtMessageDone;
    match p.state
    case Dead =>
    case StartReq => StartSound(p, c);
    case ReqMethod => MethodSound(p, c);
    case SpacesBeforeUrl => SpacesSound(p, c);
    case BodyIdentity => BodySound(p);
    case _ =>
      if IsUrlState(p.state) { UrlSound(p, c); }
      else if IsHttpState(p.state) { HttpSound(p, c); }
      else if IsNumberState(p.state) { NumberSound(p, c); }
      else if IsChunkState(p.state) { ChunkSound(p, c); }
      else { HeaderSound(p, c); }
  }

  lemma HeadersDoneFlow(p: Parser, c: byte)
    ensures MarkFlow(HeadersDone, AtHeadersDone(p, c))
  {
  }

  lemma HeadersAlmostDoneFlow(p: Parser, c: byte)
    ensures MarkFlow(HeadersAlmostDone, AtHeadersAlmostDone(p, c))
  {
    hide AtHeadersDone;
    var upgrade := (p.flags.upgrade && p.flags.connUpgrade) || p.verb.CONNECT?;
    HeadersDoneFlow(p.(state := HeadersDone, upgrade := upgrade), c);
  }

  lemma FieldStartFlow(p: Parser, c: byte)
    ensures MarkFlow(FieldStart, AtFieldStart(p, c))
    ensures AtFieldStart(p, c).flush.NoFlush?
  {
    hide AtHeadersDone;
    HeadersAlmostDoneFlow(p.(state := HeadersAlmostDone), c);
    var upgrade := (p.flags.upgrade && p.flags.connUpgrade) || p.verb.CONNECT?;
    assert AtHeadersDone(p.(state := HeadersDone, upgrade := upgrade), c).flush.NoFlush? by { NoFlushAtDone(p.(state := HeadersDone, upgrade := upgrade), c); }
  }

  lemma NoFlushAtDone(p: Parser, c: byte)
    ensures AtHeadersDone(p, c).flush.NoFlush?
  {
  }

  lemma ValueStartFlow(p: Parser, c: byte)
    ensures MarkFlow(ValueStart, AtValueStart(p, c))
  {
    hide Lower;
  }

  lemma HeaderFlow(p: Parser, c: byte)
    requires IsHeaderState(p.state)
    ensures MarkFlow(p.state, AtHeader(p, c))
  {
    hide AtFieldStart, AtValueLws, AtDiscardLws, AtDiscardWs, AtHeadersAlmostDone, AtHeadersDone, MarkFlow, MarkFits, Strictly,
         AtHeaderAlmostDone;
    match p.state
    case FieldStart => FieldStartFlow(p, c);
    case DiscardWs => DiscardWsFlow(p, c);
    case HeadersAlmostDone => HeadersAlmostDoneFlow(p, c);
    case DiscardWsAlmostDone => AlmostDoneFlow(p, c);
    case HeaderAlmostDone => AlmostDoneFlow(p, c);
    case _ => LwsFlow(p, c);
  }

  /** An action without callbacks or marks, between states that keep no mark. */
  lemma PlainFlow(s: State, act: Act)
    requires OpenMark(s).NoMark? && !IsBodyState(s)
    requires act.flush.NoFlush? && act.mark.NoMarking? && (!act.halt.Failed? ==> MarkFits(act.p.state, NoMark))
    requires act.notices == []
    ensures MarkFlow(s, act)
  {
  }

  lemma AlmostDoneFlow(p: Parser, c: byte)
    ensures MarkFlow(DiscardWsAlmostDone, Strictly(c == LF, p, DiscardLws))
    ensures MarkFlow(HeaderAlmostDone, AtHeaderAlmostDone(p, c))
  {
    hide MarkFlow;
    PlainFlow(DiscardWsAlmostDone, Strictly(c == LF, p, DiscardLws));
    PlainFlow(HeaderAlmostDone, AtHeaderAlmostDone(p, c));
  }

  lemma DiscardWsFlow(p: Parser, c: byte)
    requires p.state.DiscardWs?
    ensures MarkFlow(DiscardWs, AtDiscardWs(p, c))
  {
    hide AtValueStart;
    ValueStartFlow(p, c);
  }

  lemma LwsFlow(p: Parser, c: byte)
    ensures MarkFlow(ValueLws, AtValueLws(p, c))
    ensures MarkFlow(DiscardLws, AtDiscardLws(p, c))
  {
    hide AtFieldStart, AtValueStart;
    FieldStartFlow(p.(flags := FinishedFlags(p.headerState, p.flags), state := FieldStart), c);
    ValueStartFlow(p.(state := ValueStart), c);
  }

  lemma ChunkFlow(p: Parser, c: byte)
    requires IsChunkState(p.state)
    ensures MarkFlow(p.state, AtChunk(p, c))
  {
    hide Unhex;
  }

  lemma UrlFlow(p: Parser, c: byte)
    requires IsUrlState(p.state) || p.state.SpacesBeforeUrl?
    ensures MarkFlow(p.state, if p.state.SpacesBeforeUrl? then AtSpaces(p, c) else AtUrl(p, c))
  {
    hide UrlNext;
    UrlStays(p.state, c);
    UrlStays(ServerStart, c);
  }

  lemma RequestFlow(p: Parser, c: byte)
    requires p.state.StartReq? || p.state.ReqMethod? || p.state.BodyIdentity?
    ensures MarkFlow(p.state, match p.state case StartReq => AtStart(p, c) case ReqMethod => AtMethod(p, c)
                              case _ => AtBodyIdentity(p))
  {
    hide Name, Reroute, FirstMethod;
  }

  lemma VersionFlow(p: Parser, c: byte)
    requires IsHttpState(p.state) || IsNumberState(p.state)
    ensures MarkFlow(p.state, if IsHttpState(p.state) then AtHttp(p, c) else AtNumber(p, c))
  {
    hide MarkFlow;
    PlainFlow(p.state, if IsHttpState(p.state) then AtHttp(p, c) else AtNumber(p, c));
  }

  lemma SwitchFlow(p: Parser, c: byte)
    requires !p.state.Field? && !p.state.Value? && !p.state.ValueStart? && !p.state.HeadersDone? && !p.state.MessageDone?
    ensures MarkFlow(p.state, Switch(p, c))
  {
    hide AtStart, AtMethod, AtSpaces, AtUrl, AtHttp, AtNumber, AtChunk, AtHeader, AtBodyIdentity, AtMessageDone;
    match p.state
    case Dead =>
    case StartReq => RequestFlow(p, c);
    case ReqMethod => RequestFlow(p, c);
    case SpacesBeforeUrl => UrlFlow(p, c);
    case BodyIdentity => RequestFlow(p, c);
    case _ =>
      if IsUrlState(p.state) { UrlFlow(p, c); }
      else if IsHttpState(p.state) || IsNumberState(p.state) { VersionFlow(p, c); }
      else if IsChunkState(p.state) { ChunkFlow(p, c); }
      else { HeaderFlow(p, c); }
  }

  lemma PerformGood(r: Run, act: Act, c: byte)
    requires !r.clash && MarkFits(r.p.state, r.mark) && r.inner == 0 && r.skip == 0 && r.halt.Running?
    requires r.p.nread <= HTTP_MAX_HEADER_SIZE && SoundAct(act) && MarkFlow(r.p.state, act)
    ensures Good(Perform(r, act, c))
  {
    hide Name, MarkFits, ValueState, NameState;
    MarkKindsOnly(r.p.state, act, r.mark);
  }

  /** Whether a mark fits, clashes or is flushed depends on its kind, not on its text. */
  lemma MarkKindsOnly(s: State, act: Act, m: Mark)
    requires MarkFlow(s, act)
    ensures Flows(s, act, m)
  {
    hide Flows, Orderly;
    if MarkFits(s, m) {
      if Alike(m, OpenMark(s)) { AlikeFlows(s, act, m, OpenMark(s)); } else { AlikeFlows(s, act, m, Mark(Body, [])); }
    } else {
      NothingFlows(s, act, m);
    }
  }

  predicate Alike(m: Mark, n: Mark) { if n.Mark? then m.Mark? && m.kind == n.kind else m.NoMark? }

  lemma AlikeFlows(s: State, act: Act, m: Mark, n: Mark)
    requires Alike(m, n) && Flows(s, act, n)
    ensures Flows(s, act, m)
  {
  }

  lemma NothingFlows(s: State, act: Act, m: Mark)
    requires !MarkFits(s, m)
    ensures Flows(s, act, m)
  {
  }

  // The inner loops

  lemma FieldGood(r: Run, c: byte)
    requires RunInv(r) && r.halt.Running? && r.p.state.Field? && 1 <= r.p.nread
    ensures Good(InField(r, c))
  {
    hide Name, Token, NameState, ValueState, Perform, MatchName, EndField;
    if Token(c) != 0 {
      MatchNameGood(r.p.headerState, r.p.index, c, Token(c));
    } else if Charged(r, r.inner).halt.Running? {
      var r1 := Charged(r, r.inner).(inner := 0);
      EndFieldGood(r1, c);
    }
  }

  lemma MatchNameGood(h: HeaderState, i: nat, ch: byte, c: byte)
    requires NameState(h, i) && i < 128
    ensures var (h', j) := MatchName(h, i, ch, c); NameState(h', j) && j < 128
  {
    hide CharAt;
  }

  lemma EndFieldGood(r: Run, c: byte)
    requires r.halt.Running? && r.p.state.Field? && r.inner == 0 && r.skip == 0 && !r.clash && MarkFits(r.p.state, r.mark)
    requires Plain(r.p) && NameState(r.p.headerState, r.p.index) && r.p.nread <= HTTP_MAX_HEADER_SIZE
    ensures Good(Perform(r, EndField(r.p, c), c))
  {
    hide Name, NameState, ValueState;
  }

  lemma MatchValueGood(p: Parser, h: HeaderState, ch: byte)
    requires ValueState(h, p.index) && p.index < 128 && !h.HGeneral? && !h.HContentLength?
    ensures
      var (q, h') := MatchValue(p, h, ch);
      && ValueState(h', q.index) && q.index < 128
      && q == p.(index := q.index, flags := q.flags)
      && q.flags.trailing == p.flags.trailing && (p.flags.chunked == q.flags.chunked)
  {
    hide Lower, Token, CharAt;
  }

  /** A run about to handle one byte of the value loop. */
  predicate InsideValue(r: Run) {
    && RunInv(r) && r.halt.Running? && r.p.state.Value? && 1 <= r.p.nread
    && ValueState(r.hs, r.p.index)
  }

  lemma EndValueGood(r: Run, c: byte)
    requires InsideValue(r)
    ensures Good(EndValue(r, c))
  {
    hide Name;
  }

  lemma InLengthGood(r: Run, c: byte)
    requires InsideValue(r) && r.hs.HContentLength?
    ensures Good(InLength(r, c))
  {
    hide Name;
  }

  lemma ValueGood(r: Run, c: byte)
    requires InsideValue(r)
    ensures Good(InValue(r, c))
  {
    hide Name, Lower, MatchValue, EndValue, InLength, IsHeaderChar;
    if !r.hs.HGeneral? && !r.hs.HContentLength? { MatchValueGood(r.p, r.hs, c); }
    EndValueGood(r, c);
    if r.hs.HContentLength? { InLengthGood(r, c); }
  }

  // Whole turns and calls

  /** Everything the source asserts at the point where this byte is dispatched,
      plus what it assumes silently: matchers stay inside their literals, the
      header state is one the inner loops list, no two marks are open. */
  predicate AssertsHold(r: Run, c: byte) {
    var t := if r.inner == 0 && ParsingHeader(r.p.state) then Charged(r, 1) else r;
    var h := if r.inner == 0 then t.p.headerState else t.hs;
    !t.halt.Failed? ==>
      && !Turn(r, c).clash
      && (t.p.state.ReqMethod? ==> t.p.index <= |Name(t.p.verb)|)
      && (t.p.state.Field? ==> NameState(t.p.headerState, t.p.index))
      && (t.p.state.Value? ==> ValueState(h, t.p.index))
      && (t.p.state.ChunkSizeStart? ==> t.p.nread == 1)
      && (IsChunkState(t.p.state) ==> t.p.flags.chunked)
      && (t.p.state.ChunkData? || t.p.state.BodyIdentity? ==> t.p.contentLength != 0 && t.p.contentLength != ULLONG_MAX)
      && (t.p.state.ChunkDataAlmostDone? ==> t.p.contentLength == 0)
      && !t.p.state.ValueStart? && !t.p.state.HeadersDone? && !t.p.state.MessageDone?
  }

  lemma TurnGood(r: Run, c: byte)
    requires RunInv(r) && r.halt.Running?
    ensures Good(Turn(r, c))
  {
    hide Name, Switch, InField, InValue, Perform, NameState;
    var t := if r.inner == 0 && ParsingHeader(r.p.state) then Charged(r, 1) else r;
    if t.halt.Running? {
      if r.p.state.Field? { FieldGood(t, c); }
      else if r.p.state.Value? { ValueGood(if r.inner == 0 then t.(hs := r.p.headerState) else t, c); }
      else {
        SwitchSound(t.p.(nread := 0), c);
        SwitchFlow(t.p.(nread := 0), c);
        PerformGood(t, Switch(t.p.(nread := 0), c), c);
      }
    }
  }

  /** No assertion of the source fails on any byte. */
  lemma AssertsNeverFail(r: Run, c: byte)
    requires RunInv(r) && r.halt.Running?
    ensures AssertsHold(r, c)
  {
    hide Name, Turn;
    TurnGood(r, c);
  }

  lemma StepGood(r: Run, c: byte)
    requires RunInv(r) && r.halt.Running?
    ensures Good(Step(r, c))
  {
    hide Name, Turn, NameState, ValueState;
    TurnGood(r, c);
  }

  lemma {:induction false} FeedGood(r: Run, data: seq<byte>)
    requires Good(r)
    ensures Good(Feed(r, data))
    decreases |data|
  {
    hide Step, RunInv;
    if data != [] && r.halt.Running? {
      StepGood(r, data[0]);
      FeedGood(Step(r, data[0]), data[1..]);
    }
  }

  lemma BeginGood(p: Parser)
    requires Inv(p)
    ensures Good(Begin(p))
  {
    hide Name, NameState, ValueState;
  }

  lemma FinishGood(r: Run)
    requires Good(r)
    ensures !Finish(r).clash
    ensures if Finish(r).halt.Failed? then !Finish(r).p.errno.Ok? else Inv(Finish(r).p)
  {
    hide Name, NameState, ValueState;
  }

  /** Every call keeps the invariant, as long as it does not report an error. */
  lemma ExecuteKeepsInv(p: Parser, data: seq<byte>)
    requires p.errno.Ok? ==> Inv(p)
    ensures Execute(p, data).p.errno.Ok? ==> Inv(Execute(p, data).p)
  {
    hide Feed, Begin, Finish, Inv, RunInv;
    if p.errno.Ok? && data != [] {
      BeginGood(p);
      FeedGood(Begin(p), data);
      FinishGood(Feed(Begin(p), data));
    }
  }

  lemma {:induction false} ExecuteAllKeepsInv(p: Parser, pieces: seq<seq<byte>>)
    requires p.errno.Ok? ==> Inv(p)
    ensures ExecuteAll(p, pieces).p.errno.Ok? ==> Inv(ExecuteAll(p, pieces).p)
    decreases |pieces|
  {
    hide Execute, Inv;
    if pieces != [] {
      ExecuteKeepsInv(p, pieces[0]);
      ExecuteAllKeepsInv(Execute(p, pieces[0]).p, pieces[1..]);
    }
  }

  /** From a fresh parser, after any calls at all, at any byte of the next call:
      the assertions met on that byte hold. */
  lemma AssertsNeverFailInAnyRun(pieces: seq<seq<byte>>, data: seq<byte>, c: byte)
    requires ExecuteAll(InitialParser, pieces).p.errno.Ok?
    requires Feed(Begin(ExecuteAll(InitialParser, pieces).p), data).halt.Running?
    ensures AssertsHold(Feed(Begin(ExecuteAll(InitialParser, pieces).p), data), c)
  {
    hide Execute, ExecuteAll, Feed, Begin, AssertsHold, RunInv;
    assert Inv(InitialParser) by { NameLonger(DELETE); }
    ExecuteAllKeepsInv(InitialParser, pieces);
    var p := ExecuteAll(InitialParser, pieces).p;
    BeginGood(p);
    FeedGood(Begin(p), data);
    AssertsNeverFail(Feed(Begin(p), data), c);
  }
}
