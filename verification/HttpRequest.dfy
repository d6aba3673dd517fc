/** Whole requests: what the callbacks are given for a request line, header fields and a
    body, wherever the text is cut. */
module HttpRequest {
  import opened Bytes
  import opened Options
  import opened HttpTypes
  import opened HttpMachine
  import opened HttpInvariant
  import opened HttpCut
  import opened HttpMessage
  import opened HttpLimit
  import opened HttpHeader
  import opened HttpTrailer
  import HttpMethod
  import HttpConnection

  /** Fed this text the run goes on, each byte charged once and none refused by the value
      loop, and the callbacks so far, merged, are t. */
  predicate Stands(r: Run, text: seq<byte>, t: seq<Call>) {
    var q := Feed(r, text);
    RunInv(q) && q.halt.Running? && Trace([], q) == t && Charge(q) == Charge(r) + |text| && Clean(r, text)
  }

  /** The fields after the text. */
  function Held(r: Run, text: seq<byte>): Parser { Core(Feed(r, text)) }

  // One byte

  lemma OneMore(r: Run, text: seq<byte>, t: seq<Call>, c: byte)
    requires Stands(r, text, t) && Charge(r) + |text| < HTTP_MAX_HEADER_SIZE
    ensures var q := Feed(r, text);
      && Feed(r, text + [c]) == Step(q, c) && InReach(q) && !Step(q, c).p.errno.HeaderOverflow?
      && Held(r, text).state == q.p.state
      && (CleanByte(q.p, c) ==> Clean(r, text + [c]))
      && (Step(q, c).halt.Running? ==> RunInv(Step(q, c)))
      && (Step(q, c).halt.Running? && ParsingHeader(q.p.state) && !Resets(q, c) ==>
            Charge(Step(q, c)) == Charge(r) + |text + [c]|)
  {
    hide Step, RunInv, Feed, Clean, Core, Trace, CleanByte, Resets;
    var q := Feed(r, text);
    CoreState(q);
    assert (text + [c])[..|text|] == text;
    FeedSnoc(r, text + [c]);
    AllowsReach(q);
    StepAccounted(q, c);
    StepGood(q, c);
    if CleanByte(q.p, c) { CleanSnoc(r, text, c); }
  }

  /** Outside the loops. */
  lemma Outer(r: Run, text: seq<byte>, t: seq<Call>, c: byte)
    requires Stands(r, text, t) && Charge(r) + |text| < HTTP_MAX_HEADER_SIZE
    requires var p := Held(r, text); var act := Switch(p, c);
      OutsideLoops(p.state) && ParsingHeader(p.state) && act.halt.Running? && !act.reset
    ensures var p := Held(r, text); var act := Switch(p, c);
      Stands(r, text + [c], AfterAct(p.state, t, act, c)) && Held(r, text + [c]) == act.p.(nread := 0)
  {
    hide Step, RunInv, Feed, Clean, Trace, Switch, AfterAct, Charge;
    var q := Feed(r, text);
    OneMore(r, text, t, c);
    RestCore(q);
    SwitchStep([], q, c);
  }

  /** A letter of a name. */
  lemma NameByte(r: Run, text: seq<byte>, t: seq<Call>, c: byte)
    requires Stands(r, text, t) && Charge(r) + |text| < HTTP_MAX_HEADER_SIZE
    requires Held(r, text).state.Field? && Token(c) != 0
    ensures var p, q := Held(r, text), Held(r, text + [c]);
      && Stands(r, text + [c], Join(t, Data(HeaderField, [c])))
      && q == p.(headerState := q.headerState, index := q.index)
  {
    hide Step, RunInv, Feed, Clean, Trace, Token, MatchName, Join, Charge;
    OneMore(r, text, t, c);
    NoResetInside(Feed(r, text), c);
    FieldToken([], Feed(r, text), c);
  }

  /** The colon after it. */
  lemma NameColon(r: Run, text: seq<byte>, t: seq<Call>)
    requires Stands(r, text, t) && Charge(r) + |text| < HTTP_MAX_HEADER_SIZE && Held(r, text).state.Field?
    ensures Stands(r, text + [58], t) && Held(r, text + [58]) == Held(r, text).(state := DiscardWs)
  {
    hide Step, RunInv, Feed, Clean, Trace, Charge;
    OneMore(r, text, t, 58);
    NoResetInside(Feed(r, text), 58);
    FieldEnd([], Feed(r, text), 58);
  }

  /** A character of a value. */
  lemma ValueByte(r: Run, text: seq<byte>, t: seq<Call>, c: byte)
    requires Stands(r, text, t) && Charge(r) + |text| < HTTP_MAX_HEADER_SIZE && Held(r, text).state.Value?
    requires c != CR && c != LF && IsHeaderChar(c) && !LengthFails(Held(r, text), c)
    ensures Stands(r, text + [c], Join(t, Data(HeaderValue, [c])))
    ensures Held(r, text + [c]) == ValueCore(Held(r, text), c)
  {
    hide Step, RunInv, Feed, Clean, Trace, ValueCore, LengthFails, IsHeaderChar, Join, Charge;
    OneMore(r, text, t, c);
    HeaderCharIsClean(Feed(r, text).p, c);
    NoResetInside(Feed(r, text), c);
    ValueChar([], Feed(r, text), c);
  }

  /** The CR after it. */
  lemma ValueClose(r: Run, text: seq<byte>, t: seq<Call>)
    requires Stands(r, text, t) && Charge(r) + |text| < HTTP_MAX_HEADER_SIZE && Held(r, text).state.Value?
    ensures Stands(r, text + [CR], t) && Held(r, text + [CR]) == Held(r, text).(state := HeaderAlmostDone)
  {
    hide Step, RunInv, Feed, Clean, Trace, Charge;
    OneMore(r, text, t, CR);
    assert CleanByte(Feed(r, text).p, CR);
    NoResetInside(Feed(r, text), CR);
    ValueEnd([], Feed(r, text), CR);
  }

  /** A byte that changes nothing but the fields. */
  lemma Silent(r: Run, text: seq<byte>, t: seq<Call>, c: byte, p: Parser)
    requires Stands(r, text, t) && Charge(r) + |text| < HTTP_MAX_HEADER_SIZE
    requires var h := Held(r, text);
      OutsideLoops(h.state) && ParsingHeader(h.state) && OpenMark(h.state).NoMark? && Switch(h, c) == Go(p)
    requires p.nread == 0
    ensures Stands(r, text + [c], t) && Held(r, text + [c]) == p
  {
    hide Stands, Held, Switch;
    Outer(r, text, t, c);
    assert t + Notices([]) == t;
  }

  // Callbacks of one kind

  predicate Fresh(t: seq<Call>, k: Kind) { t == [] || !t[|t| - 1].Data? || t[|t| - 1].kind != k }

  lemma JoinFresh(t: seq<Call>, k: Kind, text: seq<byte>)
    requires Fresh(t, k)
    ensures Join(t, Data(k, text)) == t + [Data(k, text)]
  {
  }

  lemma JoinMore(t: seq<Call>, k: Kind, text: seq<byte>, more: seq<byte>)
    ensures Join(t + [Data(k, text)], Data(k, more)) == t + [Data(k, text + more)]
  {
    assert (t + [Data(k, text)])[..|t|] == t;
  }

  // Header lines

  /** The flags once the line before has been applied. */
  function Applied(h: Parser): Flags { if h.state.ValueLws? then FinishedFlags(h.headerState, h.flags) else h.flags }

  predicate LineState(h: Parser) { h.state.FieldStart? || h.state.ValueLws? }

  lemma {:induction false} NameText(r: Run, text: seq<byte>, t: seq<Call>, name: seq<byte>)
    requires Stands(r, text, t) && LineState(Held(r, text)) && IsToken(name) && Fresh(t, HeaderField)
    requires Charge(r) + |text| + |name| <= HTTP_MAX_HEADER_SIZE
    ensures var h, q := Held(r, text), Held(r, text + name);
      && Stands(r, text + name, t + [Data(HeaderField, name)])
      && q == h.(state := Field, flags := Applied(h), headerState := q.headerState, index := q.index)
    decreases |name|
  {
    hide Stands, Held, Applied, Token, Charge, Join, Fresh;
    var init, c := name[..|name| - 1], name[|name| - 1];
    assert text + name == (text + init) + [c];
    if init == [] {
      assert text + init == text && name == [c];
      NameBegins(r, text, t, c);
    } else {
      NameText(r, text, t, init);
      NameByte(r, text + init, t + [Data(HeaderField, init)], c);
      JoinMore(t, HeaderField, init, [c]);
      assert init + [c] == name;
    }
  }

  lemma NameBegins(r: Run, text: seq<byte>, t: seq<Call>, c: byte)
    requires Stands(r, text, t) && LineState(Held(r, text)) && Token(c) != 0 && Fresh(t, HeaderField)
    requires Charge(r) + |text| < HTTP_MAX_HEADER_SIZE
    ensures var h, q := Held(r, text), Held(r, text + [c]);
      && Stands(r, text + [c], t + [Data(HeaderField, [c])])
      && q == h.(state := Field, flags := Applied(h), headerState := q.headerState, index := q.index)
  {
    hide Stands, Switch, Token, Charge, Join, Fresh, FirstLetter;
    NoCount(r, text);
    FieldStartSwitch(Held(r, text), c);
    hide Held;
    Outer(r, text, t, c);
    assert t + Notices([]) == t;
    JoinFresh(t, HeaderField, [c]);
  }

  lemma NoCount(r: Run, text: seq<byte>)
    ensures Held(r, text).nread == 0
  {
    hide Feed;
  }

  /** The header a name announces, up to its colon. */
  lemma NameAndColon(r: Run, text: seq<byte>, t: seq<Call>, name: seq<byte>)
    requires Stands(r, text, t) && LineState(Held(r, text)) && IsToken(name) && Fresh(t, HeaderField)
    requires Charge(r) + |text| + |name| + 1 < HTTP_MAX_HEADER_SIZE
    ensures var h, q, l := Held(r, text), Held(r, text + name + [58]), Lowered(name);
      && Stands(r, text + name + [58], t + [Data(HeaderField, name)])
      && q == h.(state := DiscardWs, flags := Applied(h), headerState := q.headerState, index := q.index)
      && (q.headerState.HContentLength? <==> Spells(l, LENGTH))
      && (q.headerState.HTransferEncoding? <==> Spells(l, ENCODING))
      && (q.headerState.HUpgrade? <==> Spells(l, UPGRADE))
      && (q.headerState.HConnection? <==> Spells(l, CONNECTION) || Spells(l, PROXY))
      && NameState(q.headerState, q.index)
  {
    hide Applied, Token, Charge, Join, Fresh, Feed, Step, RunInv, Spells, Lowered, Clean, Trace;
    NameText(r, text, t, name);
    NameColon(r, text + name, t + [Data(HeaderField, name)]);
    var q := Feed(r, text);
    CoreState(q);
    RestCharge(q);
    HeaderName(q, name);
    FeedConcat(r, text, name + [58]);
    assert text + (name + [58]) == text + name + [58];
    CoreOutside(Feed(r, text + name + [58]));
    MatchedName(Feed(r, text + name + [58]));
  }

  lemma MatchedName(q: Run)
    requires RunInv(q) && Core(q).state.DiscardWs?
    ensures NameState(Core(q).headerState, Core(q).index)
  {
    hide Name, ValueState, MarkFits, NameState;
  }

  lemma {:induction false} BlanksText(r: Run, text: seq<byte>, t: seq<Call>, b: seq<byte>)
    requires Stands(r, text, t) && Held(r, text).state.DiscardWs? && Blanks(b)
    requires Charge(r) + |text| + |b| <= HTTP_MAX_HEADER_SIZE
    ensures Stands(r, text + b, t) && Held(r, text + b) == Held(r, text)
    decreases |b|
  {
    hide Stands, Held, Charge, Switch;
    if b == [] {
      assert text + b == text;
    } else {
      NoCount(r, text);
      BlankSwitch(Held(r, text), b[0]);
      Silent(r, text, t, b[0], Held(r, text));
      BlanksText(r, text + [b[0]], t, b[1..]);
      assert (text + [b[0]]) + b[1..] == text + b;
    }
  }

  // Values

  /** A header whose value the parser does not read. */
  predicate IsOther(h: HeaderState, index: nat) {
    NameState(h, index) && !h.HConnection? && !h.HContentLength? && !h.HTransferEncoding? && !h.HUpgrade?
  }

  function Unread(h: Parser): Parser { h.(state := Value, index := 0, headerState := HGeneral) }

  lemma OtherFirst(p: Parser, c: byte)
    requires p.state.DiscardWs? && c != SPACE && c != TAB && c != CR && c != LF && IsOther(p.headerState, p.index)
    ensures Switch(p, c) == Go(Unread(p)).(mark := Marking(HeaderValue))
  {
    hide AtStart, AtMethod, AtSpaces, AtUrl, AtHttp, AtNumber, AtChunk, AtBodyIdentity, AtFieldStart, AtValueLws,
         AtDiscardLws, AtHeadersAlmostDone, AtHeadersDone, Lower;
  }

  lemma {:induction false} ValueText(r: Run, text: seq<byte>, t: seq<Call>, v: seq<byte>)
    requires Stands(r, text, t) && Held(r, text).state.DiscardWs? && IsValueText(v) && Fresh(t, HeaderValue)
    requires IsOther(Held(r, text).headerState, Held(r, text).index)
    requires Charge(r) + |text| + |v| <= HTTP_MAX_HEADER_SIZE
    ensures Stands(r, text + v, t + [Data(HeaderValue, v)]) && Held(r, text + v) == Unread(Held(r, text))
    decreases |v|
  {
    hide Stands, Held, Charge, Switch, Join, Fresh, IsHeaderChar, IsOther;
    var init, c := v[..|v| - 1], v[|v| - 1];
    assert text + v == (text + init) + [c];
    if init == [] {
      assert text + init == text && v == [c];
      NoCount(r, text);
      OtherFirst(Held(r, text), c);
      ValueBegins(r, text, t, c);
    } else {
      ValueText(r, text, t, init);
      ValueByte(r, text + init, t + [Data(HeaderValue, init)], c);
      JoinMore(t, HeaderValue, init, [c]);
      assert init + [c] == v;
    }
  }

  /** The first character of a value, whatever it means. */
  lemma ValueBegins(r: Run, text: seq<byte>, t: seq<Call>, c: byte)
    requires Stands(r, text, t) && Held(r, text).state.DiscardWs? && Fresh(t, HeaderValue)
    requires Charge(r) + |text| < HTTP_MAX_HEADER_SIZE
    requires var act := Switch(Held(r, text), c); act == Go(act.p).(mark := Marking(HeaderValue)) && act.p.nread == 0
    ensures Stands(r, text + [c], t + [Data(HeaderValue, [c])]) && Held(r, text + [c]) == Switch(Held(r, text), c).p
  {
    hide Stands, Held, Charge, Switch, Join, Fresh;
    Outer(r, text, t, c);
    assert t + Notices([]) == t;
    JoinFresh(t, HeaderValue, [c]);
  }

  /** Under the matchers of Connection the flags that decide how the body is read stay. */
  predicate SameBody(f: Flags, g: Flags) {
    f.chunked == g.chunked && f.trailing == g.trailing && f.upgrade == g.upgrade && f.contentLength == g.contentLength
  }

  predicate Tame(h: HeaderState) { !h.HContentLength? && !h.HMatchingChunked? && !h.HChunked? }

  predicate InConnection(h: Parser, q: Parser) {
    && Tame(q.headerState) && SameBody(h.flags, q.flags)
    && q == h.(state := Value, index := q.index, headerState := q.headerState, flags := q.flags)
  }

  lemma ConnectionNext(h: Parser, p: Parser, c: byte)
    requires InConnection(h, p)
    ensures InConnection(h, ValueCore(p, c)) && !LengthFails(p, c)
  {
    hide MatchValue;
    if !p.headerState.HGeneral? { MatchTame(p, p.headerState, c); }
  }

  lemma MatchTame(p: Parser, h: HeaderState, c: byte)
    requires Tame(h) && p.state.Value?
    ensures var (q, g) := MatchValue(p, h, c); Tame(g) && SameBody(p.flags, q.flags) && q == p.(index := q.index, flags := q.flags)
  {
    hide Lower, Token, Compare, NextIndex, AfterToken, SameBody, Tame;
    SameTame(p.flags);
    var c1, j := Lower(c), NextIndex(p.index);
    match h
    case HMatchingKeepAlive => CompareAmong("keep-alive", j, c1, h, HKeepAlive, HToken);
    case HMatchingClose => CompareAmong("close", j, c1, h, HClose, HToken);
    case HMatchingConnUpgrade => CompareAmong("upgrade", j, c1, h, HConnUpgrade, HToken);
    case HKeepAlive => TokenTame(p, p.flags.(keepAlive := true), h, c);
    case HClose => TokenTame(p, p.flags.(close := true), h, c);
    case HConnUpgrade => TokenTame(p, p.flags.(connUpgrade := true), h, c);
    case _ =>
  }

  lemma SameTame(f: Flags)
    ensures SameBody(f, f) && forall h :: Tame(h) <==> !h.HContentLength? && !h.HMatchingChunked? && !h.HChunked?
  {
  }

  lemma TokenTame(p: Parser, f: Flags, h: HeaderState, c: byte)
    requires Tame(h) && SameBody(p.flags, f)
    ensures var (q, g) := AfterToken(p, f, h, c); Tame(g) && SameBody(p.flags, q.flags) && q == p.(index := q.index, flags := q.flags)
  {
  }

  lemma CompareAmong(name: string, j: nat, c: byte, h: HeaderState, done: HeaderState, other: HeaderState)
    ensures var g := Compare(name, j, c, h, done, other); g == h || g == done || g == other
  {
  }

  lemma {:induction false} ConnectionText(r: Run, text: seq<byte>, t: seq<Call>, v: seq<byte>)
    requires Stands(r, text, t) && IsValueText(v) && Fresh(t, HeaderValue)
    requires Held(r, text).state.DiscardWs? && Held(r, text).headerState.HConnection?
    requires Charge(r) + |text| + |v| <= HTTP_MAX_HEADER_SIZE
    ensures Stands(r, text + v, t + [Data(HeaderValue, v)]) && InConnection(Held(r, text), Held(r, text + v))
    ensures Held(r, text + v) == HttpConnection.Fold(HttpConnection.Started(Held(r, text), v[0]), v[1..])
    decreases |v|
  {
    hide Stands, Held, Charge, Switch, Join, Fresh, IsHeaderChar, ValueCore, LengthFails, HttpConnection.Started, InConnection,
         HttpConnection.Fold;
    var init, c, h := v[..|v| - 1], v[|v| - 1], Held(r, text);
    assert text + v == (text + init) + [c];
    if init == [] {
      assert text + init == text && v == [c] && v[1..] == [];
      NoCount(r, text);
      HttpConnection.ConnectionFirst(h, c);
      StartedIs(h, c);
      ValueBegins(r, text, t, c);
    } else {
      ConnectionText(r, text, t, init);
      var q := Held(r, text + init);
      ConnectionNext(h, q, c);
      InConnectionValue(h, q);
      ValueByte(r, text + init, t + [Data(HeaderValue, init)], c);
      JoinMore(t, HeaderValue, init, [c]);
      assert init + [c] == v && init[1..] + [c] == v[1..];
      HttpConnection.FoldConcat(HttpConnection.Started(h, v[0]), init[1..], [c]);
      FoldOne(q, c);
    }
  }

  lemma StartedIs(h: Parser, c: byte)
    requires h.state.DiscardWs?
    ensures InConnection(h, HttpConnection.Started(h, c)) && HttpConnection.Started(h, c).nread == h.nread
    ensures HttpConnection.Fold(HttpConnection.Started(h, c), []) == HttpConnection.Started(h, c)
  {
    hide HttpConnection.Starts, HttpConnection.Says;
  }

  lemma FoldOne(q: Parser, c: byte)
    ensures HttpConnection.Fold(q, [c]) == ValueCore(q, c)
  {
    hide ValueCore;
    assert [c][1..] == [];
  }

  lemma InConnectionValue(h: Parser, q: Parser)
    requires InConnection(h, q)
    ensures q.state.Value?
  {
  }

  /** The fields inside a Content-Length value that so far reads n. */
  function LengthSoFar(h: Parser, n: nat): Parser {
    h.(state := Value, index := 0, flags := h.flags.(contentLength := true), contentLength := n)
  }

  lemma LengthDigit(h: Parser, n: nat, c: byte)
    requires h.headerState.HContentLength? && (IsDigit(c) ==> n <= LENGTH_LIMIT) && (IsDigit(c) || c == SPACE)
    ensures ValueCore(LengthSoFar(h, n), c) == LengthSoFar(h, if c == SPACE then n else n * 10 + (c - 48))
    ensures !LengthFails(LengthSoFar(h, n), c)
  {
  }

  lemma {:induction false} LengthText(r: Run, text: seq<byte>, t: seq<Call>, v: seq<byte>)
    requires Stands(r, text, t) && IsLengthText(v) && LengthFits(v) && Fresh(t, HeaderValue)
    requires var h := Held(r, text); h.state.DiscardWs? && h.headerState.HContentLength? && !h.flags.contentLength
    requires Charge(r) + |text| + |v| <= HTTP_MAX_HEADER_SIZE
    ensures Stands(r, text + v, t + [Data(HeaderValue, v)]) && Held(r, text + v) == LengthSoFar(Held(r, text), DecimalValue(v))
    decreases |v|
  {
    hide Stands, Held, Charge, Switch, Join, Fresh, IsHeaderChar, ValueCore, LengthFails, LengthFits, LengthSoFar, DecimalValue;
    var init, c := v[..|v| - 1], v[|v| - 1];
    assert text + v == (text + init) + [c];
    if init == [] {
      assert text + init == text && v == [c];
      LengthBegins(r, text, t, c);
    } else {
      LengthSplit(v);
      LastDigit(v);
      LengthText(r, text, t, init);
      LengthDigit(Held(r, text), DecimalValue(init), c);
      assert IsHeaderChar(c) by { DigitIsHeaderChar(c); }
      LengthState(Held(r, text), DecimalValue(init));
      ValueByte(r, text + init, t + [Data(HeaderValue, init)], c);
      JoinMore(t, HeaderValue, init, [c]);
      assert init + [c] == v;
    }
  }

  lemma LengthBegins(r: Run, text: seq<byte>, t: seq<Call>, c: byte)
    requires Stands(r, text, t) && IsDigit(c) && Fresh(t, HeaderValue) && Charge(r) + |text| + 1 <= HTTP_MAX_HEADER_SIZE
    requires var h := Held(r, text); h.state.DiscardWs? && h.headerState.HContentLength? && !h.flags.contentLength
    ensures Stands(r, text + [c], t + [Data(HeaderValue, [c])])
    ensures Held(r, text + [c]) == LengthSoFar(Held(r, text), DecimalValue([c]))
  {
    hide Stands, Held, Charge, Switch, Join, Fresh, LengthSoFar, DecimalValue;
    NoCount(r, text);
    LengthSwitch(Held(r, text), c);
    Outer(r, text, t, c);
    assert t + Notices([]) == t;
    JoinFresh(t, HeaderValue, [c]);
    LengthOne(Held(r, text), [c]);
  }

  lemma LengthOne(h: Parser, v: seq<byte>)
    requires |v| == 1 && IsDigit(v[0]) && h.nread == 0
    ensures LengthSoFar(h, DecimalValue(v))
         == h.(state := Value, index := 0, flags := h.flags.(contentLength := true), contentLength := v[0] - 48)
  {
    assert DecimalValue(v[..0]) == 0;
  }

  lemma LastDigit(v: seq<byte>)
    requires v != []
    ensures var init, c := v[..|v| - 1], v[|v| - 1];
      DecimalValue(v) == if IsDigit(c) then DecimalValue(init) * 10 + (c - 48) else DecimalValue(init)
  {
  }

  lemma LengthState(h: Parser, n: nat)
    ensures LengthSoFar(h, n).state.Value?
  {
  }

  lemma DigitIsHeaderChar(c: byte)
    requires IsDigit(c) || c == SPACE
    ensures IsHeaderChar(c)
  {
  }

  lemma LineEnd(r: Run, text: seq<byte>, t: seq<Call>)
    requires Stands(r, text, t) && Held(r, text).state.Value? && Charge(r) + |text| + 2 <= HTTP_MAX_HEADER_SIZE
    ensures Stands(r, text + [CR] + [LF], t) && Held(r, text + [CR] + [LF]) == Held(r, text).(state := ValueLws)
  {
    hide Stands, Held, Charge, Switch;
    ValueClose(r, text, t);
    NoCount(r, text + [CR]);
    AlmostDoneSwitch(Held(r, text + [CR]));
    Silent(r, text + [CR], t, LF, Held(r, text).(state := ValueLws));
  }

  // Fields

  /** A header field that leaves the body to Content-Length: any but Transfer-Encoding and
      Upgrade, and a Content-Length only when none came before. */
  predicate IsField(f: Line, length: Option<nat>) {
    && IsToken(f.name) && Blanks(f.blanks) && IsValueText(f.value)
    && !Spells(Lowered(f.name), ENCODING) && !Spells(Lowered(f.name), UPGRADE)
    && (Spells(Lowered(f.name), LENGTH) ==> length.None? && IsLengthText(f.value) && LengthFits(f.value))
  }

  function LengthAfter(f: Line, length: Option<nat>): Option<nat> {
    if Spells(Lowered(f.name), LENGTH) then Some(DecimalValue(f.value)) else length
  }

  predicate AreFields(fields: seq<Line>, length: Option<nat>) {
    fields == [] || (IsField(fields[0], length) && AreFields(fields[1..], LengthAfter(fields[0], length)))
  }

  function LengthOf(fields: seq<Line>, length: Option<nat>): Option<nat> {
    if fields == [] then length else LengthOf(fields[1..], LengthAfter(fields[0], length))
  }

  function FieldCalls(fields: seq<Line>): seq<Call> {
    if fields == [] then []
    else [Data(HeaderField, fields[0].name), Data(HeaderValue, fields[0].value)] + FieldCalls(fields[1..])
  }

  /** The flags after a header line. */
  function FlagsAfter(f: Line, flags: Flags): Flags
    requires f.value != []
  {
    var l := Lowered(f.name);
    if Spells(l, LENGTH) then flags.(contentLength := true)
    else if Spells(l, CONNECTION) || Spells(l, PROXY) then HttpConnection.HeardValue(f.value, flags)
    else flags
  }

  /** The flags after all of them. */
  function FlagsOf(fields: seq<Line>, length: Option<nat>, flags: Flags): Flags
    requires AreFields(fields, length)
  {
    if fields == [] then flags else FlagsOf(fields[1..], LengthAfter(fields[0], length), FlagsAfter(fields[0], flags))
  }

  /** Between two header lines of the request whose line left the fields g, with this length
      and these flags so far. */
  predicate Ready(h: Parser, g: Parser, length: Option<nat>, flags: Flags) {
    && LineState(h) && Applied(h) == flags
    && !flags.chunked && !flags.trailing && !flags.upgrade && flags.contentLength == length.Some?
    && h == g.(state := h.state, headerState := h.headerState, index := h.index, flags := h.flags,
               contentLength := if length.Some? then length.value else ULLONG_MAX)
  }

  /** The fields after the name of a header. */
  predicate Named(h: Parser, a: Parser, flags: Flags) {
    a == h.(state := DiscardWs, flags := flags, headerState := a.headerState, index := a.index)
  }

  lemma OtherReady(h: Parser, a: Parser, g: Parser, length: Option<nat>, flags: Flags)
    requires Ready(h, g, length, flags) && Named(h, a, flags)
    ensures Ready(Unread(a).(state := ValueLws), g, length, flags)
  {
  }

  lemma LengthReady(h: Parser, a: Parser, g: Parser, flags: Flags, n: nat)
    requires Ready(h, g, None, flags) && Named(h, a, flags) && a.headerState.HContentLength?
    ensures !a.flags.contentLength && Ready(LengthSoFar(a, n).(state := ValueLws), g, Some(n), flags.(contentLength := true))
  {
  }

  lemma ConnectionReady(h: Parser, a: Parser, q: Parser, g: Parser, length: Option<nat>, flags: Flags, heard: Flags)
    requires Ready(h, g, length, flags) && Named(h, a, flags) && InConnection(a, q) && HttpConnection.Done(q) == heard
    ensures Ready(q.(state := ValueLws), g, length, heard)
  {
    hide Applied;
    assert Applied(q.(state := ValueLws)) == HttpConnection.Done(q) by { AppliedDone(q); }
    assert SameBody(q.flags, heard) by { TameDone(q); }
  }

  lemma AppliedDone(q: Parser)
    ensures Applied(q.(state := ValueLws)) == HttpConnection.Done(q)
  {
  }

  lemma TameDone(q: Parser)
    requires Tame(q.headerState)
    ensures SameBody(q.flags, HttpConnection.Done(q))
  {
  }

  /** A header line, by the kind of its header. */
  lemma LineStands(r: Run, text: seq<byte>, t: seq<Call>, f: Line, g: Parser, length: Option<nat>, flags: Flags)
    requires Stands(r, text, t) && Ready(Held(r, text), g, length, flags) && IsField(f, length) && Fresh(t, HeaderField)
    requires Charge(r) + |text| + |LineText(f)| < HTTP_MAX_HEADER_SIZE
    ensures Stands(r, text + LineText(f), t + [Data(HeaderField, f.name), Data(HeaderValue, f.value)])
    ensures Ready(Held(r, text + LineText(f)), g, LengthAfter(f, length), FlagsAfter(f, flags))
  {
    hide Stands, Held, Charge, Applied, IsToken, Blanks, IsValueText, Spells, Lowered, IsLengthText, LengthFits, Fresh;
    var a := text + f.name + [58];
    var b := a + f.blanks;
    var c := b + f.value;
    var u := t + [Data(HeaderField, f.name)];
    var h, d := Held(r, text), Held(r, a);
    ReadyLine(h, g, length, flags);
    NameAndColon(r, text, t, f.name);
    BlanksText(r, a, u, f.blanks);
    AfterName(t, f.name);
    hide Ready;
    ValueStands(r, b, u, f, h, g, length, flags);
    var v := u + [Data(HeaderValue, f.value)];
    LineEnd(r, c, v);
    assert v == t + [Data(HeaderField, f.name), Data(HeaderValue, f.value)];
    assert c + [CR] + [LF] == text + LineText(f);
  }

  lemma ReadyLine(h: Parser, g: Parser, length: Option<nat>, flags: Flags)
    requires Ready(h, g, length, flags)
    ensures LineState(h) && Applied(h) == flags
  {
  }

  lemma AfterName(t: seq<Call>, name: seq<byte>)
    ensures Fresh(t + [Data(HeaderField, name)], HeaderValue)
  {
  }

  lemma ValueStands(r: Run, text: seq<byte>, t: seq<Call>, f: Line, h: Parser, g: Parser, length: Option<nat>, flags: Flags)
    requires Stands(r, text, t) && Fresh(t, HeaderValue) && Charge(r) + |text| + |f.value| <= HTTP_MAX_HEADER_SIZE
    requires Ready(h, g, length, flags) && Named(h, Held(r, text), flags) && IsField(f, length)
    requires var d, l := Held(r, text), Lowered(f.name);
      && (d.headerState.HContentLength? <==> Spells(l, LENGTH))
      && (d.headerState.HTransferEncoding? <==> Spells(l, ENCODING))
      && (d.headerState.HUpgrade? <==> Spells(l, UPGRADE))
      && (d.headerState.HConnection? <==> Spells(l, CONNECTION) || Spells(l, PROXY))
      && NameState(d.headerState, d.index)
    ensures Stands(r, text + f.value, t + [Data(HeaderValue, f.value)])
    ensures Held(r, text + f.value).state.Value?
    ensures Ready(Held(r, text + f.value).(state := ValueLws), g, LengthAfter(f, length), FlagsAfter(f, flags))
  {
    hide Stands, Held, Charge, IsToken, Blanks, IsValueText, Spells, Lowered, IsLengthText, LengthFits, Fresh, NameState, Ready,
         InConnection, HttpConnection.HeardValue, HttpConnection.Done;
    var d := Held(r, text);
    FieldHasValue(f, length);
    if d.headerState.HContentLength? {
      LengthReady(h, d, g, flags, DecimalValue(f.value));
      LengthText(r, text, t, f.value);
    } else if d.headerState.HConnection? {
      ConnectionText(r, text, t, f.value);
      HttpConnection.ConnectionValue(d, f.value);
      var q := Held(r, text + f.value);
      InConnectionValue(d, q);
      ConnectionReady(h, d, q, g, length, flags, HttpConnection.HeardValue(f.value, flags));
    } else {
      ValueText(r, text, t, f.value);
      OtherReady(h, d, g, length, flags);
    }
  }

  lemma {:induction false} FieldsStand(r: Run, text: seq<byte>, t: seq<Call>, fields: seq<Line>, g: Parser, length: Option<nat>,
                                       flags: Flags)
    requires Stands(r, text, t) && Ready(Held(r, text), g, length, flags) && AreFields(fields, length) && Fresh(t, HeaderField)
    requires Charge(r) + |text| + |LinesText(fields)| < HTTP_MAX_HEADER_SIZE
    ensures Stands(r, text + LinesText(fields), t + FieldCalls(fields))
    ensures Ready(Held(r, text + LinesText(fields)), g, LengthOf(fields, length), FlagsOf(fields, length, flags))
    decreases |fields|
  {
    hide Stands, Held, Charge, Ready, IsField, LengthAfter, FlagsAfter, LineText, Fresh;
    if fields == [] {
      NoFields();
      assert text + [] == text && t + [] == t;
    } else {
      hide LinesText, FieldCalls;
      FieldsUnfold(fields);
      var line, calls := LineText(fields[0]), [Data(HeaderField, fields[0].name), Data(HeaderValue, fields[0].value)];
      LineStands(r, text, t, fields[0], g, length, flags);
      assert Fresh(t + calls, HeaderField) by { AfterValue(t, calls); }
      FieldHasValue(fields[0], length);
      FieldsStand(r, text + line, t + calls, fields[1..], g, LengthAfter(fields[0], length), FlagsAfter(fields[0], flags));
      assert (text + line) + LinesText(fields[1..]) == text + LinesText(fields);
      assert (t + calls) + FieldCalls(fields[1..]) == t + FieldCalls(fields);
    }
  }

  lemma FieldHasValue(f: Line, length: Option<nat>)
    requires IsField(f, length)
    ensures f.value != []
  {
  }

  lemma NoFields()
    ensures LinesText([]) == [] && FieldCalls([]) == []
  {
  }

  lemma FieldsUnfold(fields: seq<Line>)
    requires fields != []
    ensures LinesText(fields) == LineText(fields[0]) + LinesText(fields[1..])
    ensures FieldCalls(fields) == [Data(HeaderField, fields[0].name), Data(HeaderValue, fields[0].value)] + FieldCalls(fields[1..])
  {
    hide LineText;
  }

  lemma AfterValue(t: seq<Call>, calls: seq<Call>)
    requires calls != [] && calls[|calls| - 1].Data? && calls[|calls| - 1].kind.HeaderValue?
    ensures Fresh(t + calls, HeaderField)
  {
  }

  // The request line

  /** The fields once a request has begun. */
  function Fields0(p: Parser, m: Method): Parser {
    p.(nread := 0, flags := NoFlags, contentLength := ULLONG_MAX, verb := m)
  }

  /** A run about to read a request, the callbacks so far being t. */
  predicate AtRequest(r: Run, t: seq<Call>) { Stands(r, [], t) && Held(r, []).state.StartReq? }

  /** The fields inside the method, i of its letters read. */
  function InMethod(p: Parser, m: Method, i: nat): Parser {
    Fields0(p, HttpMethod.Via(m, i)).(state := ReqMethod, index := i)
  }

  lemma {:induction false} MethodText(r: Run, t: seq<Call>, m: Method, text: seq<byte>)
    requires AtRequest(r, t) && text != [] && HttpMethod.Begins(text, Name(m)) && Charge(r) + |text| <= HTTP_MAX_HEADER_SIZE
    ensures Stands(r, text, t + [Notify(MessageBegin)]) && Held(r, text) == InMethod(Held(r, []), m, |text|)
    decreases |text|
  {
    hide Stands, Held, Charge, Name, HttpMethod.Begins, CharAt, InMethod;
    var init, c := text[..|text| - 1], text[|text| - 1];
    assert text == init + [c];
    LastLetter(text, Name(m));
    if init == [] {
      MethodFirst(r, t, m, c);
    } else {
      MethodText(r, t, m, init);
      MethodNext(r, init, t + [Notify(MessageBegin)], Held(r, []), m, c);
    }
  }

  lemma MethodFirst(r: Run, t: seq<Call>, m: Method, c: byte)
    requires AtRequest(r, t) && c == CharAt(Name(m), 0) && Charge(r) < HTTP_MAX_HEADER_SIZE
    ensures Stands(r, [c], t + [Notify(MessageBegin)]) && Held(r, [c]) == InMethod(Held(r, []), m, 1)
  {
    hide Stands, Held, Charge, Switch, Name, HttpMethod.Via, CharAt;
    NoCount(r, []);
    FirstOfMethod(Held(r, []), m, c);
    Outer(r, [], t, c);
    assert [] + [c] == [c];
    assert Notices([MessageBegin]) == [Notify(MessageBegin)];
  }

  lemma MethodNext(r: Run, text: seq<byte>, t: seq<Call>, p: Parser, m: Method, c: byte)
    requires Stands(r, text, t) && 1 <= |text| < |Name(m)| && c == CharAt(Name(m), |text|)
    requires Held(r, text) == InMethod(p, m, |text|) && Charge(r) + |text| < HTTP_MAX_HEADER_SIZE
    ensures Stands(r, text + [c], t) && Held(r, text + [c]) == InMethod(p, m, |text| + 1)
  {
    hide Stands, Held, Charge, Switch, Name, HttpMethod.Via, CharAt;
    NextOfMethod(Held(r, text), m, c);
    Silent(r, text, t, c, InMethod(p, m, |text| + 1));
  }

  lemma LastLetter(text: seq<byte>, name: string)
    requires text != [] && HttpMethod.Begins(text, name)
    ensures var n := |text| - 1; HttpMethod.Begins(text[..n], name) && n < |name| && text[n] == CharAt(name, n)
  {
  }

  lemma FirstOfMethod(p: Parser, m: Method, c: byte)
    requires p.state.StartReq? && c == CharAt(Name(m), 0)
    ensures Switch(p.(nread := 0), c)
         == Go(Fields0(p, HttpMethod.Via(m, 1)).(state := ReqMethod, index := 1)).(notices := [MessageBegin])
  {
    hide Switch, Name, HttpMethod.Via, FirstMethod;
    NameLonger(m);
    HttpMethod.NameBytes(m);
    HttpMethod.ViaStart(m);
    HttpMethod.NameLetter(m, 0);
    HttpMethod.SwitchAtStart(p.(nread := 0), c);
  }

  lemma NextOfMethod(p: Parser, m: Method, c: byte)
    requires p.state.ReqMethod? && 1 <= p.index < |Name(m)| && p.verb == HttpMethod.Via(m, p.index)
    requires c == CharAt(Name(m), p.index)
    ensures Switch(p, c) == Go(p.(index := p.index + 1, verb := HttpMethod.Via(m, p.index + 1)))
  {
    hide Switch, Name, HttpMethod.Via, HttpMethod.TakesLetter, AtMethod;
    NameLonger(m);
    HttpMethod.NameBytes(m);
    HttpMethod.NoSpaceInNames(m);
    HttpMethod.SwitchAtMethod(p, c);
    HttpMethod.ViaWorks(m, p.index);
    HttpMethod.AcceptLetter(p, m, c);
  }

  /** The space after the method. */
  lemma MethodSpace(r: Run, t: seq<Call>, m: Method, text: seq<byte>)
    requires AtRequest(r, t) && HttpMethod.Spells(text, Name(m)) && Charge(r) + |text| < HTTP_MAX_HEADER_SIZE
    ensures Stands(r, text + [SPACE], t + [Notify(MessageBegin)])
    ensures Held(r, text + [SPACE]) == Fields0(Held(r, []), m).(state := SpacesBeforeUrl, index := |text| + 1)
  {
    hide Stands, Held, Charge, Switch, Reroute, Name, HttpMethod.Via;
    NameLonger(m);
    MethodText(r, t, m, text);
    HttpMethod.ViaEnd(m);
    HttpMethod.SwitchAtMethod(Held(r, text), SPACE);
    Silent(r, text, t + [Notify(MessageBegin)], SPACE, Fields0(Held(r, []), m).(state := SpacesBeforeUrl, index := |text| + 1));
  }

  /** The state of the URL after these characters, by the table; Dead when one may not follow. */
  function UrlAfter(url: seq<byte>): State {
    if url == [] then SpacesBeforeUrl else UrlNext(UrlAfter(url[..|url| - 1]), url[|url| - 1])
  }

  predicate IsUrl(url: seq<byte>) { url != [] && !UrlAfter(url).Dead? && !IsUrlHead(UrlAfter(url)) }

  lemma UrlFirst(p: Parser, c: byte)
    requires p.state.SpacesBeforeUrl? && !p.verb.CONNECT? && !UrlNext(SpacesBeforeUrl, c).Dead?
    ensures Switch(p, c) == Go(p.(state := UrlNext(SpacesBeforeUrl, c))).(mark := Marking(Url))
  {
    hide AtStart, AtMethod, AtUrl, AtHttp, AtNumber, AtChunk, AtBodyIdentity, AtHeader;
  }

  lemma UrlMore(p: Parser, c: byte)
    requires IsUrlState(p.state) && !UrlNext(p.state, c).Dead?
    ensures Switch(p, c) == Go(p.(state := UrlNext(p.state, c)))
  {
    hide AtStart, AtMethod, AtSpaces, AtHttp, AtNumber, AtChunk, AtBodyIdentity, AtHeader;
  }

  lemma UrlSpace(p: Parser)
    requires IsUrlState(p.state) && !IsUrlHead(p.state)
    ensures Switch(p, SPACE) == Go(p.(state := HttpStart)).(flush := Pending(Url))
  {
    hide AtStart, AtMethod, AtSpaces, AtHttp, AtNumber, AtChunk, AtBodyIdentity, AtHeader;
  }

  lemma UrlStates(s: State)
    ensures IsUrlState(s) ==> OutsideLoops(s) && ParsingHeader(s) && OpenMark(s) == Mark(Url, [])
  {
  }

  lemma DeadStays(s: State, c: byte)
    ensures s.Dead? ==> UrlNext(s, c).Dead?
  {
  }

  lemma {:induction false} UrlText(r: Run, text: seq<byte>, t: seq<Call>, url: seq<byte>)
    requires Stands(r, text, t) && Fresh(t, Url) && Charge(r) + |text| + |url| <= HTTP_MAX_HEADER_SIZE
    requires var h := Held(r, text); h.state.SpacesBeforeUrl? && !h.verb.CONNECT?
    requires url != [] && !UrlAfter(url).Dead?
    ensures Stands(r, text + url, t + [Data(Url, url)]) && IsUrlState(UrlAfter(url))
    ensures Held(r, text + url) == Held(r, text).(state := UrlAfter(url))
    decreases |url|
  {
    hide Stands, Held, Charge, Switch, Fresh, Join, UrlNext, IsUrlState;
    var init, c := url[..|url| - 1], url[|url| - 1];
    assert text + url == (text + init) + [c];
    UrlStays(UrlAfter(init), c);
    NoCount(r, text);
    if init == [] {
      assert text + init == text && url == [c];
      UrlFirst(Held(r, text), c);
      Outer(r, text, t, c);
      assert t + Notices([]) == t;
      JoinFresh(t, Url, [c]);
    } else {
      DeadStays(UrlAfter(init), c);
      UrlText(r, text, t, init);
      UrlStates(UrlAfter(init));
      UrlMore(Held(r, text + init), c);
      var u := t + [Data(Url, init)];
      Outer(r, text + init, u, c);
      assert u + Notices([]) == u;
      JoinMore(t, Url, init, [c]);
      assert init + [c] == url;
    }
  }

  lemma UrlDone(r: Run, text: seq<byte>, t: seq<Call>)
    requires Stands(r, text, t) && Charge(r) + |text| < HTTP_MAX_HEADER_SIZE
    requires IsUrlState(Held(r, text).state) && !IsUrlHead(Held(r, text).state)
    ensures Stands(r, text + [SPACE], t) && Held(r, text + [SPACE]) == Held(r, text).(state := HttpStart)
  {
    hide Stands, Held, Charge, Switch, Join, IsUrlState;
    NoCount(r, text);
    UrlSpace(Held(r, text));
    UrlStates(Held(r, text).state);
    Outer(r, text, t, SPACE);
    assert t + Notices([]) == t;
  }

  /** The version of the request, and the end of its line. */
  function VersionText(major: nat, minor: nat): (v: seq<byte>)
    requires 1 <= major <= 9 && minor <= 9
    ensures |v| == 10
  {
    [72, 84, 84, 80, 47, 48 + major, 46, 48 + minor, CR, LF]
  }

  /** The fields after i bytes of it. */
  function VersionSoFar(g: Parser, major: nat, minor: nat, i: nat): Parser {
    if i == 0 then g.(state := HttpStart) else if i == 1 then g.(state := HttpH) else if i == 2 then g.(state := HttpHT)
    else if i == 3 then g.(state := HttpHTT) else if i == 4 then g.(state := HttpHTTP) else if i == 5 then g.(state := FirstMajor)
    else
      var a := g.(major := major);
      if i == 6 then a.(state := Major) else if i == 7 then a.(state := FirstMinor)
      else
        var b := a.(minor := minor);
        if i == 8 then b.(state := Minor) else if i == 9 then b.(state := LineAlmostDone) else b.(state := FieldStart)
  }

  lemma HttpLeads(g: Parser, major: nat, minor: nat, i: nat)
    requires 1 <= major <= 9 && minor <= 9 && i < 5
    ensures Switch(VersionSoFar(g, major, minor, i), VersionText(major, minor)[i]) == Go(VersionSoFar(g, major, minor, i + 1))
    ensures var s := VersionSoFar(g, major, minor, i).state; OutsideLoops(s) && ParsingHeader(s) && OpenMark(s).NoMark?
  {
    hide AtStart, AtMethod, AtSpaces, AtUrl, AtNumber, AtChunk, AtBodyIdentity, AtHeader;
  }

  lemma NumberLeads(g: Parser, major: nat, minor: nat, i: nat)
    requires 1 <= major <= 9 && minor <= 9 && 5 <= i < 10
    ensures Switch(VersionSoFar(g, major, minor, i), VersionText(major, minor)[i]) == Go(VersionSoFar(g, major, minor, i + 1))
    ensures var s := VersionSoFar(g, major, minor, i).state; OutsideLoops(s) && ParsingHeader(s) && OpenMark(s).NoMark?
  {
    hide AtStart, AtMethod, AtSpaces, AtUrl, AtHttp, AtChunk, AtBodyIdentity, AtHeader;
  }

  lemma {:induction false} VersionStands(r: Run, text: seq<byte>, t: seq<Call>, g: Parser, major: nat, minor: nat, i: nat)
    requires 1 <= major <= 9 && minor <= 9 && i <= 10 && g.nread == 0
    requires Stands(r, text, t) && Held(r, text) == g.(state := HttpStart) && Charge(r) + |text| + i <= HTTP_MAX_HEADER_SIZE
    ensures Stands(r, text + VersionText(major, minor)[..i], t)
    ensures Held(r, text + VersionText(major, minor)[..i]) == VersionSoFar(g, major, minor, i)
    decreases i
  {
    hide Stands, Held, Charge, Switch, VersionText;
    var v := VersionText(major, minor);
    if i == 0 {
      assert text + v[..0] == text;
    } else {
      VersionStands(r, text, t, g, major, minor, i - 1);
      hide VersionSoFar;
      if i <= 5 { HttpLeads(g, major, minor, i - 1); } else { NumberLeads(g, major, minor, i - 1); }
      assert VersionSoFar(g, major, minor, i).nread == 0 by { VersionCount(g, major, minor, i); }
      Silent(r, text + v[..i - 1], t, v[i - 1], VersionSoFar(g, major, minor, i));
      assert (text + v[..i - 1]) + [v[i - 1]] == text + v[..i];
    }
  }

  lemma VersionCount(g: Parser, major: nat, minor: nat, i: nat)
    ensures VersionSoFar(g, major, minor, i).nread == g.nread
  {
  }

  // The end of the headers

  lemma EmptyLineLeads(h: Parser)
    requires LineState(h)
    ensures Switch(h, CR) == Go(h.(state := HeadersAlmostDone, flags := Applied(h)))
  {
    hide AtStart, AtMethod, AtSpaces, AtUrl, AtHttp, AtNumber, AtChunk, AtBodyIdentity, AtValueStart,
         AtDiscardLws, AtDiscardWs, AtHeadersAlmostDone, AtHeadersDone, FinishedFlags;
  }

  /** What the last LF of the headers does when neither a chunked body nor an upgrade was asked for. */
  lemma HeadersEnd(p: Parser)
    requires p.state.HeadersAlmostDone? && !p.flags.chunked && !p.flags.trailing && !p.flags.upgrade && !p.verb.CONNECT?
    ensures var g := p.(upgrade := false);
      Switch(p, LF) ==
        if p.contentLength == 0 || p.contentLength == ULLONG_MAX
        then Go(g.(state := NewMessage(g))).(notices := [HeadersComplete, MessageComplete], reset := true)
        else Go(g.(state := BodyIdentity)).(notices := [HeadersComplete], reset := true)
  {
    hide AtStart, AtMethod, AtSpaces, AtUrl, AtHttp, AtNumber, AtChunk, AtBodyIdentity, AtFieldStart, AtValueStart,
         AtDiscardLws, AtDiscardWs, AtValueLws;
  }

  function BodyLength(length: Option<nat>): nat { if length.Some? then length.value else 0 }

  /** The state http_should_keep_alive leaves after the message. */
  predicate Ended(s: State, p: Parser) { s == if Persists(p.major, p.minor, p.flags) then StartReq else Dead }

  lemma EndsSo(p: Parser)
    ensures Ended(NewMessage(p), p)
  {
  }

  predicate SameLine(p: Parser, g: Parser) { p.verb == g.verb && p.major == g.major && p.minor == g.minor }

  /** The empty line after the fields. */
  lemma EmptyLineStands(r: Run, text: seq<byte>, t: seq<Call>, g: Parser, length: Option<nat>, flags: Flags)
    requires Stands(r, text, t) && Ready(Held(r, text), g, length, flags) && Charge(r) + |text| < HTTP_MAX_HEADER_SIZE
    ensures var q := Held(r, text + [CR]);
      && Stands(r, text + [CR], t) && q.state.HeadersAlmostDone? && SameLine(q, g) && q.flags == flags
      && !flags.chunked && !flags.trailing && !flags.upgrade
      && q.contentLength == if length.Some? then length.value else ULLONG_MAX
  {
    hide Stands, Held, Charge, Switch, Applied;
    var h := Held(r, text);
    NoCount(r, text);
    EmptyLineLeads(h);
    Silent(r, text, t, CR, h.(state := HeadersAlmostDone, flags := Applied(h)));
  }

  /** After the headers: the body is awaited, or the message is over. */
  lemma HeadersStand(r: Run, text: seq<byte>, t: seq<Call>, g: Parser, length: Option<nat>, flags: Flags)
    requires Stands(r, text, t) && Ready(Held(r, text), g, length, flags) && !g.verb.CONNECT?
    requires length.Some? ==> length.value < ULLONG_MAX
    requires Charge(r) + |text| + 2 <= HTTP_MAX_HEADER_SIZE
    ensures var q, n := Feed(r, text + [CR] + [LF]), BodyLength(length);
      && RunInv(q) && q.halt.Running? && Clean(r, text + [CR] + [LF]) && !q.p.upgrade && q.mark.NoMark?
      && SameLine(q.p, g) && q.p.flags == flags && q.p.nread == 0
      && (n > 0 ==> q.p.state.BodyIdentity? && q.p.contentLength == n && JoinAll([], q.calls) == t + [Notify(HeadersComplete)])
      && (n == 0 ==> Ended(q.p.state, q.p) && JoinAll([], q.calls) == t + [Notify(HeadersComplete), Notify(MessageComplete)])
  {
    hide Step, RunInv, Feed, Clean, Switch, Ready, Charge, Ended;
    EmptyLineStands(r, text, t, g, length, flags);
    var a := Feed(r, text + [CR]);
    OneMore(r, text + [CR], t, LF);
    RestCharge(a);
    RestCore(a);
    HeadersEnd(Core(a));
    EndsSo(Core(a).(upgrade := false));
    LastByte(a, t);
    LastNotices();
    EndedAlike();
    assert CleanByte(a.p, LF);
  }

  lemma EndedAlike()
    ensures forall s: State, p: Parser, q: Parser :: p.major == q.major && p.minor == q.minor && p.flags == q.flags ==> Ended(s, p) == Ended(s, q)
  {
  }

  /** The last LF, spelled out. */
  lemma LastByte(a: Run, t: seq<Call>)
    requires RunInv(a) && a.halt.Running? && a.p.state.HeadersAlmostDone? && Trace([], a) == t && a.p.nread < HTTP_MAX_HEADER_SIZE
    requires var act := Switch(a.p.(nread := 0), LF);
      !act.halt.Failed? && act.flush.NoFlush? && act.mark.NoMarking? && act.reset
    ensures var q, act := Step(a, LF), Switch(a.p.(nread := 0), LF);
      RunInv(q) && q.p == act.p.(nread := 0) && q.halt == act.halt && q.mark.NoMark? && JoinAll([], q.calls) == t + Notices(act.notices)
  {
    hide Step, RunInv, Switch, JoinAll, Notices, Charge;
    AtRest(a);
    PlainStep(a, LF);
    var act := Switch(a.p.(nread := 0), LF);
    assert a.calls + ([] + Notices(act.notices)) == a.calls + Notices(act.notices);
    JoinConcat([], a.calls, Notices(act.notices));
    JoinNotices(t, act.notices);
  }

  lemma LastNotices()
    ensures Notices([HeadersComplete]) == [Notify(HeadersComplete)]
    ensures Notices([HeadersComplete, MessageComplete]) == [Notify(HeadersComplete), Notify(MessageComplete)]
  {
  }

  // Whole requests

  datatype Request = Request(verb: Method, url: seq<byte>, major: nat, minor: nat, fields: seq<Line>, body: seq<byte>)

  /** The length announced is that of the body. */
  predicate IsRequest(q: Request) {
    && !q.verb.CONNECT? && IsUrl(q.url) && 1 <= q.major <= 9 && q.minor <= 9 && AreFields(q.fields, None)
    && |q.body| == BodyLength(LengthOf(q.fields, None))
  }

  function Spelled(m: Method): (s: seq<byte>)
    ensures HttpMethod.Spells(s, Name(m))
  {
    HttpMethod.NameBytes(m);
    seq(|Name(m)|, i requires 0 <= i < |Name(m)| => Name(m)[i] as int)
  }

  function RequestLine(q: Request): seq<byte>
    requires IsRequest(q)
  {
    Spelled(q.verb) + [SPACE] + q.url + [SPACE] + VersionText(q.major, q.minor)
  }

  /** The headers but for the last LF. */
  function Head(q: Request): seq<byte>
    requires IsRequest(q)
  {
    RequestLine(q) + LinesText(q.fields) + [CR]
  }

  function RequestText(q: Request): seq<byte>
    requires IsRequest(q)
  {
    Head(q) + [LF] + q.body
  }

  /** What the user's callbacks are to be given. */
  function RequestCalls(q: Request): seq<Call> {
    [Notify(MessageBegin), Data(Url, q.url)] + FieldCalls(q.fields) + [Notify(HeadersComplete)]
    + (if q.body == [] then [] else [Data(Body, q.body)]) + [Notify(MessageComplete)]
  }

  lemma {:induction false} FitsBound(v: seq<byte>)
    requires IsLengthText(v) && LengthFits(v)
    ensures DecimalValue(v) < ULLONG_MAX
    decreases |v|
  {
    if |v| == 1 {
      assert DecimalValue(v[..0]) == 0;
    } else {
      LengthSplit(v);
      FitsBound(v[..|v| - 1]);
    }
  }

  lemma {:induction false} LengthBound(fields: seq<Line>, length: Option<nat>)
    requires AreFields(fields, length) && (length.Some? ==> length.value < ULLONG_MAX)
    ensures var n := LengthOf(fields, length); n.Some? ==> n.value < ULLONG_MAX
    decreases |fields|
  {
    hide IsToken, Blanks, IsValueText, Spells, Lowered, IsLengthText, LengthFits, DecimalValue;
    if fields != [] {
      if Spells(Lowered(fields[0].name), LENGTH) { FitsBound(fields[0].value); }
      LengthBound(fields[1..], LengthAfter(fields[0], length));
    }
  }

  lemma RequestLineStands(r: Run, t: seq<Call>, q: Request)
    requires AtRequest(r, t) && IsRequest(q) && Charge(r) + |RequestLine(q)| <= HTTP_MAX_HEADER_SIZE
    ensures Stands(r, RequestLine(q), t + [Notify(MessageBegin)] + [Data(Url, q.url)])
    ensures var h := Held(r, RequestLine(q));
      Ready(h, h, None, NoFlags) && h.verb == q.verb && h.major == q.major && h.minor == q.minor
  {
    hide Stands, Held, Charge, AreFields, UrlAfter, VersionText, Spelled, IsUrlState, IsUrlHead, LengthOf, AtRequest;
    var a, p := Spelled(q.verb) + [SPACE], Held(r, []);
    var u := t + [Notify(MessageBegin)];
    var v := u + [Data(Url, q.url)];
    NoCount(r, []);
    MethodSpace(r, t, q.verb, Spelled(q.verb));
    UrlText(r, a, u, q.url);
    UrlDone(r, a + q.url, v);
    var b := a + q.url + [SPACE];
    var g := Fields0(p, q.verb).(index := |Spelled(q.verb)| + 1);
    VersionStands(r, b, v, g, q.major, q.minor, 10);
    assert VersionText(q.major, q.minor)[..10] == VersionText(q.major, q.minor);
    assert b + VersionText(q.major, q.minor) == RequestLine(q);
  }

  lemma HeadStands(r: Run, t: seq<Call>, q: Request)
    requires AtRequest(r, t) && IsRequest(q) && Charge(r) + |Head(q)| < HTTP_MAX_HEADER_SIZE
    ensures var s, u := Feed(r, Head(q) + [LF]), t + [Notify(MessageBegin)] + [Data(Url, q.url)] + FieldCalls(q.fields);
      && RunInv(s) && s.halt.Running? && Clean(r, Head(q) + [LF]) && !s.p.upgrade && s.mark.NoMark?
      && s.p.verb == q.verb && s.p.major == q.major && s.p.minor == q.minor && s.p.flags == FlagsOf(q.fields, None, NoFlags)
      && s.p.nread == 0
      && (|q.body| > 0 ==> s.p.state.BodyIdentity? && s.p.contentLength == |q.body|
                           && JoinAll([], s.calls) == u + [Notify(HeadersComplete)])
      && (|q.body| == 0 ==> Ended(s.p.state, s.p)
                            && JoinAll([], s.calls) == u + [Notify(HeadersComplete), Notify(MessageComplete)])
  {
    hide Stands, Held, Charge, Ready, RequestLine, RunInv, Clean, Feed, IsUrl, AreFields, LinesText, FieldCalls, LengthOf, FlagsOf,
         AtRequest, Ended;
    var u := t + [Notify(MessageBegin)] + [Data(Url, q.url)];
    RequestLineStands(r, t, q);
    var g := Held(r, RequestLine(q));
    FieldsStand(r, RequestLine(q), u, q.fields, g, None, NoFlags);
    LengthBound(q.fields, None);
    HeadersStand(r, RequestLine(q) + LinesText(q.fields), u + FieldCalls(q.fields), g, LengthOf(q.fields, None),
                 FlagsOf(q.fields, None, NoFlags));
  }

  /** The connection is kept open after the request. */
  predicate KeepsOpen(q: Request)
    requires IsRequest(q)
  {
    Persists(q.major, q.minor, FlagsOf(q.fields, None, NoFlags))
  }

  /** Where a run stands that has read a request. */
  predicate Finished(e: Run, t: seq<Call>, q: Request)
    requires IsRequest(q)
  {
    && RunInv(e) && e.halt.Running? && e.mark.NoMark? && JoinAll([], e.calls) == t && e.p.nread == 0 && e.inner == 0
    && e.p.verb == q.verb && e.p.state == if KeepsOpen(q) then StartReq else Dead
  }

  /** A request, from wherever the call it comes in began. */
  lemma RequestRun(r: Run, t: seq<Call>, q: Request)
    requires AtRequest(r, t) && IsRequest(q) && Charge(r) + |Head(q)| < HTTP_MAX_HEADER_SIZE
    ensures Finished(Feed(r, RequestText(q)), t + RequestCalls(q), q) && Clean(r, RequestText(q))
  {
    hide RunInv, Clean, Feed, Head, IsRequest, FieldCalls, JoinAll, AtRequest, Charge, Ended, KeepsOpen, FlagsOf, RequestCalls;
    var s := Feed(r, Head(q) + [LF]);
    HeadStands(r, t, q);
    FeedConcat(r, Head(q) + [LF], q.body);
    var e := Feed(s, q.body);
    if q.body == [] {
      FeedNothing(s);
      assert Head(q) + [LF] + q.body == Head(q) + [LF];
      NoBody(t, q);
    } else {
      BodyRun(s, q.body);
      EndsSo(s.p);
      OutsideIsClean(s, q.body);
      CleanJoin(r, Head(q) + [LF], q.body);
      WithBody(t, q, s.calls);
    }
    EndedSo(s.p, e.p.state, q);
    RestInner(e);
  }

  lemma EndedSo(p: Parser, s: State, q: Request)
    requires IsRequest(q) && p.major == q.major && p.minor == q.minor && p.flags == FlagsOf(q.fields, None, NoFlags) && Ended(s, p)
    ensures s == if KeepsOpen(q) then StartReq else Dead
  {
    hide FlagsOf, IsRequest;
  }

  lemma NoBody(t: seq<Call>, q: Request)
    requires q.body == []
    ensures t + [Notify(MessageBegin)] + [Data(Url, q.url)] + FieldCalls(q.fields) + [Notify(HeadersComplete), Notify(MessageComplete)]
         == t + RequestCalls(q)
  {
    hide FieldCalls;
  }

  lemma WithBody(t: seq<Call>, q: Request, calls: seq<Call>)
    requires q.body != []
    requires JoinAll([], calls)
          == t + [Notify(MessageBegin)] + [Data(Url, q.url)] + FieldCalls(q.fields) + [Notify(HeadersComplete)]
    ensures JoinAll([], calls + [Data(Body, q.body), Notify(MessageComplete)]) == t + RequestCalls(q)
  {
    hide FieldCalls, JoinAll;
    var u := JoinAll([], calls);
    var a, b := Data(Body, q.body), Notify(MessageComplete);
    assert calls + [a, b] == (calls + [a]) + [b];
    JoinSnoc([], calls + [a], b);
    JoinSnoc([], calls, a);
    JoinFresh(u, Body, q.body);
    assert (u + [a]) + [b] == t + RequestCalls(q);
  }

  // Connections

  /** Requests one after the other on one connection: each but the last keeps it open, and
      the header of each fits the limit, beside `used` bytes for the first. */
  predicate AreRequests(qs: seq<Request>, used: int)
    decreases |qs|
  {
    qs == [] ||
    (IsRequest(qs[0]) && used + |Head(qs[0])| < HTTP_MAX_HEADER_SIZE && (|qs| > 1 ==> KeepsOpen(qs[0])) && AreRequests(qs[1..], 0))
  }

  function RequestsText(qs: seq<Request>, used: int): seq<byte>
    requires AreRequests(qs, used)
    decreases |qs|
  {
    if qs == [] then [] else RequestText(qs[0]) + RequestsText(qs[1..], 0)
  }

  function RequestsCalls(qs: seq<Request>): seq<Call> {
    if qs == [] then [] else RequestCalls(qs[0]) + RequestsCalls(qs[1..])
  }

  lemma {:induction false} RequestsRun(r: Run, t: seq<Call>, qs: seq<Request>)
    requires AtRequest(r, t) && qs != [] && AreRequests(qs, Charge(r))
    ensures var e, q := Feed(r, RequestsText(qs, Charge(r))), qs[|qs| - 1];
      IsRequest(q) && Finished(e, t + RequestsCalls(qs), q) && Clean(r, RequestsText(qs, Charge(r)))
    decreases |qs|
  {
    hide Feed, Clean, IsRequest, Head, KeepsOpen, RequestCalls, RequestText, AtRequest, Charge, Finished;
    var q, rest := qs[0], qs[1..];
    RequestRun(r, t, q);
    var u, a, b := t + RequestCalls(q), RequestText(q), RequestsText(rest, 0);
    var e := Feed(r, a);
    FeedConcat(r, a, b);
    if rest == [] {
      OneRequest(qs);
      assert a + [] == a;
      FeedNothing(e);
    } else {
      NextRequest(e, u, q);
      RequestsRun(e, u, rest);
      CleanJoin(r, a, b);
      assert u + RequestsCalls(rest) == t + RequestsCalls(qs);
    }
  }

  lemma OneRequest(qs: seq<Request>)
    requires |qs| == 1
    ensures RequestsCalls(qs) == RequestCalls(qs[0])
  {
    hide RequestCalls;
    assert RequestsCalls([]) == [];
    assert RequestCalls(qs[0]) + [] == RequestCalls(qs[0]);
  }

  lemma NextRequest(e: Run, t: seq<Call>, q: Request)
    requires IsRequest(q) && Finished(e, t, q) && KeepsOpen(q)
    ensures AtRequest(e, t) && Charge(e) == 0
  {
    hide RunInv, IsRequest, KeepsOpen, JoinAll, Step;
    FeedNothing(e);
    RestCore(e);
  }

  lemma AtBeginning(p: Parser)
    requires Inv(p) && p.state.StartReq?
    ensures AtRequest(Begin(p), []) && Charge(Begin(p)) == p.nread && Begin(p).consumed == 0
  {
    hide Inv, Step;
    BeginGood(p);
    BeginRuns(p);
    FeedNothing(Begin(p));
  }

  /** All of them in one call. */
  lemma RequestsWhole(p: Parser, qs: seq<Request>)
    requires Inv(p) && p.state.StartReq? && qs != [] && AreRequests(qs, p.nread)
    ensures var text := RequestsText(qs, p.nread); var whole := Execute(p, text);
      && whole.p.errno.Ok? && whole.consumed == |text| && text != [] && Clean(Begin(p), text)
      && Merge(whole.calls) == RequestsCalls(qs)
      && IsRequest(qs[|qs| - 1]) && whole.p.state == if KeepsOpen(qs[|qs| - 1]) then StartReq else Dead
  {
    hide Inv, Begin, RunInv, Clean, Feed, Head, IsRequest, KeepsOpen, JoinAll, Finish, RequestsCalls, AtRequest, Charge;
    AtBeginning(p);
    var r, text := Begin(p), RequestsText(qs, p.nread);
    RequestsRun(r, [], qs);
    assert [] + RequestsCalls(qs) == RequestsCalls(qs);
    InvOk(p);
    BeginRuns(p);
    Consumption(r, text);
    AtDeadOrStart(Feed(r, text));
  }

  /** Requests in pieces. Exactly when the pieces stay within the header limit they are
      accepted, and then the callbacks, merged, give of every request in turn its URL, its
      names and values and its body, whole and in order, and one completion; and the
      connection is kept open or not as the last request asked. */
  lemma RequestsMessage(p: Parser, qs: seq<Request>, pieces: seq<seq<byte>>)
    requires Inv(p) && p.state.StartReq? && qs != [] && AreRequests(qs, p.nread)
    requires Concat(pieces) == RequestsText(qs, p.nread) && forall i :: 0 <= i < |pieces| ==> pieces[i] != []
    ensures var all := ExecuteAll(p, pieces);
      && (all.p.errno.Ok? <==> CutFits(Begin(p), 0, pieces))
      && (!all.p.errno.Ok? <==> all.p.errno.HeaderOverflow?)
      && (all.p.errno.Ok? ==>
            && Merge(all.calls) == RequestsCalls(qs) && all.consumed == |Concat(pieces)|
            && IsRequest(qs[|qs| - 1]) && all.p.state == if KeepsOpen(qs[|qs| - 1]) then StartReq else Dead)
  {
    hide Inv, IsRequest, KeepsOpen, Head, Clean, Begin, Execute, ExecuteAll, CutFits, Merge, RequestsCalls, RequestsText, AreRequests;
    RequestsWhole(p, qs);
    CutExactly(p, pieces);
  }
}
