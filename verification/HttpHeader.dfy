/** Which headers the parser recognises: exactly those whose names and values spell the
    words it knows, in any case, whatever the matchers do on the way. */
module HttpHeader {
  import opened Bytes
  import opened HttpTypes
  import opened HttpMachine
  import opened HttpInvariant
  import opened HttpCut
  import opened HttpMessage

  predicate Prefix(t: seq<byte>, s: string) { |t| <= |s| && forall k :: 0 <= k < |t| ==> t[k] == s[k] as int }

  predicate Spells(t: seq<byte>, s: string) { |t| == |s| && Prefix(t, s) }

  lemma PrefixSnoc(t: seq<byte>, c: byte, s: string)
    ensures Prefix(t + [c], s) <==> Prefix(t, s) && |t| < |s| && c == CharAt(s, |t|)
  {
    var u := t + [c];
    assert u[|t|] == c && forall k :: 0 <= k < |t| ==> u[k] == t[k];
  }

  const CONNECTION := "connection"
  const PROXY := "proxy-connection"
  const LENGTH := "content-length"
  const ENCODING := "transfer-encoding"
  const UPGRADE := "upgrade"
  const CHUNKED := "chunked"

  /** The state of the name matcher after the lower-case text t. */
  function NameSoFar(t: seq<byte>): HeaderState
    requires t != []
  {
    if Prefix(t, CONNECTION) then
      if |t| == 10 then HConnection else if |t| == 1 then HC else if |t| == 2 then HCO else if |t| == 3 then HCON
      else HMatchingConnection
    else if Prefix(t, LENGTH) then if |t| == 14 then HContentLength else HMatchingContentLength
    else if Prefix(t, PROXY) then if |t| == 16 then HConnection else HMatchingProxyConnection
    else if Prefix(t, ENCODING) then if |t| == 17 then HTransferEncoding else HMatchingTransferEncoding
    else if Prefix(t, UPGRADE) then if |t| == 7 then HUpgrade else HMatchingUpgrade
    else HGeneral
  }

  /** Which words can begin alike. */
  lemma Apart(t: seq<byte>)
    requires t != []
    ensures Prefix(t, CONNECTION) && Prefix(t, LENGTH) ==> |t| <= 3
    ensures |t| <= 3 ==> (Prefix(t, CONNECTION) <==> Prefix(t, LENGTH))
    ensures Prefix(t, PROXY) ==> t[0] == 112
    ensures Prefix(t, ENCODING) ==> t[0] == 116
    ensures Prefix(t, UPGRADE) ==> t[0] == 117
    ensures Prefix(t, CONNECTION) || Prefix(t, LENGTH) ==> t[0] == 99
  {
    assert CONNECTION[3] as int == 110 && LENGTH[3] as int == 116;
    assert forall k :: 0 <= k < 3 ==> CONNECTION[k] == LENGTH[k];
  }

  lemma Lengths()
    ensures |CONNECTION| == 10 && |LENGTH| == 14 && |PROXY| == 16 && |ENCODING| == 17 && |UPGRADE| == 7
    ensures CharAt(CONNECTION, 1) == 111 && CharAt(CONNECTION, 2) == 110 && CharAt(CONNECTION, 3) == 110
    ensures CharAt(LENGTH, 3) == 116
  {
  }

  /** One more letter, after a c. */
  lemma NameStepC(t: seq<byte>, i: nat, ch: byte, c: byte)
    requires t != [] && t[0] == 99 && ch != SPACE && (!NameSoFar(t).HGeneral? ==> i == |t| - 1)
    ensures var (h, j) := MatchName(NameSoFar(t), i, ch, c);
      h == NameSoFar(t + [c]) && (!h.HGeneral? ==> j == |t|)
  {
    hide Prefix, CharAt;
    Lengths();
    Apart(t);
    Apart(t + [c]);
    PrefixSnoc(t, c, CONNECTION);
    PrefixSnoc(t, c, LENGTH);
    assert (t + [c])[0] == t[0];
    if !NameSoFar(t).HGeneral? { PrefixShort(t); }
  }

  /** After a p. */
  lemma NameStepP(t: seq<byte>, i: nat, ch: byte, c: byte)
    requires t != [] && t[0] == 112 && ch != SPACE && (!NameSoFar(t).HGeneral? ==> i == |t| - 1)
    ensures var (h, j) := MatchName(NameSoFar(t), i, ch, c);
      h == NameSoFar(t + [c]) && (!h.HGeneral? ==> j == |t|)
  {
    hide Prefix, CharAt;
    Lengths();
    Apart(t);
    Apart(t + [c]);
    PrefixSnoc(t, c, PROXY);
    assert (t + [c])[0] == t[0];
    if !NameSoFar(t).HGeneral? { PrefixShort(t); }
  }

  /** After a t. */
  lemma NameStepT(t: seq<byte>, i: nat, ch: byte, c: byte)
    requires t != [] && t[0] == 116 && ch != SPACE && (!NameSoFar(t).HGeneral? ==> i == |t| - 1)
    ensures var (h, j) := MatchName(NameSoFar(t), i, ch, c);
      h == NameSoFar(t + [c]) && (!h.HGeneral? ==> j == |t|)
  {
    hide Prefix, CharAt;
    Lengths();
    Apart(t);
    Apart(t + [c]);
    PrefixSnoc(t, c, ENCODING);
    assert (t + [c])[0] == t[0];
    if !NameSoFar(t).HGeneral? { PrefixShort(t); }
  }

  /** After a u. */
  lemma NameStepU(t: seq<byte>, i: nat, ch: byte, c: byte)
    requires t != [] && t[0] == 117 && ch != SPACE && (!NameSoFar(t).HGeneral? ==> i == |t| - 1)
    ensures var (h, j) := MatchName(NameSoFar(t), i, ch, c);
      h == NameSoFar(t + [c]) && (!h.HGeneral? ==> j == |t|)
  {
    hide Prefix, CharAt;
    Lengths();
    Apart(t);
    Apart(t + [c]);
    PrefixSnoc(t, c, UPGRADE);
    assert (t + [c])[0] == t[0];
    if !NameSoFar(t).HGeneral? { PrefixShort(t); }
  }

  /** One more letter. */
  lemma NameStep(t: seq<byte>, i: nat, ch: byte, c: byte)
    requires t != [] && ch != SPACE && (!NameSoFar(t).HGeneral? ==> i == |t| - 1)
    ensures var (h, j) := MatchName(NameSoFar(t), i, ch, c);
      h == NameSoFar(t + [c]) && (!h.HGeneral? ==> j == |t|)
  {
    hide Prefix, Compare;
    if t[0] == 99 { NameStepC(t, i, ch, c); }
    else if t[0] == 112 { NameStepP(t, i, ch, c); }
    else if t[0] == 116 { NameStepT(t, i, ch, c); }
    else if t[0] == 117 { NameStepU(t, i, ch, c); }
    else {
      Apart(t);
      Apart(t + [c]);
      assert (t + [c])[0] == t[0];
    }
  }

  lemma PrefixShort(t: seq<byte>)
    requires t != [] && !NameSoFar(t).HGeneral?
    ensures |t| <= 17
  {
  }

  lemma NameFirst(c: byte)
    ensures FirstLetter(c) == NameSoFar([c])
  {
    hide Prefix;
    Lengths();
    FirstOnly(c, CONNECTION);
    FirstOnly(c, LENGTH);
    FirstOnly(c, PROXY);
    FirstOnly(c, ENCODING);
    FirstOnly(c, UPGRADE);
    assert CONNECTION[0] == 'c' && LENGTH[0] == 'c' && PROXY[0] == 'p' && ENCODING[0] == 't' && UPGRADE[0] == 'u';
  }

  lemma FirstOnly(c: byte, s: string)
    requires s != ""
    ensures Prefix([c], s) <==> c == s[0] as int
  {
  }

  /** A token in lower case. */
  function Lowered(text: seq<byte>): (t: seq<byte>)
    ensures |t| == |text|
  {
    seq(|text|, i requires 0 <= i < |text| => Token(text[i]))
  }

  predicate IsToken(text: seq<byte>) { text != [] && forall i :: 0 <= i < |text| ==> Token(text[i]) != 0 }

  /** The run is inside the name `text`. */
  predicate ReadsName(r: Run, text: seq<byte>)
    requires text != []
  {
    && RunInv(r) && r.halt.Running? && r.p.state.Field?
    && Core(r).headerState == NameSoFar(Lowered(text))
    && (!NameSoFar(Lowered(text)).HGeneral? ==> Core(r).index == |text| - 1)
  }

  /** Where a header line may begin: after the request line, or after another header. */
  predicate AtLine(r: Run) { RunInv(r) && r.halt.Running? && (r.p.state.FieldStart? || r.p.state.ValueLws?) }

  lemma FirstByte(r: Run, c: byte)
    requires AtLine(r) && Token(c) != 0 && r.p.nread < HTTP_MAX_HEADER_SIZE
    ensures ReadsName(Step(r, c), [c])
  {
    hide Switch, Step, RunInv, Token, NameSoFar;
    PlainStep(r, c);
    AtRest(r);
    FieldStartSwitch(r.p.(nread := 0), c);
    NameFirst(Token(c));
    assert Lowered([c]) == [Token(c)];
    CoreAtField(Step(r, c));
  }

  lemma FieldStartSwitch(p: Parser, c: byte)
    requires (p.state.FieldStart? || p.state.ValueLws?) && Token(c) != 0
    ensures var f := if p.state.ValueLws? then FinishedFlags(p.headerState, p.flags) else p.flags;
      Switch(p, c) == To(p.(flags := f, index := 0, headerState := FirstLetter(Token(c))), Field).(mark := Marking(HeaderField))
  {
    hide AtStart, AtMethod, AtSpaces, AtUrl, AtHttp, AtNumber, AtChunk, AtBodyIdentity, AtValueStart,
         AtDiscardLws, AtDiscardWs, AtHeadersAlmostDone, AtHeadersDone, FirstLetter, FinishedFlags;
    assert Token(CR) == 0 && Token(LF) == 0 && Token(SPACE) == 0 && Token(TAB) == 0;
  }

  lemma CoreAtField(r: Run)
    requires r.p.state.Field?
    ensures Core(r) == r.p.(nread := 0)
  {
  }

  lemma NextByte(r: Run, text: seq<byte>, c: byte)
    requires text != [] && ReadsName(r, text) && Token(c) != 0 && !Step(r, c).p.errno.HeaderOverflow?
    ensures ReadsName(Step(r, c), text + [c])
  {
    hide Step, RunInv, Token, NameSoFar, MatchName;
    FieldReach(r);
    FieldToken([], r, c);
    StepGood(r, c);
    CoreAtField(r);
    assert Token(SPACE) == 0 by { SpaceIsNoToken(); }
    NameStep(Lowered(text), Core(r).index, c, Token(c));
    assert Lowered(text + [c]) == Lowered(text) + [Token(c)];
  }

  lemma SpaceIsNoToken()
    ensures Token(SPACE) == 0 && Token(58) == 0
  {
  }

  lemma FieldReach(r: Run)
    requires RunInv(r) && r.halt.Running? && r.p.state.Field?
    ensures InReach(r)
  {
    hide Inv, MarkFits;
  }

  lemma {:induction false} NameRun(r: Run, text: seq<byte>)
    requires AtLine(r) && IsToken(text)
    requires r.p.nread + |text| < HTTP_MAX_HEADER_SIZE
    ensures ReadsName(Feed(r, text), text)
    decreases |text|
  {
    hide Step, RunInv, Feed, ReadsName, Token, NameSoFar;
    var init, c := text[..|text| - 1], text[|text| - 1];
    FeedSnoc(r, text);
    if init == [] {
      FeedNothing(r);
      FirstByte(r, c);
      assert text == [c];
    } else {
      NameRun(r, init);
      ReadsRunning(Feed(r, init), init);
      RestInner(r);
      NoOverflowHere(r, text);
      NextByte(Feed(r, init), init, c);
      assert text == init + [c];
    }
  }

  lemma ReadsRunning(r: Run, text: seq<byte>)
    requires text != [] && ReadsName(r, text)
    ensures r.halt.Running?
  {
  }

  /** A header name, up to its colon, is recognised as one of the five the parser knows
      exactly when it spells one of them in any case. */
  lemma HeaderName(r: Run, text: seq<byte>)
    requires AtLine(r) && IsToken(text)
    requires r.p.nread + |text| + 1 < HTTP_MAX_HEADER_SIZE
    ensures var q := Feed(r, text + [58]); var t := Lowered(text); var h := q.p.headerState;
      && q.halt.Running? && q.p.state.DiscardWs?
      && (h.HConnection? <==> Spells(t, CONNECTION) || Spells(t, PROXY))
      && (h.HContentLength? <==> Spells(t, LENGTH))
      && (h.HTransferEncoding? <==> Spells(t, ENCODING))
      && (h.HUpgrade? <==> Spells(t, UPGRADE))
  {
    hide Step, RunInv, Feed, Token, NameSoFar;
    NameRun(r, text);
    var q := Feed(r, text);
    FeedSnoc(r, text + [58]);
    assert (text + [58])[..|text|] == text;
    RestInner(r);
    NoOverflowHere(r, text + [58]);
    FieldReach(q);
    SpaceIsNoToken();
    FieldEnd([], q, 58);
    Complete(Lowered(text));
    CoreOutside(Step(q, 58));
  }

  lemma CoreOutside(r: Run)
    ensures r.p.state == Core(r).state && (!r.p.state.Value? ==> r.p.headerState == Core(r).headerState)
  {
  }

  /** The matcher's final states are reached on the whole words only. */
  lemma Complete(t: seq<byte>)
    requires t != []
    ensures var h := NameSoFar(t);
      && (h.HConnection? <==> Spells(t, CONNECTION) || Spells(t, PROXY))
      && (h.HContentLength? <==> Spells(t, LENGTH))
      && (h.HTransferEncoding? <==> Spells(t, ENCODING))
      && (h.HUpgrade? <==> Spells(t, UPGRADE))
  {
    hide Prefix;
    Lengths();
    Apart(t);
  }

  // Transfer-Encoding

  /** The lower-case form the value matcher compares: bit 5 set. */
  function Low(text: seq<byte>): (t: seq<byte>)
    ensures |t| == |text|
  {
    seq(|text|, i requires 0 <= i < |text| => Lower(text[i]))
  }

  /** "chunked" in the matcher's lower case, and blanks after it. */
  predicate SaysChunked(v: seq<byte>) {
    && |v| >= 7 && Spells(Low(v[..7]), CHUNKED) && forall k :: 7 <= k < |v| ==> v[k] == SPACE
  }

  /** The state of the value matcher after the text v of a Transfer-Encoding. */
  function CodingSoFar(v: seq<byte>): HeaderState {
    if |v| < 7 && Prefix(Low(v), CHUNKED) then HMatchingChunked
    else if SaysChunked(v) then HChunked
    else HGeneral
  }

  predicate ReadsCoding(r: Run, v: seq<byte>, f: Flags) {
    && RunInv(r) && r.halt.Running? && r.p.state.Value? && r.skip < HTTP_MAX_HEADER_SIZE
    && Core(r).headerState == CodingSoFar(v) && r.p.flags == f
    && (CodingSoFar(v).HMatchingChunked? ==> Core(r).index == |v| - 1)
  }

  lemma LowSnoc(v: seq<byte>, c: byte)
    ensures Low(v + [c]) == Low(v) + [Lower(c)]
    ensures |v| >= 7 ==> (v + [c])[..7] == v[..7]
    ensures |v| >= 7 ==> (SaysChunked(v + [c]) <==> SaysChunked(v) && c == SPACE)
    ensures |v| == 6 ==> (SaysChunked(v + [c]) <==> Prefix(Low(v), CHUNKED) && Lower(c) == 100)
    ensures |v| < 6 ==> !SaysChunked(v + [c])
  {
    var u := v + [c];
    assert Low(u) == Low(v) + [Lower(c)];
    PrefixSnoc(Low(v), Lower(c), CHUNKED);
    if |v| >= 7 {
      assert u[|v|] == c && forall k :: 7 <= k < |v| ==> u[k] == v[k];
    }
    if |v| == 6 { assert u[..7] == u; }
  }

  lemma CodingStep(p: Parser, v: seq<byte>, c: byte)
    requires v != [] && p.headerState == CodingSoFar(v) && (CodingSoFar(v).HMatchingChunked? ==> p.index == |v| - 1)
    ensures var q := ValueCore(p, c);
      q.headerState == CodingSoFar(v + [c]) && (CodingSoFar(v + [c]).HMatchingChunked? ==> q.index == |v|)
  {
    hide Prefix, SaysChunked, Low, Lower;
    LowSnoc(v, c);
    PrefixSnoc(Low(v), Lower(c), CHUNKED);
    assert |CHUNKED| == 7 && CharAt(CHUNKED, 6) == 100;
    PrefixIfChunked(v);
  }

  lemma PrefixIfChunked(v: seq<byte>)
    ensures SaysChunked(v) ==> |v| >= 7
    ensures |v| == 7 ==> (SaysChunked(v) <==> Prefix(Low(v), CHUNKED))
  {
    if |v| == 7 { assert v[..7] == v; }
  }

  /** Characters the value loop passes without ending or failing. */
  predicate IsValueText(v: seq<byte>) {
    && v != [] && v[0] != SPACE && v[0] != TAB
    && forall k :: 0 <= k < |v| ==> v[k] != CR && v[k] != LF && (k > 0 ==> IsHeaderChar(v[k]))
  }

  lemma CodingFirst(r: Run, c: byte)
    requires RunInv(r) && r.halt.Running? && r.p.state.DiscardWs? && r.p.headerState.HTransferEncoding?
    requires IsValueText([c]) && r.p.nread < HTTP_MAX_HEADER_SIZE
    ensures ReadsCoding(Step(r, c), [c], r.p.flags)
  {
    hide Switch, Step, RunInv, Lower, IsHeaderChar, CodingSoFar;
    assert [c][0] == c;
    PlainStep(r, c);
    AtRest(r);
    CodingSwitch(r.p.(nread := 0), c);
    CodingOne(c);
    FreshLoop(Step(r, c));
  }

  lemma FreshLoop(r: Run)
    requires r.inner == 0
    ensures Core(r) == r.p.(nread := 0)
  {
  }

  lemma CodingOne(c: byte)
    ensures CodingSoFar([c]) == if Lower(c) == 99 then HMatchingChunked else HGeneral
  {
    hide Lower;
    assert Low([c]) == [Lower(c)] && CHUNKED[0] as int == 99;
  }

  lemma CodingSwitch(p: Parser, c: byte)
    requires p.state.DiscardWs? && p.headerState.HTransferEncoding? && c != SPACE && c != TAB && c != CR && c != LF
    ensures Switch(p, c) == Go(p.(state := Value, index := 0,
        headerState := if Lower(c) == 99 then HMatchingChunked else HGeneral)).(mark := Marking(HeaderValue))
  {
    hide AtStart, AtMethod, AtSpaces, AtUrl, AtHttp, AtNumber, AtChunk, AtBodyIdentity, AtFieldStart, AtValueLws,
         AtDiscardLws, AtHeadersAlmostDone, AtHeadersDone, Lower;
  }

  lemma CodingNext(r: Run, v: seq<byte>, c: byte, f: Flags)
    requires ReadsCoding(r, v, f) && v != [] && c != CR && c != LF && IsHeaderChar(c)
    requires !Step(r, c).p.errno.HeaderOverflow? && Step(r, c).skip < HTTP_MAX_HEADER_SIZE
    ensures ReadsCoding(Step(r, c), v + [c], f)
  {
    hide Step, RunInv, CodingSoFar, ValueCore, IsHeaderChar;
    CodingKind(v);
    ValueChar([], r, c);
    StepGood(r, c);
    CodingStep(Core(r), v, c);
    StaysInValue(Core(r), c);
    CodingFlags(Core(r), c);
    CoreFlags(r);
    CoreFlags(Step(r, c));
    CoreState(Step(r, c));
  }

  lemma CodingKind(v: seq<byte>)
    ensures var h := CodingSoFar(v); h.HMatchingChunked? || h.HChunked? || h.HGeneral?
  {
  }

  lemma CodingFlags(p: Parser, c: byte)
    requires p.headerState.HMatchingChunked? || p.headerState.HChunked? || p.headerState.HGeneral?
    ensures ValueCore(p, c).flags == p.flags
  {
    hide Lower, Token, Compare;
  }

  lemma StaysInValue(p: Parser, c: byte)
    requires p.state.Value?
    ensures ValueCore(p, c).state.Value?
  {
    hide Lower, Token, Compare;
  }

  /** The skip of a general value is no longer than the bytes the counter has room for. */
  lemma SkipBound(r: Run, text: seq<byte>)
    requires RunInv(r) && r.halt.Running? && r.inner == 0 && r.p.nread + |text| < HTTP_MAX_HEADER_SIZE
    requires Feed(r, text).halt.Running?
    ensures Feed(r, text).skip < HTTP_MAX_HEADER_SIZE
  {
    hide Step, Feed, Name, NameState, ValueState, Inv;
    FeedOwes(r, text, r.p.nread - r.consumed);
    RunIsGood(r);
    FeedGood(r, text);
  }

  lemma RunIsGood(r: Run)
    requires RunInv(r) && r.halt.Running?
    ensures Good(r)
  {
    hide Inv, MarkFits;
  }

  lemma {:induction false} CodingRun(r: Run, v: seq<byte>)
    requires RunInv(r) && r.halt.Running? && r.p.state.DiscardWs? && r.p.headerState.HTransferEncoding?
    requires IsValueText(v) && r.p.nread + |v| < HTTP_MAX_HEADER_SIZE
    ensures ReadsCoding(Feed(r, v), v, r.p.flags)
    decreases |v|
  {
    hide Step, RunInv, Feed, ReadsCoding, CodingSoFar, IsHeaderChar;
    var init, c := v[..|v| - 1], v[|v| - 1];
    FeedSnoc(r, v);
    RestInner(r);
    if init == [] {
      FeedNothing(r);
      assert v == [c];
      CodingFirst(r, c);
    } else {
      CodingRun(r, init);
      CodingRunning(Feed(r, init), init, r.p.flags);
      NoOverflowHere(r, v);
      CodingStepRuns(Feed(r, init), init, c, r.p.flags);
      SkipBound(r, v);
      CodingNext(Feed(r, init), init, c, r.p.flags);
      assert v == init + [c];
    }
  }

  lemma CodingRunning(r: Run, v: seq<byte>, f: Flags)
    requires ReadsCoding(r, v, f)
    ensures r.halt.Running?
  {
  }

  lemma CodingStepRuns(r: Run, v: seq<byte>, c: byte, f: Flags)
    requires ReadsCoding(r, v, f) && c != CR && c != LF && IsHeaderChar(c) && !Step(r, c).p.errno.HeaderOverflow?
    ensures Step(r, c).halt.Running?
  {
    hide Step, RunInv, CodingSoFar, ValueCore, IsHeaderChar;
    CodingKind(v);
    ValueChar([], r, c);
  }

  /** A Transfer-Encoding header announces a chunked body exactly when its value is the word
      "chunked", in the case folding of the matcher, and nothing but spaces after it; the
      line may end in CR LF or in a bare LF. */
  lemma TransferEncodingValue(r: Run, v: seq<byte>, eol: seq<byte>, c: byte)
    requires RunInv(r) && r.halt.Running? && r.p.state.DiscardWs? && r.p.headerState.HTransferEncoding?
    requires IsValueText(v) && r.p.nread + |v| + 3 < HTTP_MAX_HEADER_SIZE && EndsValue(c)
    requires IsEol(eol)
    ensures var q, f := Feed(r, v + eol + [c]), r.p.flags.(chunked := r.p.flags.chunked || SaysChunked(v));
      q.p.flags == f && (q.halt.Failed? <==> c == LF && Contradicts(f))
  {
    hide Step, RunInv, Feed, CodingSoFar, IsValueText, IsHeaderChar, Token, SaysChunked;
    CodingLine(r, v, eol);
    FeedAfter(r, v + eol, c);
    CodingDone(v);
    NextHeader(Feed(r, v + eol), c);
  }

  /** What may follow the end of a line that is not folded: another header, or the end of the
      headers in either form. */
  predicate EndsValue(c: byte) { c == CR || c == LF || Token(c) != 0 }

  /** Headers that ask for both kinds of body, which their last LF refuses. */
  predicate Contradicts(f: Flags) { !f.trailing && f.chunked && f.contentLength }

  predicate IsEol(eol: seq<byte>) { eol == [LF] || eol == [CR] + [LF] }

  /** The value and the end of its line. */
  lemma CodingLine(r: Run, v: seq<byte>, eol: seq<byte>)
    requires RunInv(r) && r.halt.Running? && r.p.state.DiscardWs? && r.p.headerState.HTransferEncoding?
    requires IsValueText(v) && r.p.nread + |v| + 2 < HTTP_MAX_HEADER_SIZE && IsEol(eol)
    ensures EndsCoding(Feed(r, v + eol), CodingSoFar(v), r.p.flags)
    ensures r.inner == 0
  {
    hide Step, RunInv, Feed, ReadsCoding, CodingSoFar, IsValueText;
    CodingRun(r, v);
    CodingRunning(Feed(r, v), v, r.p.flags);
    RestInner(r);
    FeedAfter(r, v, eol[0]);
    CodingEnd(Feed(r, v), v, r.p.flags, eol[0]);
    if eol[0] == CR {
      FeedAfter(r, v + [CR], LF);
      LineFeed(Feed(r, v + [CR]));
      assert v + [CR] + [LF] == v + eol;
    }
  }

  /** The line is over; what it said is applied when the next byte starts no continuation. */
  predicate EndsCoding(q: Run, h: HeaderState, f: Flags) {
    RunInv(q) && q.halt.Running? && q.p.state.ValueLws? && q.p.headerState == h && q.p.flags == f
  }

  /** A value folded onto a second line announces nothing, whatever its first line said: the
      matcher starts anew on the continuation, as on a header it does not know. */
  lemma FoldedCodingValue(r: Run, v: seq<byte>, eol: seq<byte>, c: byte)
    requires RunInv(r) && r.halt.Running? && r.p.state.DiscardWs? && r.p.headerState.HTransferEncoding?
    requires IsValueText(v) && r.p.nread + |v| + 3 < HTTP_MAX_HEADER_SIZE && (c == SPACE || c == TAB)
    requires IsEol(eol)
    ensures var q := Feed(r, v + eol + [c]);
      q.halt.Running? && q.p.state.Value? && q.p.headerState.HGeneral? && q.p.flags == r.p.flags
  {
    hide Step, RunInv, Feed, CodingSoFar, IsValueText;
    CodingLine(r, v, eol);
    FeedAfter(r, v + eol, c);
    CodingDone(v);
    Continued(Feed(r, v + eol), c);
  }

  lemma Continued(r: Run, c: byte)
    requires EndsCoding(r, r.p.headerState, r.p.flags) && CodingKindOnly(r.p.headerState) && (c == SPACE || c == TAB)
    requires !Step(r, c).p.errno.HeaderOverflow?
    ensures var q := Step(r, c);
      q.halt.Running? && q.p.state.Value? && q.p.headerState.HGeneral? && q.p.flags == r.p.flags
  {
    hide Switch, RunInv;
    AtRest(r);
    Counts(r, c);
    PlainStep(r, c);
    FoldSwitch(r.p.(nread := 0), c);
  }

  lemma FoldSwitch(p: Parser, c: byte)
    requires p.state.ValueLws? && (c == SPACE || c == TAB) && CodingKindOnly(p.headerState)
    ensures var act := Switch(p, c);
      !act.halt.Failed? && act.halt.Running? && act.p.state.Value? && act.p.headerState.HGeneral? && act.p.flags == p.flags
  {
    hide AtStart, AtMethod, AtSpaces, AtUrl, AtHttp, AtNumber, AtChunk, AtBodyIdentity, AtDiscardLws, AtFieldStart,
         AtHeadersAlmostDone, AtHeadersDone, AtDiscardWs;
  }

  /** One more byte on a run that has not stopped, within the counter's room. */
  lemma FeedAfter(r: Run, text: seq<byte>, c: byte)
    requires RunInv(r) && r.halt.Running? && r.inner == 0 && r.p.nread + |text| + 1 < HTTP_MAX_HEADER_SIZE
    requires Feed(r, text).halt.Running?
    ensures Feed(r, text + [c]) == Step(Feed(r, text), c)
    ensures !Step(Feed(r, text), c).p.errno.HeaderOverflow?
  {
    hide Step, RunInv, Feed;
    assert (text + [c])[..|text|] == text;
    FeedSnoc(r, text + [c]);
    NoOverflowHere(r, text + [c]);
  }

  lemma CodingDone(v: seq<byte>)
    ensures CodingSoFar(v).HChunked? <==> SaysChunked(v)
    ensures CodingKindOnly(CodingSoFar(v))
  {
  }

  predicate CodingKindOnly(h: HeaderState) { h.HMatchingChunked? || h.HChunked? || h.HGeneral? }

  lemma CodingEnd(r: Run, v: seq<byte>, f: Flags, e: byte)
    requires ReadsCoding(r, v, f) && (e == CR || e == LF) && !Step(r, e).p.errno.HeaderOverflow?
    ensures var q := Step(r, e);
      && RunInv(q) && q.halt.Running? && q.p.headerState == CodingSoFar(v) && q.p.flags == f
      && (if e == CR then q.p.state.HeaderAlmostDone? else q.p.state.ValueLws?)
  {
    hide Step, RunInv, CodingSoFar;
    ValueEnd([], r, e);
    StepGood(r, e);
    CoreOutside(Step(r, e));
    CoreFlags(r);
    CoreFlags(Step(r, e));
  }

  lemma CoreFlags(r: Run)
    ensures Core(r).flags == r.p.flags
  {
  }

  lemma LineFeed(r: Run)
    requires RunInv(r) && r.halt.Running? && r.p.state.HeaderAlmostDone? && !Step(r, LF).p.errno.HeaderOverflow?
    ensures var q := Step(r, LF);
      && RunInv(q) && q.halt.Running? && q.p.state.ValueLws? && q.p.headerState == r.p.headerState
      && q.p.flags == r.p.flags
  {
    hide Switch, RunInv;
    AtRest(r);
    Counts(r, LF);
    PlainStep(r, LF);
    AlmostDoneSwitch(r.p.(nread := 0));
  }

  lemma AlmostDoneSwitch(p: Parser)
    requires p.state.HeaderAlmostDone?
    ensures Switch(p, LF) == To(p, ValueLws)
  {
    hide AtStart, AtMethod, AtSpaces, AtUrl, AtHttp, AtNumber, AtChunk, AtBodyIdentity, AtFieldStart, AtValueLws,
         AtDiscardLws, AtHeadersAlmostDone, AtHeadersDone, AtValueStart, AtDiscardWs;
  }

  /** Outside the loops the counter overflows exactly when it is full. */
  lemma Counts(r: Run, c: byte)
    requires r.halt.Running? && r.inner == 0 && OutsideLoops(r.p.state) && ParsingHeader(r.p.state)
    requires !Step(r, c).p.errno.HeaderOverflow?
    ensures r.p.nread < HTTP_MAX_HEADER_SIZE
  {
    hide Switch, Perform, InField, InValue;
  }

  lemma NextHeader(r: Run, c: byte)
    requires RunInv(r) && r.halt.Running? && r.p.state.ValueLws? && EndsValue(c)
    requires CodingKindOnly(r.p.headerState) && !Step(r, c).p.errno.HeaderOverflow?
    ensures var q, f := Step(r, c), r.p.flags.(chunked := r.p.flags.chunked || r.p.headerState.HChunked?);
      q.p.flags == f && (q.halt.Failed? <==> c == LF && Contradicts(f))
  {
    hide Switch, RunInv, Token, Contradicts;
    AtRest(r);
    Counts(r, c);
    PlainStep(r, c);
    LwsSwitch(r.p.(nread := 0), c);
  }

  lemma LwsSwitch(p: Parser, c: byte)
    requires p.state.ValueLws? && EndsValue(c) && CodingKindOnly(p.headerState)
    ensures var act, f := Switch(p, c), p.flags.(chunked := p.flags.chunked || p.headerState.HChunked?);
      act.p.flags == f && (act.halt.Failed? <==> c == LF && Contradicts(f))
  {
    hide Switch, AtHeadersAlmostDone, Contradicts, Token;
    assert Token(LF) == 0 && Token(SPACE) == 0 && Token(TAB) == 0 && Token(CR) == 0 by { NoTokens(); }
    assert Switch(p, c) == AtFieldStart(p.(flags := FinishedFlags(p.headerState, p.flags), state := FieldStart), c)
      by { LwsIs(p, c); }
    LastLf(p.(state := HeadersAlmostDone, flags := FinishedFlags(p.headerState, p.flags)));
  }

  lemma NoTokens()
    ensures Token(LF) == 0 && Token(SPACE) == 0 && Token(TAB) == 0 && Token(CR) == 0
  {
  }

  lemma LwsIs(p: Parser, c: byte)
    requires p.state.ValueLws? && c != SPACE && c != TAB
    ensures Switch(p, c) == AtFieldStart(p.(flags := FinishedFlags(p.headerState, p.flags), state := FieldStart), c)
  {
    hide AtStart, AtMethod, AtSpaces, AtUrl, AtHttp, AtNumber, AtChunk, AtBodyIdentity, AtDiscardLws, AtFieldStart,
         AtHeadersAlmostDone, AtHeadersDone, AtValueStart, AtDiscardWs, FinishedFlags;
  }

  lemma LastLf(p: Parser)
    requires p.state.HeadersAlmostDone?
    ensures var act := AtHeadersAlmostDone(p, LF);
      act.p.flags == p.flags && (act.halt.Failed? <==> Contradicts(p.flags))
  {
  }
}
