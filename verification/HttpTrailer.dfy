/** Trailers: whatever header fields follow the last chunk, on_body has had its bytes and the
    message completes once; and every list of ordinary fields is a trailer. */
module HttpTrailer {
  import opened Bytes
  import opened HttpTypes
  import opened HttpMachine
  import opened HttpInvariant
  import opened HttpCut
  import opened HttpMessage
  import opened HttpLimit
  import opened HttpHeader

  // Traces and their joins

  lemma {:induction false} CompletionsConcat(a: seq<Call>, b: seq<Call>)
    ensures Completions(a + b) == Completions(a) + Completions(b)
    decreases |a|
  {
    if a == [] {
      assert a + b == b;
    } else {
      assert (a + b)[1..] == a[1..] + b;
      CompletionsConcat(a[1..], b);
    }
  }

  lemma JoinKeeps(t: seq<Call>, c: Call)
    ensures BodyOf(Join(t, c)) == BodyOf(t + [c]) && Completions(Join(t, c)) == Completions(t + [c])
  {
    hide BodyOf, Completions;
    if Join(t, c) != t + [c] {
      var front, last := t[..|t| - 1], t[|t| - 1];
      assert t == front + [last];
      JoinLast(front, last, c);
    }
  }

  lemma JoinLast(front: seq<Call>, last: Call, c: Call)
    requires last.Data? && c.Data? && last.kind == c.kind
    ensures var both := Data(c.kind, last.text + c.text);
      BodyOf(front + [both]) == BodyOf((front + [last]) + [c]) && Completions(front + [both]) == Completions((front + [last]) + [c])
  {
    hide BodyOf, Completions;
    var both := Data(c.kind, last.text + c.text);
    BodyOfConcat(front, [both]);
    BodyOfConcat(front + [last], [c]);
    BodyOfConcat(front, [last]);
    CompletionsConcat(front, [both]);
    CompletionsConcat(front + [last], [c]);
    CompletionsConcat(front, [last]);
    OneOf(both);
    OneOf(last);
    OneOf(c);
  }

  lemma OneOf(c: Call)
    ensures BodyOf([c]) == if c.Data? && c.kind.Body? then c.text else []
    ensures Completions([c]) == if c == Notify(MessageComplete) then 1 else 0
  {
    assert [c][1..] == [];
  }

  lemma {:induction false} JoinAllKeeps(t: seq<Call>, calls: seq<Call>)
    ensures BodyOf(JoinAll(t, calls)) == BodyOf(t + calls) && Completions(JoinAll(t, calls)) == Completions(t + calls)
    decreases |calls|
  {
    hide BodyOf, Completions, JoinAll;
    if calls == [] {
      JoinNone(t);
      assert t + calls == t;
    } else {
      var front, last := calls[..|calls| - 1], calls[|calls| - 1];
      assert calls == front + [last] && t + calls == (t + front) + [last];
      JoinSnoc(t, front, last);
      JoinAllKeeps(t, front);
      JoinKeeps(JoinAll(t, front), last);
      BodyOfConcat(JoinAll(t, front), [last]);
      BodyOfConcat(t + front, [last]);
      CompletionsConcat(JoinAll(t, front), [last]);
      CompletionsConcat(t + front, [last]);
    }
  }

  /** Joining the pieces of data callbacks loses no body byte and no completion. */
  lemma MergeKeeps(calls: seq<Call>)
    ensures BodyOf(Merge(calls)) == BodyOf(calls) && Completions(Merge(calls)) == Completions(calls)
  {
    JoinAllKeeps([], calls);
    assert [] + calls == calls;
  }

  // Header bytes after the last chunk

  predicate InTrailer(s: State) { IsHeaderState(s) || s.Field? || s.Value? }

  /** What a byte of the trailer may do: nothing to the body, and either go on in the
      trailer or end the message. */
  predicate TrailerAct(act: Act) {
    && (act.flush.NoFlush? || !act.flush.kind.Body?)
    && act.p.flags.trailing
    && (if InTrailer(act.p.state) then act.notices == [] && act.halt.Running?
        else act.notices == [ChunkComplete, MessageComplete] && (act.p.state.StartReq? || act.p.state.Dead?))
  }

  lemma TrailerFieldStart(p: Parser, c: byte)
    requires p.flags.trailing
    ensures var act := AtFieldStart(p, c); act.halt.Failed? || (TrailerAct(act) && act.flush.NoFlush?)
  {
    hide AtHeadersDone, Token;
  }

  lemma TrailerValueStart(p: Parser, c: byte)
    requires p.flags.trailing
    ensures var act := AtValueStart(p, c); act.halt.Failed? || TrailerAct(act)
  {
    hide Lower;
  }

  lemma TrailerHeader(p: Parser, c: byte)
    requires p.flags.trailing && IsHeaderState(p.state)
    ensures var act := AtHeader(p, c); act.halt.Failed? || TrailerAct(act)
  {
    hide AtFieldStart, AtValueLws, AtDiscardLws, AtDiscardWs, AtHeadersAlmostDone, TrailerAct, Strictly, AtHeaderAlmostDone;
    match p.state
    case FieldStart => TrailerFieldStart(p, c);
    case DiscardWs => TrailerBlanks(p, c);
    case HeadersAlmostDone => TrailerEnds(p, c);
    case DiscardWsAlmostDone => TrailerLineEnds(p, c);
    case HeaderAlmostDone => TrailerLineEnds(p, c);
    case _ => TrailerFolds(p, c);
  }

  lemma TrailerFolds(p: Parser, c: byte)
    requires p.flags.trailing
    ensures var act := AtValueLws(p, c); act.halt.Failed? || TrailerAct(act)
    ensures var act := AtDiscardLws(p, c); act.halt.Failed? || TrailerAct(act)
  {
    hide AtFieldStart, AtValueStart;
    TrailerFieldStart(p.(flags := FinishedFlags(p.headerState, p.flags), state := FieldStart), c);
    TrailerValueStart(p.(state := ValueStart), c);
  }

  lemma TrailerBlanks(p: Parser, c: byte)
    requires p.flags.trailing && p.state.DiscardWs?
    ensures var act := AtDiscardWs(p, c); act.halt.Failed? || TrailerAct(act)
  {
    hide AtValueStart;
    TrailerValueStart(p, c);
  }

  lemma TrailerEnds(p: Parser, c: byte)
    requires p.flags.trailing
    ensures var act := AtHeadersAlmostDone(p, c); act.halt.Failed? || TrailerAct(act)
  {
    hide AtHeadersDone;
  }

  lemma TrailerLineEnds(p: Parser, c: byte)
    requires p.flags.trailing
    ensures var act := Strictly(c == LF, p, DiscardLws); act.halt.Failed? || TrailerAct(act)
    ensures var act := AtHeaderAlmostDone(p, c); act.halt.Failed? || TrailerAct(act)
  {
  }

  lemma TrailerSwitch(p: Parser, c: byte)
    requires p.flags.trailing && IsHeaderState(p.state)
    ensures var act := Switch(p, c); act.halt.Failed? || TrailerAct(act)
  {
    hide AtStart, AtMethod, AtSpaces, AtUrl, AtHttp, AtNumber, AtChunk, AtHeader, AtBodyIdentity, AtMessageDone;
    TrailerHeader(p, c);
  }

  /** A byte of the trailer, as the user's callbacks see it. */
  predicate Quiet(r: Run, q: Run) {
    && r.calls <= q.calls && BodyOf(q.calls[|r.calls|..]) == []
    && q.p.flags.trailing
    && (if InTrailer(q.p.state) then q.halt.Running? && Completions(q.calls[|r.calls|..]) == 0
        else Completions(q.calls[|r.calls|..]) == 1 && (q.p.state.StartReq? || q.p.state.Dead?))
  }

  lemma QuietSwitch(r: Run, c: byte)
    requires RunInv(r) && r.halt.Running? && r.p.flags.trailing && IsHeaderState(r.p.state)
    ensures Step(r, c).halt.Failed? || Quiet(r, Step(r, c))
  {
    hide Switch, RunInv, InField, InValue, ParsingHeader, BodyOf, Completions, FlushCalls, FlushMark, Notices;
    AtRest(r);
    var act := Switch(r.p.(nread := 0), c);
    TrailerSwitch(r.p.(nread := 0), c);
    if !Step(r, c).halt.Failed? {
      var flushed := FlushCalls(r.mark, act.flush, c);
      var added := flushed + Notices(act.notices);
      assert Step(r, c).calls == r.calls + added;
      assert Step(r, c).calls[|r.calls|..] == added;
      QuietCalls(r.mark, act, c);
    }
  }

  lemma QuietCalls(m: Mark, act: Act, c: byte)
    requires TrailerAct(act)
    ensures var added := FlushCalls(m, act.flush, c) + Notices(act.notices);
      BodyOf(added) == [] && Completions(added) == if act.notices == [] then 0 else 1
  {
    var flushed := FlushCalls(m, act.flush, c);
    hide BodyOf, Completions;
    BodyOfConcat(flushed, Notices(act.notices));
    CompletionsConcat(flushed, Notices(act.notices));
    Nothing();
    if flushed != [] {
      assert flushed == [flushed[0]];
      OneOf(flushed[0]);
    }
    if act.notices == [] {
      assert Notices(act.notices) == [];
    } else {
      var a, b := Notify(ChunkComplete), Notify(MessageComplete);
      assert Notices(act.notices) == [a] + [b];
      BodyOfConcat([a], [b]);
      CompletionsConcat([a], [b]);
      OneOf(a);
      OneOf(b);
    }
  }

  lemma Nothing()
    ensures BodyOf([]) == [] && Completions([]) == 0
  {
  }

  lemma QuietText(r: Run, q: Run, k: Kind)
    requires r.mark.Mark? && !k.Body?
    requires q.calls == r.calls || q.calls == r.calls + [Data(k, r.mark.text)]
    requires q.p.flags.trailing && InTrailer(q.p.state) && q.halt.Running?
    ensures Quiet(r, q)
  {
    hide BodyOf, Completions;
    Nothing();
    OneOf(Data(k, r.mark.text));
    assert q.calls[|r.calls|..] == if q.calls == r.calls then [] else [Data(k, r.mark.text)];
  }

  lemma NameQuiet(t: Run, c: byte)
    requires t.halt.Running? && t.p.state.Field? && t.p.flags.trailing && t.mark.Mark? && t.mark.kind.HeaderField?
    ensures var u := InField(t, c);
      u.halt.Failed? || (u.halt.Running? && u.p.flags.trailing && (u.p.state.Field? || IsHeaderState(u.p.state)) &&
                         (u.calls == t.calls || u.calls == t.calls + [Data(HeaderField, t.mark.text)]))
  {
    hide MatchName, Token;
    assert [Data(HeaderField, t.mark.text)] + Notices([]) == [Data(HeaderField, t.mark.text)];
  }

  lemma QuietField(r: Run, c: byte)
    requires RunInv(r) && r.halt.Running? && r.p.flags.trailing && r.p.state.Field?
    ensures Step(r, c).halt.Failed? || Quiet(r, Step(r, c))
  {
    hide Switch, InField, InValue, Name, NameState, ValueState, BodyOf, Completions, IsUrlState;
    var t := if r.inner == 0 then Charged(r, 1) else r;
    if t.halt.Running? { NameQuiet(t, c); }
    if !Step(r, c).halt.Failed? { QuietText(r, Step(r, c), HeaderField); }
  }

  lemma LoopQuiet(t: Run, c: byte)
    requires t.halt.Running? && t.p.state.Value? && t.p.errno.Ok? && t.p.index < 128 && ValueState(t.hs, t.p.index)
    requires t.p.flags.trailing && t.mark.Mark? && t.mark.kind.HeaderValue?
    ensures var u := InValue(t, c);
      u.halt.Failed? || (u.halt.Running? && u.p.flags.trailing && (u.p.state.Value? || IsHeaderState(u.p.state)) &&
                         (u.calls == t.calls || u.calls == t.calls + [Data(HeaderValue, t.mark.text)]))
  {
    hide MatchValue, IsHeaderChar, ValueState, EndValue;
    if c == CR || c == LF {
      EndQuiet(t, c);
    } else if !t.hs.HGeneral? && !t.hs.HContentLength? {
      MatchValueGood(t.p, t.hs, c);
    }
  }

  lemma EndQuiet(t: Run, c: byte)
    requires t.halt.Running? && t.p.flags.trailing && t.mark.Mark? && t.mark.kind.HeaderValue? && (c == CR || c == LF)
    ensures var u := EndValue(t, c);
      u.halt.Failed? || (u.halt.Running? && u.p.flags.trailing && IsHeaderState(u.p.state) &&
                         u.calls == t.calls + [Data(HeaderValue, t.mark.text)])
  {
    assert [Data(HeaderValue, t.mark.text)] + Notices([]) == [Data(HeaderValue, t.mark.text)];
  }

  lemma QuietValue(r: Run, c: byte)
    requires RunInv(r) && r.halt.Running? && r.p.flags.trailing && r.p.state.Value?
    ensures Step(r, c).halt.Failed? || Quiet(r, Step(r, c))
  {
    hide Switch, InField, InValue, Name, NameState, ValueState, BodyOf, Completions, IsUrlState;
    var t := if r.inner == 0 then Charged(r, 1).(hs := r.p.headerState) else r;
    if t.halt.Running? { LoopQuiet(t, c); }
    if !Step(r, c).halt.Failed? { QuietText(r, Step(r, c), HeaderValue); }
  }

  lemma QuietByte(r: Run, c: byte)
    requires RunInv(r) && r.halt.Running? && r.p.flags.trailing && InTrailer(r.p.state)
    ensures Step(r, c).halt.Failed? || Quiet(r, Step(r, c))
  {
    hide Step, RunInv, Quiet;
    if r.p.state.Field? { QuietField(r, c); }
    else if r.p.state.Value? { QuietValue(r, c); }
    else { QuietSwitch(r, c); }
  }

  /** The text is accepted, and its last byte is the first to leave the trailer. */
  predicate EndsTrailer(r: Run, t: seq<byte>)
    decreases |t|
  {
    && t != [] && r.halt.Running? && InTrailer(r.p.state)
    && (var q := Step(r, t[0]);
        !q.halt.Failed? && if |t| == 1 then !InTrailer(q.p.state) else EndsTrailer(q, t[1..]))
  }

  /** Whatever the trailer is, the body has had its bytes and the message completes once. */
  lemma {:induction false} TrailerRun(r: Run, t: seq<byte>)
    requires RunInv(r) && r.p.flags.trailing && EndsTrailer(r, t)
    ensures var q := Feed(r, t);
      && RunInv(q) && !q.halt.Failed? && (q.p.state.StartReq? || q.p.state.Dead?)
      && BodyOf(q.calls) == BodyOf(r.calls) && Completions(q.calls) == Completions(r.calls) + 1
      && q.consumed == r.consumed + |t|
    decreases |t|
  {
    hide Step, RunInv, BodyOf, Completions;
    var q := Step(r, t[0]);
    QuietByte(r, t[0]);
    StepGood(r, t[0]);
    StepCounts(r, t[0]);
    assert q.calls == r.calls + q.calls[|r.calls|..];
    BodyOfConcat(r.calls, q.calls[|r.calls|..]);
    CompletionsConcat(r.calls, q.calls[|r.calls|..]);
    assert BodyOf(r.calls) + [] == BodyOf(r.calls);
    if |t| == 1 {
      FeedNothing(q);
      assert t[1..] == [];
    } else {
      TrailerRun(q, t[1..]);
    }
  }

  // Whole chunked messages

  /** The text of a chunked body with a trailer: chunks with their extensions, the last
      size line, and the trailer up to the end of the message. */
  function BodyText(chunks: seq<Chunk>, size: seq<byte>, ext: seq<byte>): seq<byte> {
    ChunksText(chunks) + (size + ext + CRLF)
  }

  lemma BeforeTrailer(p: Parser, chunks: seq<Chunk>, size: seq<byte>, ext: seq<byte>)
    requires Inv(p) && p.state.ChunkSizeStart? && IsSizeLine(size, ext, 0)
    requires forall i :: 0 <= i < |chunks| ==> IsChunk(chunks[i])
    ensures var r, q := Begin(p), Feed(Begin(p), BodyText(chunks, size, ext));
      && RunInv(q) && q.halt.Running? && q.p.state.FieldStart? && q.p.flags.trailing && q.p.nread == 0
      && BodyOf(q.calls) == Payload(chunks) && Completions(q.calls) == 0
      && q.consumed == |BodyText(chunks, size, ext)| && Outside(r, BodyText(chunks, size, ext))
  {
    hide RunInv, Inv, Feed, Outside, ChunksText, ChunkCalls, IsChunk, IsSizeLine, BodyOf, Completions, Payload;
    var r, line := Begin(p), size + ext + CRLF;
    BeginGood(p);
    BeginFields(p);
    BeginRuns(p);
    ChunksRun(r, chunks);
    var r1 := Feed(r, ChunksText(chunks));
    SizeLine(r1, size, ext, 0);
    FeedConcat(r, ChunksText(chunks), line);
    OutsideConcat(r, ChunksText(chunks), line);
    assert [] + ChunkCalls(chunks) == ChunkCalls(chunks);
    ChunkCallsBody(chunks);
    BodyOfConcat(ChunkCalls(chunks), [Notify(ChunkHeader)]);
    CompletionsConcat(ChunkCalls(chunks), [Notify(ChunkHeader)]);
    OneOf(Notify(ChunkHeader));
    assert Payload(chunks) + [] == Payload(chunks);
  }

  lemma {:induction false} ChunkCallsBody(chunks: seq<Chunk>)
    ensures BodyOf(ChunkCalls(chunks)) == Payload(chunks) && Completions(ChunkCalls(chunks)) == 0
    decreases |chunks|
  {
    hide BodyOf, Completions;
    if chunks == [] {
      Nothing();
    } else {
      var k, rest := chunks[0], ChunkCalls(chunks[1..]);
      ChunkCallsBody(chunks[1..]);
      CallsOfBody(k);
      assert ChunkCalls(chunks) == CallsOf(k) + rest;
      BodyOfConcat(CallsOf(k), rest);
      CompletionsConcat(CallsOf(k), rest);
    }
  }

  lemma CallsOfBody(k: Chunk)
    ensures BodyOf(CallsOf(k)) == k.data && Completions(CallsOf(k)) == 0
  {
    hide BodyOf, Completions;
    var a, b, c := Notify(ChunkHeader), Data(Body, k.data), Notify(ChunkComplete);
    assert CallsOf(k) == [a] + [b] + [c];
    BodyOfConcat([a] + [b], [c]);
    BodyOfConcat([a], [b]);
    CompletionsConcat([a] + [b], [c]);
    CompletionsConcat([a], [b]);
    OneOf(a);
    OneOf(b);
    OneOf(c);
  }

  /** A chunked message with extensions and any trailer the parser accepts, read in one
      call: on_body gets exactly the chunks' bytes and the message completes once. */
  lemma ChunkedWhole(p: Parser, chunks: seq<Chunk>, size: seq<byte>, ext: seq<byte>, t: seq<byte>)
    requires Inv(p) && p.state.ChunkSizeStart? && IsSizeLine(size, ext, 0)
    requires forall i :: 0 <= i < |chunks| ==> IsChunk(chunks[i])
    requires EndsTrailer(Feed(Begin(p), BodyText(chunks, size, ext)), t)
    requires Clean(Feed(Begin(p), BodyText(chunks, size, ext)), t)
    ensures var text := BodyText(chunks, size, ext) + t; var whole := Execute(p, text);
      && whole.p.errno.Ok? && whole.consumed == |text| && Clean(Begin(p), text)
      && BodyOf(whole.calls) == Payload(chunks) && Completions(whole.calls) == 1
  {
    hide RunInv, Inv, Feed, Outside, ChunksText, IsChunk, IsSizeLine, BodyOf, Completions, Payload, BodyText, Clean,
         EndsTrailer, Finish, Begin;
    var r, head := Begin(p), BodyText(chunks, size, ext);
    BeforeTrailer(p, chunks, size, ext);
    InvOk(p);
    var r1 := Feed(r, head);
    TrailerRun(r1, t);
    FeedConcat(r, head, t);
    OutsideIsClean(r, head);
    CleanJoin(r, head, t);
    var q := Feed(r1, t);
    RestInner(q);
    AtDeadOrStart(q);
    EndsTrailerNonEmpty(r1, t);
    assert head + t != [];
  }

  lemma EndsTrailerNonEmpty(r: Run, t: seq<byte>)
    requires EndsTrailer(r, t)
    ensures t != []
  {
  }

  lemma AtDeadOrStart(r: Run)
    requires RunInv(r) && (r.p.state.StartReq? || r.p.state.Dead?) && r.inner == 0
    ensures Finish(r) == r && r.p.errno.Ok?
  {
    hide Name, NameState, ValueState;
  }

  /** The same cut anywhere: the pieces that stay within the header limit, and no others,
      give exactly the chunks' bytes and one completion. */
  lemma ChunkedMessage(p: Parser, chunks: seq<Chunk>, size: seq<byte>, ext: seq<byte>, t: seq<byte>, pieces: seq<seq<byte>>)
    requires Inv(p) && p.state.ChunkSizeStart? && IsSizeLine(size, ext, 0)
    requires forall i :: 0 <= i < |chunks| ==> IsChunk(chunks[i])
    requires EndsTrailer(Feed(Begin(p), BodyText(chunks, size, ext)), t)
    requires Clean(Feed(Begin(p), BodyText(chunks, size, ext)), t)
    requires Concat(pieces) == BodyText(chunks, size, ext) + t && forall i :: 0 <= i < |pieces| ==> pieces[i] != []
    ensures var all := ExecuteAll(p, pieces);
      && (all.p.errno.Ok? <==> CutFits(Begin(p), 0, pieces))
      && (all.p.errno.Ok? ==>
            && BodyOf(Merge(all.calls)) == Payload(chunks) && Completions(Merge(all.calls)) == 1
            && all.consumed == |Concat(pieces)|)
  {
    hide Inv, Feed, IsChunk, IsSizeLine, BodyOf, Completions, Payload, BodyText, Clean, EndsTrailer, Begin, Execute,
         ExecuteAll, CutFits, Merge;
    ChunkedWhole(p, chunks, size, ext, t);
    EndsTrailerNonEmpty(Feed(Begin(p), BodyText(chunks, size, ext)), t);
    CutExactly(p, pieces);
    MergeKeeps(ExecuteAll(p, pieces).calls);
    MergeKeeps(Execute(p, Concat(pieces)).calls);
  }

  // Ordinary fields

  /** A header line: a name, a colon, blanks and a value. */
  datatype Line = Line(name: seq<byte>, blanks: seq<byte>, value: seq<byte>)

  function LineText(f: Line): seq<byte> { f.name + [58] + f.blanks + f.value + [CR] + [LF] }

  predicate Blanks(b: seq<byte>) { forall i :: 0 <= i < |b| ==> b[i] == SPACE || b[i] == TAB }

  /** A line with a value of its own; a second length is the parser's to judge. */
  predicate IsLine(f: Line) {
    IsToken(f.name) && !Spells(Lowered(f.name), LENGTH) && Blanks(f.blanks) && IsValueText(f.value)
  }

  function LinesText(lines: seq<Line>): seq<byte> {
    if lines == [] then [] else LineText(lines[0]) + LinesText(lines[1..])
  }

  /** None of these bytes fails, ends the message, or is one the value loop refuses. */
  predicate Passes(r: Run, t: seq<byte>)
    decreases |t|
  {
    t == [] || (r.halt.Running? && InTrailer(r.p.state) && CleanByte(r.p, t[0]) && !Step(r, t[0]).halt.Failed? &&
                Passes(Step(r, t[0]), t[1..]))
  }

  lemma {:induction false} PassesConcat(r: Run, a: seq<byte>, b: seq<byte>)
    requires Passes(r, a) && Passes(Feed(r, a), b)
    ensures Passes(r, a + b)
    decreases |a|
  {
    hide Step, CleanByte;
    if a == [] {
      assert a + b == b;
      FeedNothing(r);
    } else {
      assert (a + b)[0] == a[0] && (a + b)[1..] == a[1..] + b;
      PassesConcat(Step(r, a[0]), a[1..], b);
    }
  }

  lemma {:induction false} PassesThen(r: Run, a: seq<byte>, b: seq<byte>)
    requires Passes(r, a) && EndsTrailer(Feed(r, a), b) && Clean(Feed(r, a), b)
    ensures EndsTrailer(r, a + b) && Clean(r, a + b)
    decreases |a|
  {
    hide Step, CleanByte;
    if a == [] {
      assert a + b == b;
      FeedNothing(r);
    } else {
      assert (a + b)[0] == a[0] && (a + b)[1..] == a[1..] + b;
      PassesThen(Step(r, a[0]), a[1..], b);
    }
  }

  /** Fed this text the run has passed it all, each byte charged once. */
  predicate Goes(r: Run, text: seq<byte>) {
    var q := Feed(r, text);
    RunInv(q) && q.halt.Running? && Passes(r, text) && Charge(q) == Charge(r) + |text|
  }

  lemma GoesOn(r: Run, text: seq<byte>, c: byte)
    requires Goes(r, text) && InTrailer(Feed(r, text).p.state) && CleanByte(Feed(r, text).p, c)
    requires var q := Feed(r, text); Step(q, c).halt.Running? && !Resets(q, c)
    ensures Goes(r, text + [c]) && Feed(r, text + [c]) == Step(Feed(r, text), c)
  {
    hide Step, RunInv, Feed, Resets, CleanByte;
    var q := Feed(r, text);
    assert (text + [c])[..|text|] == text;
    FeedSnoc(r, text + [c]);
    StepGood(q, c);
    StepAccounted(q, c);
    HeaderCounts(q.p.state);
    PassesOne(q, c);
    PassesConcat(r, text, [c]);
  }

  lemma PassesOne(r: Run, c: byte)
    requires r.halt.Running? && InTrailer(r.p.state) && CleanByte(r.p, c) && !Step(r, c).halt.Failed?
    ensures Passes(r, [c])
  {
    hide Step;
    assert [c][1..] == [];
  }

  lemma HeaderCounts(s: State)
    ensures InTrailer(s) ==> ParsingHeader(s)
  {
  }

  lemma NoResetInside(r: Run, c: byte)
    requires !OutsideLoops(r.p.state)
    ensures !Resets(r, c)
  {
    hide Switch;
  }

  /** The counter and the room of a run at rest. */
  lemma RestCharge(r: Run)
    requires RunInv(r) && OutsideLoops(r.p.state)
    ensures Charge(r) == r.p.nread && r.inner == 0
  {
    RestInner(r);
  }

  lemma {:induction false} NameGoes(r: Run, text: seq<byte>)
    requires AtLine(r) && IsToken(text) && Charge(r) + |text| < HTTP_MAX_HEADER_SIZE
    ensures Goes(r, text) && ReadsName(Feed(r, text), text)
    decreases |text|
  {
    hide Step, RunInv, Feed, ReadsName, Token, Goes, Resets, Charge;
    var init, c := text[..|text| - 1], text[|text| - 1];
    RestCharge(r);
    NameRun(r, text);
    HttpHeader.ReadsRunning(Feed(r, text), text);
    assert text == init + [c];
    if init == [] {
      GoesNowhere(r);
      FeedNothing(r);
      NameStart(r, c);
      FeedSnoc(r, text);
      GoesOn(r, init, c);
    } else {
      NameGoes(r, init);
      HttpHeader.ReadsRunning(Feed(r, init), init);
      ReadsInside(Feed(r, init), init);
      NoResetInside(Feed(r, init), c);
      FeedSnoc(r, text);
      GoesOn(r, init, c);
    }
  }

  lemma GoesNowhere(r: Run)
    requires RunInv(r) && r.halt.Running?
    ensures Goes(r, [])
  {
    hide RunInv;
    FeedNothing(r);
  }

  lemma ReadsInside(r: Run, text: seq<byte>)
    requires text != [] && ReadsName(r, text)
    ensures r.p.state.Field? && InTrailer(r.p.state) && forall c :: CleanByte(r.p, c)
  {
  }

  lemma NameStart(r: Run, c: byte)
    requires AtLine(r) && Token(c) != 0
    ensures !Resets(r, c) && InTrailer(r.p.state) && CleanByte(r.p, c)
  {
    hide RunInv, Token, Switch;
    FieldStartSwitch(r.p.(nread := 0), c);
  }

  /** Before a value whose header is not Content-Length. */
  predicate BeforeValue(r: Run) {
    RunInv(r) && r.halt.Running? && r.p.state.DiscardWs? && !r.p.headerState.HContentLength?
  }

  lemma ColonGoes(r: Run, name: seq<byte>)
    requires AtLine(r) && IsToken(name) && !Spells(Lowered(name), LENGTH)
    requires Charge(r) + |name| + 1 < HTTP_MAX_HEADER_SIZE
    ensures Goes(r, name + [58]) && BeforeValue(Feed(r, name + [58]))
  {
    hide Step, RunInv, Feed, ReadsName, Token, Goes, Resets, Charge;
    RestCharge(r);
    NameGoes(r, name);
    var q := Feed(r, name);
    HttpHeader.ReadsRunning(q, name);
    HeaderName(r, name);
    assert (name + [58])[..|name|] == name;
    FeedSnoc(r, name + [58]);
    ReadsInside(q, name);
    NoResetInside(q, 58);
    GoesOn(r, name, 58);
    GoesRuns(r, name + [58]);
  }

  lemma GoesRuns(r: Run, text: seq<byte>)
    requires Goes(r, text)
    ensures var q := Feed(r, text); RunInv(q) && q.halt.Running? && Charge(q) == Charge(r) + |text|
  {
  }

  lemma BlankStep(r: Run, c: byte)
    requires BeforeValue(r) && (c == SPACE || c == TAB) && Charge(r) < HTTP_MAX_HEADER_SIZE
    ensures BeforeValue(Step(r, c)) && !Resets(r, c) && InTrailer(r.p.state) && CleanByte(r.p, c)
  {
    hide Step, RunInv, Switch;
    RestCore(r);
    BlankSwitch(Core(r), c);
    OnByte(r, c);
    CoreOutside(Step(r, c));
  }

  lemma RestCore(r: Run)
    requires RunInv(r) && OutsideLoops(r.p.state)
    ensures Core(r) == r.p.(nread := 0)
  {
    RestInner(r);
  }

  lemma BlankSwitch(p: Parser, c: byte)
    requires p.state.DiscardWs? && (c == SPACE || c == TAB)
    ensures Switch(p, c) == Go(p)
  {
    hide AtStart, AtMethod, AtSpaces, AtUrl, AtHttp, AtNumber, AtChunk, AtBodyIdentity, AtFieldStart, AtValueLws,
         AtDiscardLws, AtHeadersAlmostDone, AtHeadersDone, AtValueStart;
  }

  lemma {:induction false} BlanksGo(r: Run, text: seq<byte>, b: seq<byte>)
    requires Goes(r, text) && BeforeValue(Feed(r, text)) && Blanks(b) && Charge(r) + |text| + |b| <= HTTP_MAX_HEADER_SIZE
    ensures Goes(r, text + b) && BeforeValue(Feed(r, text + b))
    decreases |b|
  {
    hide Step, RunInv, Feed, Goes, Resets, Charge, BeforeValue;
    if b == [] {
      assert text + b == text;
    } else {
      GoesRuns(r, text);
      BlankStep(Feed(r, text), b[0]);
      StepRuns(Step(Feed(r, text), b[0]));
      GoesOn(r, text, b[0]);
      BlanksGo(r, text + [b[0]], b[1..]);
      assert (text + [b[0]]) + b[1..] == text + b;
    }
  }

  lemma StepRuns(r: Run)
    requires BeforeValue(r)
    ensures r.halt.Running?
  {
  }

  /** Inside a value whose header is not Content-Length. */
  predicate InsideValueText(r: Run) {
    RunInv(r) && r.halt.Running? && r.p.state.Value? && !Core(r).headerState.HContentLength?
  }

  lemma ValueFirst(r: Run, c: byte)
    requires BeforeValue(r) && Charge(r) < HTTP_MAX_HEADER_SIZE
    requires c != SPACE && c != TAB && c != CR && c != LF
    ensures InsideValueText(Step(r, c)) && !Resets(r, c) && InTrailer(r.p.state) && CleanByte(r.p, c)
  {
    hide Step, RunInv, Switch;
    RestCore(r);
    ValueSwitch(Core(r), c);
    OnByte(r, c);
    CoreState(Step(r, c));
  }

  lemma ValueSwitch(p: Parser, c: byte)
    requires p.state.DiscardWs? && !p.headerState.HContentLength? && c != SPACE && c != TAB && c != CR && c != LF
    ensures var act := Switch(p, c);
      act.halt.Running? && !act.reset && act.p.state.Value? && !act.p.headerState.HContentLength?
  {
    hide AtStart, AtMethod, AtSpaces, AtUrl, AtHttp, AtNumber, AtChunk, AtBodyIdentity, AtFieldStart, AtValueLws,
         AtDiscardLws, AtHeadersAlmostDone, AtHeadersDone, Lower;
  }

  lemma ValueNext(r: Run, c: byte)
    requires InsideValueText(r) && Charge(r) < HTTP_MAX_HEADER_SIZE && c != CR && c != LF && IsHeaderChar(c)
    ensures InsideValueText(Step(r, c))
  {
    hide Step, RunInv, IsHeaderChar, ValueCore;
    AllowsReach(r);
    StepAccounted(r, c);
    StepGood(r, c);
    ValueChar([], r, c);
    NeverLength(Core(r), c);
    CoreState(r);
    CoreState(Step(r, c));
  }

  lemma NeverLength(p: Parser, c: byte)
    requires !p.headerState.HContentLength? && p.state.Value?
    ensures !ValueCore(p, c).headerState.HContentLength? && ValueCore(p, c).state.Value?
  {
    hide Lower, Token;
  }

  lemma {:induction false} ValueGoes(r: Run, text: seq<byte>, v: seq<byte>)
    requires Goes(r, text) && BeforeValue(Feed(r, text)) && IsValueText(v)
    requires Charge(r) + |text| + |v| <= HTTP_MAX_HEADER_SIZE
    ensures Goes(r, text + v) && InsideValueText(Feed(r, text + v))
    decreases |v|
  {
    hide Step, RunInv, Feed, Goes, Resets, Charge, BeforeValue, InsideValueText, IsHeaderChar, CleanByte;
    var init, c := v[..|v| - 1], v[|v| - 1];
    assert text + v == (text + init) + [c];
    if init == [] {
      assert text + init == text;
      GoesRuns(r, text);
      ValueFirst(Feed(r, text), c);
      InsideRuns(Step(Feed(r, text), c));
      GoesOn(r, text, c);
    } else {
      ValueGoes(r, text, init);
      var q := Feed(r, text + init);
      GoesRuns(r, text + init);
      InsideRuns(q);
      ValueNext(q, c);
      InsideRuns(Step(q, c));
      NoResetInside(q, c);
      HeaderCharIsClean(q.p, c);
      GoesOn(r, text + init, c);
    }
  }

  lemma HeaderCharIsClean(p: Parser, c: byte)
    requires IsHeaderChar(c)
    ensures CleanByte(p, c)
  {
  }

  lemma InsideRuns(r: Run)
    requires InsideValueText(r)
    ensures r.halt.Running? && r.p.state.Value? && InTrailer(r.p.state)
  {
  }

  /** The end of the line. */
  lemma LineEndGoes(r: Run, text: seq<byte>)
    requires Goes(r, text) && InsideValueText(Feed(r, text)) && Charge(r) + |text| + 2 <= HTTP_MAX_HEADER_SIZE
    ensures Goes(r, text + [CR] + [LF]) && AtLine(Feed(r, text + [CR] + [LF]))
  {
    hide Step, RunInv, Feed, Goes, Resets, Charge;
    var q := Feed(r, text);
    GoesRuns(r, text);
    InsideRuns(q);
    LineCr(q);
    NoResetInside(q, CR);
    assert IsHeaderChar(CR);
    GoesOn(r, text, CR);
    GoesRuns(r, text + [CR]);
    LineLf(Feed(r, text + [CR]));
    GoesOn(r, text + [CR], LF);
  }

  lemma LineCr(r: Run)
    requires InsideValueText(r) && Charge(r) < HTTP_MAX_HEADER_SIZE
    ensures Step(r, CR).halt.Running? && Step(r, CR).p.state.HeaderAlmostDone?
  {
    hide Step, RunInv;
    AllowsReach(r);
    StepAccounted(r, CR);
    ValueEnd([], r, CR);
    CoreState(Step(r, CR));
  }

  lemma LineLf(r: Run)
    requires RunInv(r) && r.halt.Running? && r.p.state.HeaderAlmostDone? && Charge(r) < HTTP_MAX_HEADER_SIZE
    ensures Step(r, LF).halt.Running? && Step(r, LF).p.state.ValueLws? && RunInv(Step(r, LF))
    ensures !Resets(r, LF) && InTrailer(r.p.state) && CleanByte(r.p, LF)
  {
    hide Step, RunInv, Switch;
    RestCore(r);
    AlmostDoneSwitch(Core(r));
    OnByte(r, LF);
    CoreState(Step(r, LF));
  }

  /** A whole line. */
  lemma LineGoes(r: Run, f: Line)
    requires AtLine(r) && IsLine(f) && Charge(r) + |LineText(f)| < HTTP_MAX_HEADER_SIZE
    ensures Goes(r, LineText(f)) && AtLine(Feed(r, LineText(f)))
  {
    hide Step, RunInv, Feed, Goes, Charge, BeforeValue, InsideValueText, AtLine, IsToken, Spells, Blanks, IsValueText;
    ColonGoes(r, f.name);
    BlanksGo(r, f.name + [58], f.blanks);
    ValueGoes(r, f.name + [58] + f.blanks, f.value);
    LineEndGoes(r, f.name + [58] + f.blanks + f.value);
  }

  lemma {:induction false} LinesGo(r: Run, lines: seq<Line>)
    requires AtLine(r) && (forall i :: 0 <= i < |lines| ==> IsLine(lines[i]))
    requires Charge(r) + |LinesText(lines)| < HTTP_MAX_HEADER_SIZE
    ensures Goes(r, LinesText(lines)) && AtLine(Feed(r, LinesText(lines)))
    decreases |lines|
  {
    hide Step, RunInv, Feed, Charge, Passes, IsLine, LineText;
    if lines == [] {
      GoesNowhere(r);
      FeedNothing(r);
    } else {
      var a, b := LineText(lines[0]), LinesText(lines[1..]);
      LineGoes(r, lines[0]);
      LinesGo(Feed(r, a), lines[1..]);
      FeedConcat(r, a, b);
      PassesConcat(r, a, b);
    }
  }

  /** Every list of ordinary fields that the limit has room for is a trailer: the parser
      accepts it, cut or whole, and the message ends with the empty line after it. */
  lemma FieldsAreTrailer(r: Run, lines: seq<Line>)
    requires RunInv(r) && r.halt.Running? && r.p.state.FieldStart? && r.p.flags.trailing
    requires forall i :: 0 <= i < |lines| ==> IsLine(lines[i])
    requires r.p.nread + |LinesText(lines)| + 2 < HTTP_MAX_HEADER_SIZE
    ensures EndsTrailer(r, LinesText(lines) + CRLF) && Clean(r, LinesText(lines) + CRLF)
  {
    hide Step, RunInv, Feed, Goes, Charge, IsLine, LinesText;
    RestCharge(r);
    LinesGo(r, lines);
    GoesRuns(r, LinesText(lines));
    GoesPasses(r, LinesText(lines));
    TrailingKept(r, LinesText(lines));
    EmptyLine(Feed(r, LinesText(lines)));
    PassesThen(r, LinesText(lines), CRLF);
  }

  lemma GoesPasses(r: Run, text: seq<byte>)
    requires Goes(r, text)
    ensures Passes(r, text)
  {
  }

  lemma {:induction false} TrailingKept(r: Run, t: seq<byte>)
    requires RunInv(r) && r.p.flags.trailing && Passes(r, t)
    ensures Feed(r, t).p.flags.trailing
    decreases |t|
  {
    hide Step, RunInv, CleanByte;
    if t != [] {
      QuietByte(r, t[0]);
      StepGood(r, t[0]);
      TrailingKept(Step(r, t[0]), t[1..]);
    }
  }

  lemma EmptyLine(r: Run)
    requires AtLine(r) && r.p.flags.trailing && Charge(r) + 2 <= HTTP_MAX_HEADER_SIZE
    ensures EndsTrailer(r, CRLF) && Clean(r, CRLF)
  {
    hide Step, RunInv, Switch;
    RestCore(r);
    LineCrSwitch(Core(r));
    OnByte(r, CR);
    var q := Step(r, CR);
    CoreState(q);
    CoreFlags(q);
    RestCore(q);
    FieldStartEnds(Core(q));
    OnByte(q, LF);
    CoreState(Step(q, LF));
    assert CRLF[1..] == [LF] && [LF][1..] == [];
    assert Clean(Step(q, LF), []);
    assert Clean(q, [LF]);
    assert EndsTrailer(q, [LF]);
  }

  lemma LineCrSwitch(p: Parser)
    requires p.state.FieldStart? || p.state.ValueLws?
    ensures var act := Switch(p, CR);
      act.halt.Running? && !act.reset && act.p.state.HeadersAlmostDone? && act.p.flags.trailing == p.flags.trailing
  {
    hide AtStart, AtMethod, AtSpaces, AtUrl, AtHttp, AtNumber, AtChunk, AtBodyIdentity, AtValueStart,
         AtDiscardLws, AtDiscardWs, AtHeadersAlmostDone, AtHeadersDone;
  }
}
