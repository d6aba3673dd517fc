/** What the parser reports of a message: its method, its lengths and its body. */
module HttpMessage {
  import opened Bytes
  import opened HttpTypes
  import opened HttpMachine
  import opened HttpInvariant
  import opened HttpCut

  // One byte outside the inner loops, as an equation

  function Counted(r: Run): Run {
    if ParsingHeader(r.p.state) then r.(p := r.p.(nread := r.p.nread + 1)) else r
  }

  lemma PlainStep(r: Run, c: byte)
    requires RunInv(r) && r.halt.Running? && !r.p.state.Field? && !r.p.state.Value?
    requires ParsingHeader(r.p.state) ==> r.p.nread < HTTP_MAX_HEADER_SIZE
    ensures var act := Switch(r.p.(nread := 0), c); var q := Perform(Counted(r), act, c);
      Step(r, c) == if act.halt.Failed? then q else WithByte(q, c).(consumed := q.consumed + 1)
    ensures !Step(r, c).halt.Failed? ==> RunInv(Step(r, c))
  {
    hide Switch, FlushCalls, FlushMark, Notices, RunInv, InField, InValue, ParsingHeader;
    AtRest(r);
    StepGood(r, c);
  }

  lemma SwitchAtChunk(p: Parser, c: byte)
    requires IsChunkState(p.state)
    ensures Switch(p, c) == AtChunk(p, c)
  {
    hide AtStart, AtMethod, AtSpaces, AtUrl, AtHttp, AtNumber, AtChunk, AtHeader, AtBodyIdentity, AtMessageDone;
  }

  // Runs that stay out of the two header loops

  predicate OutsideLoops(s: State) { !s.Field? && !s.Value? }

  predicate Outside(r: Run, data: seq<byte>)
    decreases |data|
  {
    data == [] || !r.halt.Running? || (OutsideLoops(r.p.state) && Outside(Step(r, data[0]), data[1..]))
  }

  lemma {:induction false} OutsideConcat(r: Run, a: seq<byte>, b: seq<byte>)
    ensures Outside(r, a + b) <==> Outside(r, a) && Outside(Feed(r, a), b)
    decreases |a|
  {
    hide Step;
    if a == [] {
      assert a + b == b;
    } else {
      assert (a + b)[0] == a[0] && (a + b)[1..] == a[1..] + b;
      if r.halt.Running? { OutsideConcat(Step(r, a[0]), a[1..], b); }
    }
  }

  lemma OutsideOne(r: Run, c: byte)
    requires OutsideLoops(r.p.state)
    ensures Outside(r, [c])
  {
    hide Step;
    assert [c][1..] == [];
  }

  lemma OutsideSnoc(r: Run, text: seq<byte>)
    requires text != [] && Outside(r, text[..|text| - 1]) && OutsideLoops(Feed(r, text[..|text| - 1]).p.state)
    ensures Outside(r, text)
  {
    hide Outside, Feed, OutsideLoops;
    assert text == text[..|text| - 1] + [text[|text| - 1]];
    OutsideConcat(r, text[..|text| - 1], [text[|text| - 1]]);
    OutsideOne(Feed(r, text[..|text| - 1]), text[|text| - 1]);
  }

  lemma {:induction false} OutsideIsClean(r: Run, data: seq<byte>)
    requires Outside(r, data)
    ensures Clean(r, data)
    decreases |data|
  {
    hide Step;
    if data != [] && r.halt.Running? { OutsideIsClean(Step(r, data[0]), data[1..]); }
  }

  // Chunk sizes

  function HexDigit(c: byte): nat { if Unhex(c) == -1 then 0 else Unhex(c) }

  function HexValue(text: seq<byte>): nat {
    if text == [] then 0 else HexValue(text[..|text| - 1]) * 16 + HexDigit(text[|text| - 1])
  }

  predicate IsHexText(text: seq<byte>) { forall i :: 0 <= i < |text| ==> Unhex(text[i]) != -1 }

  lemma FeedSnoc(r: Run, text: seq<byte>)
    requires text != []
    ensures var q := Feed(r, text[..|text| - 1]);
      Feed(r, text) == if q.halt.Running? then Step(q, text[|text| - 1]) else q
  {
    hide Step;
    var c := text[|text| - 1];
    assert text == text[..|text| - 1] + [c];
    FeedConcat(r, text[..|text| - 1], [c]);
    var q := Feed(r, text[..|text| - 1]);
    assert [c][1..] == [];
    if q.halt.Running? { assert Feed(q, [c]) == Feed(Step(q, c), []); FeedNothing(Step(q, c)); }
  }

  lemma FeedNothing(r: Run)
    ensures Feed(r, []) == r
  {
  }

  /** The largest size so far that may take another digit. */
  const CHUNK_LIMIT: nat := (ULLONG_MAX - 16) / 16

  lemma SizeStartStep(r: Run, c: byte)
    requires RunInv(r) && r.halt.Running? && r.p.state.ChunkSizeStart? && Unhex(c) != -1
    ensures Step(r, c) == r.(p := r.p.(state := ChunkSize, contentLength := Unhex(c), nread := 1),
                             consumed := r.consumed + 1)
    ensures RunInv(Step(r, c))
  {
    hide Switch, Step, Unhex;
    PlainStep(r, c);
    SwitchAtChunk(r.p.(nread := 0), c);
    assert r.calls + ([] + Notices([])) == r.calls;
  }

  lemma SizeStep(r: Run, c: byte)
    requires RunInv(r) && r.halt.Running? && r.p.state.ChunkSize? && r.p.nread < HTTP_MAX_HEADER_SIZE
    requires Unhex(c) != -1
    ensures if r.p.contentLength <= CHUNK_LIMIT
            then Step(r, c) == r.(p := r.p.(contentLength := r.p.contentLength * 16 + Unhex(c),
                                            nread := r.p.nread + 1), consumed := r.consumed + 1)
                 && RunInv(Step(r, c))
            else Step(r, c).halt.Failed? && Step(r, c).p.errno.InvalidContentLength?
  {
    hide Switch, Step, RunInv;
    PlainStep(r, c);
    SwitchAtChunk(r.p.(nread := 0), c);
    assert r.calls + ([] + Notices([])) == r.calls;
    assert Unhex(CR) == -1;
    AtRest(r);
  }

  lemma OutsideHalted(r: Run, a: seq<byte>, b: seq<byte>)
    requires Outside(r, a) && !Feed(r, a).halt.Running?
    ensures Outside(r, a + b)
  {
    OutsideConcat(r, a, b);
  }

  /** A size line is accepted exactly when what precedes its last digit is within the
      limit, and then the length is the number its digits write, below the sentinel. */
  lemma {:induction false} SizeDigits(r: Run, text: seq<byte>)
    requires RunInv(r) && r.halt.Running? && r.p.state.ChunkSizeStart?
    requires text != [] && IsHexText(text) && |text| < HTTP_MAX_HEADER_SIZE
    ensures var q := Feed(r, text);
      if HexValue(text[..|text| - 1]) <= CHUNK_LIMIT
      then && HexValue(text) < ULLONG_MAX && RunInv(q)
           && q == r.(p := r.p.(state := ChunkSize, contentLength := HexValue(text), nread := |text|),
                      consumed := r.consumed + |text|)
      else q.halt.Failed? && q.p.errno.InvalidContentLength?
    ensures Outside(r, text)
    decreases |text|
  {
    hide Step, RunInv, Feed, Unhex, Outside;
    var init, c := text[..|text| - 1], text[|text| - 1];
    FeedSnoc(r, text);
    if init == [] {
      FeedNothing(r);
      SizeStartStep(r, c);
      OutsideOne(r, c);
      assert text == [c];
    } else {
      SizeDigits(r, init);
      HexSnoc(init);
      if Feed(r, init).halt.Running? {
        SizeStep(Feed(r, init), c);
        OutsideSnoc(r, text);
      } else {
        OutsideHalted(r, init, [c]);
        assert init + [c] == text;
      }
    }
  }

  lemma SizeEnd(r: Run)
    requires RunInv(r) && r.halt.Running? && (r.p.state.ChunkSize? || r.p.state.ChunkParameters?)
    requires r.p.nread + 2 <= HTTP_MAX_HEADER_SIZE
    ensures var q := Feed(r, [CR, LF]); var n := r.p.contentLength;
      && RunInv(q)
      && q == r.(p := r.p.(state := if n == 0 then FieldStart else ChunkData, nread := 0,
                           flags := if n == 0 then r.p.flags.(trailing := true) else r.p.flags),
                 calls := r.calls + [Notify(ChunkHeader)], consumed := r.consumed + 2)
    ensures Outside(r, [CR, LF])
  {
    hide Switch, Step, RunInv, Feed, Outside;
    SizeEndCr(r);
    SizeEndLf(Step(r, CR));
    TwoBytes(r, CR, LF);
  }

  lemma TwoBytes(r: Run, c: byte, d: byte)
    requires r.halt.Running? && Step(r, c).halt.Running?
    ensures Feed(r, [c, d]) == Step(Step(r, c), d)
    ensures OutsideLoops(r.p.state) && OutsideLoops(Step(r, c).p.state) ==> Outside(r, [c, d])
  {
    hide Step;
    if OutsideLoops(Step(r, c).p.state) { OutsideOne(Step(r, c), d); }
    assert [c, d][1..] == [d] && [d][1..] == [];
    FeedNothing(Step(Step(r, c), d));
  }

  lemma SizeEndCr(r: Run)
    requires RunInv(r) && r.halt.Running? && (r.p.state.ChunkSize? || r.p.state.ChunkParameters?)
    requires r.p.nread < HTTP_MAX_HEADER_SIZE
    ensures Step(r, CR) == r.(p := r.p.(state := ChunkSizeAlmostDone, nread := r.p.nread + 1),
                              consumed := r.consumed + 1)
    ensures RunInv(Step(r, CR))
  {
    hide Switch, Step, RunInv;
    PlainStep(r, CR);
    AtRest(r);
    SwitchAtChunk(r.p.(nread := 0), CR);
    assert r.calls + ([] + Notices([])) == r.calls;
  }

  lemma SizeEndLf(r: Run)
    requires RunInv(r) && r.halt.Running? && r.p.state.ChunkSizeAlmostDone? && r.p.nread < HTTP_MAX_HEADER_SIZE
    ensures var q := Step(r, LF); var n := r.p.contentLength;
      && RunInv(q)
      && q == r.(p := r.p.(state := if n == 0 then FieldStart else ChunkData, nread := 0,
                           flags := if n == 0 then r.p.flags.(trailing := true) else r.p.flags),
                 calls := r.calls + [Notify(ChunkHeader)], consumed := r.consumed + 1)
  {
    hide Switch, Step, RunInv;
    PlainStep(r, LF);
    AtRest(r);
    SwitchAtChunk(r.p.(nread := 0), LF);
    assert [] + Notices([ChunkHeader]) == [Notify(ChunkHeader)];
  }

  // Body bytes

  /** The mark a body byte extends. */
  function BodyMark(m: Mark, text: seq<byte>): Mark {
    if m.Mark? then Mark(Body, m.text + text) else Mark(Body, text)
  }

  lemma DataStep(r: Run, c: byte)
    requires RunInv(r) && r.halt.Running? && r.p.state.ChunkData?
    ensures var q := Step(r, c); var n := r.p.contentLength - 1;
      && RunInv(q)
      && q == r.(p := r.p.(state := if n == 0 then ChunkDataAlmostDone else ChunkData, contentLength := n),
                 mark := BodyMark(r.mark, [c]), consumed := r.consumed + 1)
  {
    hide Switch, Step, Name, NameState, ValueState;
    PlainStep(r, c);
    SwitchAtChunk(r.p.(nread := 0), c);
    assert r.calls + ([] + Notices([])) == r.calls;
    assert [] + [c] == [c];
  }

  /** A body state reads bytes until its length is used up, whatever the bytes are. */
  lemma {:induction false} DataRun(r: Run, d: seq<byte>)
    requires RunInv(r) && r.halt.Running? && r.p.state.ChunkData? && d != [] && |d| <= r.p.contentLength
    ensures var q := Feed(r, d); var n := r.p.contentLength - |d|;
      && RunInv(q)
      && q == r.(p := r.p.(state := if n == 0 then ChunkDataAlmostDone else ChunkData, contentLength := n),
                 mark := BodyMark(r.mark, d), consumed := r.consumed + |d|)
    ensures Outside(r, d)
    decreases |d|
  {
    hide Step, RunInv;
    DataStep(r, d[0]);
    if |d| == 1 {
      OutsideOne(r, d[0]);
      FeedNothing(Step(r, d[0]));
      assert d[1..] == [] && d == [d[0]];
    } else {
      DataRun(Step(r, d[0]), d[1..]);
      assert BodyMark(BodyMark(r.mark, [d[0]]), d[1..]) == BodyMark(r.mark, d) by {
        assert [d[0]] + d[1..] == d;
        if r.mark.Mark? { assert (r.mark.text + [d[0]]) + d[1..] == r.mark.text + d; }
      }
    }
  }

  lemma DataCr(r: Run, d: seq<byte>)
    requires RunInv(r) && r.halt.Running? && r.p.state.ChunkDataAlmostDone? && r.mark == Mark(Body, d)
    ensures var q := Step(r, CR);
      RunInv(q) && q == r.(p := r.p.(state := ChunkDataDone), mark := NoMark, calls := r.calls + [Data(Body, d)],
                           consumed := r.consumed + 1)
  {
    hide Switch, Step, RunInv;
    PlainStep(r, CR);
    AtRest(r);
    SwitchAtChunk(r.p.(nread := 0), CR);
    assert [Data(Body, d)] + Notices([]) == [Data(Body, d)];
  }

  lemma DataLf(r: Run)
    requires RunInv(r) && r.halt.Running? && r.p.state.ChunkDataDone? && r.mark.NoMark?
    ensures var q := Step(r, LF);
      RunInv(q) && q == r.(p := r.p.(state := ChunkSizeStart, nread := 0), calls := r.calls + [Notify(ChunkComplete)],
                           consumed := r.consumed + 1)
  {
    hide Switch, Step, RunInv;
    PlainStep(r, LF);
    AtRest(r);
    SwitchAtChunk(r.p.(nread := 0), LF);
    assert [] + Notices([ChunkComplete]) == [Notify(ChunkComplete)];
  }

  lemma DataEnd(r: Run, d: seq<byte>)
    requires RunInv(r) && r.halt.Running? && r.p.state.ChunkDataAlmostDone? && r.mark == Mark(Body, d)
    ensures var q := Feed(r, [CR, LF]);
      && RunInv(q)
      && q == r.(p := r.p.(state := ChunkSizeStart, nread := 0), mark := NoMark,
                 calls := r.calls + [Data(Body, d), Notify(ChunkComplete)], consumed := r.consumed + 2)
    ensures Outside(r, [CR, LF])
  {
    hide Switch, Step, RunInv, Feed, Outside;
    DataCr(r, d);
    var q := Step(r, CR);
    DataLf(q);
    assert (r.calls + [Data(Body, d)]) + [Notify(ChunkComplete)] == r.calls + [Data(Body, d), Notify(ChunkComplete)];
    TwoBytes(r, CR, LF);
  }

  const CRLF: seq<byte> := [CR, LF]

  /** A chunk extension: nothing, or anything but a CR after a semicolon or a space. */
  predicate IsExtension(ext: seq<byte>) { ext == [] || ((ext[0] == 59 || ext[0] == SPACE) && CR !in ext) }

  /** A size line as RFC 7230 section 4.1 frames it, without its end. */
  predicate IsSizeLine(size: seq<byte>, ext: seq<byte>, n: nat) {
    && size != [] && IsHexText(size) && HexValue(size) == n && IsExtension(ext)
    && |size| + |ext| + 2 <= HTTP_MAX_HEADER_SIZE
  }

  function ChunkText(size: seq<byte>, ext: seq<byte>, d: seq<byte>): seq<byte> { size + ext + CRLF + d + CRLF }

  /** One byte of an extension. */
  lemma ExtensionByte(r: Run, c: byte)
    requires RunInv(r) && r.halt.Running? && r.p.nread < HTTP_MAX_HEADER_SIZE
    requires (r.p.state.ChunkSize? && (c == 59 || c == SPACE)) || (r.p.state.ChunkParameters? && c != CR)
    ensures Step(r, c) == r.(p := r.p.(state := ChunkParameters, nread := r.p.nread + 1), consumed := r.consumed + 1)
    ensures RunInv(Step(r, c))
  {
    hide Switch, Step, RunInv;
    PlainStep(r, c);
    AtRest(r);
    SwitchAtChunk(r.p.(nread := 0), c);
    assert r.calls + ([] + Notices([])) == r.calls;
  }

  lemma {:induction false} ExtensionRun(r: Run, ext: seq<byte>)
    requires RunInv(r) && r.halt.Running? && r.p.nread + |ext| <= HTTP_MAX_HEADER_SIZE && CR !in ext
    requires (r.p.state.ChunkSize? && IsExtension(ext)) || r.p.state.ChunkParameters?
    ensures var q := Feed(r, ext);
      && RunInv(q)
      && q == r.(p := r.p.(state := if ext == [] then r.p.state else ChunkParameters, nread := r.p.nread + |ext|),
                 consumed := r.consumed + |ext|)
    ensures Outside(r, ext)
    decreases |ext|
  {
    hide Step, RunInv;
    if ext == [] {
      FeedNothing(r);
    } else {
      ExtensionByte(r, ext[0]);
      ExtensionRun(Step(r, ext[0]), ext[1..]);
    }
  }

  /** A size line to its end. */
  lemma SizeLine(r: Run, size: seq<byte>, ext: seq<byte>, n: nat)
    requires RunInv(r) && r.halt.Running? && r.p.state.ChunkSizeStart? && IsSizeLine(size, ext, n)
    requires n <= ULLONG_MAX - 16
    ensures var q := Feed(r, size + ext + CRLF);
      && RunInv(q)
      && q == r.(p := r.p.(state := if n == 0 then FieldStart else ChunkData, nread := 0, contentLength := n,
                           flags := if n == 0 then r.p.flags.(trailing := true) else r.p.flags),
                 calls := r.calls + [Notify(ChunkHeader)], consumed := r.consumed + |size + ext + CRLF|)
    ensures Outside(r, size + ext + CRLF)
  {
    hide Step, RunInv, Feed, HexValue, IsHexText, Outside, IsExtension;
    HexSnoc(size);
    assert HexValue(size[..|size| - 1]) <= CHUNK_LIMIT;
    SizeDigits(r, size);
    NoCrInside(ext);
    ExtensionRun(Feed(r, size), ext);
    SizeEnd(Feed(Feed(r, size), ext));
    FeedConcat(r, size, ext);
    FeedConcat(r, size + ext, CRLF);
    OutsideConcat(r, size, ext);
    OutsideConcat(r, size + ext, CRLF);
  }

  lemma NoCrInside(ext: seq<byte>)
    requires IsExtension(ext)
    ensures CR !in ext
  {
  }

  /** A chunk, whatever its extension, makes three callbacks with exactly its bytes. */
  lemma WholeChunk(r: Run, size: seq<byte>, ext: seq<byte>, d: seq<byte>)
    requires RunInv(r) && r.halt.Running? && r.p.state.ChunkSizeStart?
    requires d != [] && IsSizeLine(size, ext, |d|) && |d| <= ULLONG_MAX - 16
    ensures var q := Feed(r, ChunkText(size, ext, d));
      && RunInv(q)
      && q == r.(p := r.p.(contentLength := 0, nread := 0),
                 calls := r.calls + [Notify(ChunkHeader), Data(Body, d), Notify(ChunkComplete)],
                 consumed := r.consumed + |ChunkText(size, ext, d)|)
    ensures Outside(r, ChunkText(size, ext, d))
  {
    hide Step, RunInv, Feed, HexValue, IsHexText, Outside, IsSizeLine;
    MarkAtStart(r);
    var line := size + ext + CRLF;
    SizeLine(r, size, ext, |d|);
    var r2 := Feed(r, line);
    DataRun(r2, d);
    var r3 := Feed(r2, d);
    DataEnd(r3, d);
    FeedConcat(r, line, d);
    FeedConcat(r, line + d, CRLF);
    OutsideConcat(r, line, d);
    OutsideConcat(r, line + d, CRLF);
    assert (r.calls + [Notify(ChunkHeader)]) + [Data(Body, d), Notify(ChunkComplete)]
        == r.calls + [Notify(ChunkHeader), Data(Body, d), Notify(ChunkComplete)];
  }

  lemma HexSnoc(text: seq<byte>)
    requires text != []
    ensures HexValue(text) == HexValue(text[..|text| - 1]) * 16 + HexDigit(text[|text| - 1])
  {
  }

  lemma MarkAtStart(r: Run)
    requires RunInv(r) && r.p.state.ChunkSizeStart?
    ensures r.mark.NoMark? && r.p.nread == 0 && r.inner == 0
  {
    hide Name, NameState, ValueState;
  }

  lemma TrailerEnd(r: Run)
    requires RunInv(r) && r.halt.Running? && r.p.state.FieldStart? && r.p.flags.trailing
    requires r.p.nread + 2 <= HTTP_MAX_HEADER_SIZE
    ensures var q := Feed(r, CRLF);
      && !q.halt.Failed? && (q.halt.Upgraded? <==> r.p.upgrade) && RunInv(q)
      && q.p == r.p.(state := NewMessage(r.p), nread := r.p.nread + 2)
      && q.calls == r.calls + [Notify(ChunkComplete), Notify(MessageComplete)]
      && q.consumed == r.consumed + 2 && q.mark.NoMark?
    ensures Outside(r, CRLF)
  {
    hide Switch, Step, RunInv, Feed, Outside;
    PlainStep(r, CR);
    AtRest(r);
    FieldStartEnds(r.p.(nread := 0));
    var q := Step(r, CR);
    assert r.calls + ([] + Notices([])) == r.calls;
    assert q == r.(p := r.p.(state := HeadersAlmostDone, nread := r.p.nread + 1), consumed := r.consumed + 1);
    PlainStep(q, LF);
    AtRest(q);
    FieldStartEnds(q.p.(nread := 0));
    assert [] + Notices([ChunkComplete, MessageComplete]) == [Notify(ChunkComplete), Notify(MessageComplete)];
    TwoBytes(r, CR, LF);
  }

  lemma FieldStartEnds(p: Parser)
    ensures p.state.FieldStart? ==> Switch(p, CR) == To(p, HeadersAlmostDone)
    ensures p.state.HeadersAlmostDone? && p.flags.trailing ==>
      Switch(p, LF) == To(p, NewMessage(p)).(notices := [ChunkComplete, MessageComplete],
                                             halt := if p.upgrade then Upgraded else Running)
  {
    hide AtStart, AtMethod, AtSpaces, AtUrl, AtHttp, AtNumber, AtChunk, AtBodyIdentity, AtValueStart, AtHeadersDone,
         AtValueLws, AtDiscardLws, AtDiscardWs;
  }

  /** The last size line and an empty trailer. */
  function LastText(size: seq<byte>, ext: seq<byte>): seq<byte> { size + ext + CRLF + CRLF }

  /** The empty chunk, whatever its extension, and an empty trailer end the message once. */
  lemma LastChunk(r: Run, size: seq<byte>, ext: seq<byte>)
    requires RunInv(r) && r.halt.Running? && r.p.state.ChunkSizeStart? && IsSizeLine(size, ext, 0)
    ensures var q := Feed(r, LastText(size, ext)); var f := r.p.flags.(trailing := true);
      && !q.halt.Failed? && RunInv(q)
      && q.p == r.p.(state := NewMessage(r.p), flags := f, contentLength := 0, nread := 2)
      && q.calls == r.calls + [Notify(ChunkHeader), Notify(ChunkComplete), Notify(MessageComplete)]
      && q.consumed == r.consumed + |LastText(size, ext)| && q.mark.NoMark?
    ensures Outside(r, LastText(size, ext))
  {
    hide Step, RunInv, Feed, Outside, IsSizeLine;
    MarkAtStart(r);
    var line := size + ext + CRLF;
    SizeLine(r, size, ext, 0);
    TrailerEnd(Feed(r, line));
    FeedConcat(r, line, CRLF);
    OutsideConcat(r, line, CRLF);
    assert (r.calls + [Notify(ChunkHeader)]) + [Notify(ChunkComplete), Notify(MessageComplete)]
        == r.calls + [Notify(ChunkHeader), Notify(ChunkComplete), Notify(MessageComplete)];
  }

  // A body read to its Content-Length

  lemma BodyStep(r: Run, c: byte)
    requires RunInv(r) && r.halt.Running? && r.p.state.BodyIdentity?
    ensures var q := Step(r, c); var n := r.p.contentLength - 1; var text := BodyMark(r.mark, [c]).text;
      && RunInv(q)
      && q == if n > 0 then r.(p := r.p.(contentLength := n), mark := Mark(Body, text), consumed := r.consumed + 1)
              else r.(p := r.p.(state := NewMessage(r.p), contentLength := 0), mark := NoMark,
                      calls := r.calls + [Data(Body, text), Notify(MessageComplete)],
                      halt := if r.p.upgrade then Upgraded else Running, consumed := r.consumed + 1)
  {
    hide Step, ParsingHeader, RunInv, AtBodyIdentity, Switch;
    assert !ParsingHeader(r.p.state) by { BodyNotCounted(r.p.state); }
    PlainStep(r, c);
    BodySwitch(r.p.(nread := 0), c);
    BodyFacts(r);
    if r.p.contentLength > 1 { BodyGoesOn(r, c); } else { BodyEnds(r, c); }
  }

  lemma BodyFacts(r: Run)
    requires RunInv(r) && r.p.state.BodyIdentity?
    ensures r.p.contentLength > 0 && r.inner == 0 && r.skip == 0 && (r.mark.Mark? ==> r.mark.kind.Body?)
  {
    hide Name, NameState, ValueState;
  }

  lemma BodyGoesOn(r: Run, c: byte)
    requires r.p.state.BodyIdentity? && r.p.contentLength > 1 && (r.mark.Mark? ==> r.mark.kind.Body?) && r.halt.Running?
    ensures var act := AtBodyIdentity(r.p.(nread := 0));
      !act.halt.Failed? &&
      WithByte(Perform(r, act, c), c) == r.(p := r.p.(contentLength := r.p.contentLength - 1), mark := BodyMark(r.mark, [c]))
  {
    assert r.calls + ([] + Notices([])) == r.calls;
    assert [] + [c] == [c];
  }

  lemma BodyEnds(r: Run, c: byte)
    requires r.p.state.BodyIdentity? && r.p.contentLength == 1 && (r.mark.Mark? ==> r.mark.kind.Body?) && r.halt.Running?
    ensures var act := AtBodyIdentity(r.p.(nread := 0)); var text := BodyMark(r.mark, [c]).text;
      !act.halt.Failed? &&
      WithByte(Perform(r, act, c), c) ==
        r.(p := r.p.(state := NewMessage(r.p), contentLength := 0), mark := NoMark,
           calls := r.calls + [Data(Body, text), Notify(MessageComplete)], halt := if r.p.upgrade then Upgraded else Running)
  {
    assert [] + [c] == [c];
    assert [Data(Body, BodyMark(r.mark, [c]).text)] + Notices([MessageComplete])
        == [Data(Body, BodyMark(r.mark, [c]).text), Notify(MessageComplete)];
  }

  lemma BodyNotCounted(s: State)
    ensures s.BodyIdentity? ==> !ParsingHeader(s)
  {
  }

  lemma BodySwitch(p: Parser, c: byte)
    requires p.state.BodyIdentity?
    ensures Switch(p, c) == AtBodyIdentity(p)
  {
    hide AtStart, AtMethod, AtSpaces, AtUrl, AtHttp, AtNumber, AtChunk, AtHeader, AtBodyIdentity;
  }

  /** Exactly content_length bytes go to on_body, in order, and then the message is complete. */
  lemma {:induction false} BodyRun(r: Run, d: seq<byte>)
    requires RunInv(r) && r.halt.Running? && r.p.state.BodyIdentity? && d != [] && |d| == r.p.contentLength
    ensures var q := Feed(r, d);
      && RunInv(q)
      && q == r.(p := r.p.(state := NewMessage(r.p), contentLength := 0), mark := NoMark,
                 calls := r.calls + [Data(Body, BodyMark(r.mark, d).text), Notify(MessageComplete)],
                 halt := if r.p.upgrade then Upgraded else Running, consumed := r.consumed + |d|)
    ensures Outside(r, d)
    decreases |d|
  {
    hide Step, RunInv;
    BodyStep(r, d[0]);
    if |d| == 1 {
      OutsideOne(r, d[0]);
      FeedNothing(Step(r, d[0]));
      assert d[1..] == [] && d == [d[0]];
    } else {
      BodyRun(Step(r, d[0]), d[1..]);
      assert BodyMark(BodyMark(r.mark, [d[0]]), d[1..]).text == BodyMark(r.mark, d).text by {
        assert [d[0]] + d[1..] == d;
        if r.mark.Mark? { assert (r.mark.text + [d[0]]) + d[1..] == r.mark.text + d; }
      }
    }
  }

  // Outside the loops no cut changes anything, the byte counter included

  lemma FieldsStep(r1: Run, r2: Run, c: byte)
    requires RunInv(r1) && RunInv(r2) && r1.halt.Running? && r2.halt.Running? && r1.p == r2.p
    requires OutsideLoops(r1.p.state)
    ensures Step(r1, c).p == Step(r2, c).p && Step(r1, c).halt == Step(r2, c).halt
    ensures Step(r1, c).consumed - r1.consumed == Step(r2, c).consumed - r2.consumed
  {
    hide FieldsAfter, Step, RunInv;
    StepFields(r1, c);
    StepFields(r2, c);
    StepCounts(r1, c);
    StepCounts(r2, c);
  }

  /** The fields and the halt a byte leaves, outside the loops. */
  function FieldsAfter(p: Parser, c: byte): (Parser, Halt) {
    var n := if ParsingHeader(p.state) then p.nread + 1 else p.nread;
    if ParsingHeader(p.state) && n > HTTP_MAX_HEADER_SIZE then (p.(nread := n, errno := HeaderOverflow), Failed)
    else
      var act := Switch(p.(nread := 0), c);
      (act.p.(nread := if act.reset then 0 else n), act.halt)
  }

  lemma StepFields(r: Run, c: byte)
    requires RunInv(r) && r.halt.Running? && OutsideLoops(r.p.state)
    ensures (Step(r, c).p, Step(r, c).halt) == FieldsAfter(r.p, c)
  {
    hide Switch, RunInv, FlushCalls, FlushMark, Notices, ParsingHeader, InField, InValue;
    AtRest(r);
  }

  lemma {:induction false} FieldsFeed(r1: Run, r2: Run, data: seq<byte>)
    requires RunInv(r1) && RunInv(r2) && r1.halt == r2.halt && !r1.halt.Failed? && r1.p == r2.p
    requires Outside(r1, data) && !Feed(r1, data).halt.Failed?
    ensures Feed(r1, data).p == Feed(r2, data).p && Feed(r1, data).halt == Feed(r2, data).halt
    ensures RunInv(Feed(r1, data)) && RunInv(Feed(r2, data))
    ensures Feed(r1, data).consumed - r1.consumed == Feed(r2, data).consumed - r2.consumed <= |data|
    decreases |data|
  {
    hide Step, RunInv;
    if data != [] && r1.halt.Running? {
      FieldsStep(r1, r2, data[0]);
      StepGood(r1, data[0]);
      StepGood(r2, data[0]);
      StepCounts(r1, data[0]);
      if Step(r1, data[0]).halt.Failed? { FailedFeed(Step(r1, data[0]), data[1..]); }
      FieldsFeed(Step(r1, data[0]), Step(r2, data[0]), data[1..]);
    }
  }

  lemma FailedFeed(r: Run, data: seq<byte>)
    ensures !r.halt.Running? ==> Feed(r, data) == r
  {
  }

  /** Where a call ends outside the loops, nothing is charged. */
  lemma FinishOutside(r: Run)
    requires RunInv(r) && OutsideEnd(r)
    ensures Finish(r).p == r.p
  {
  }

  predicate OutsideEnd(r: Run) { r.inner == 0 && !r.halt.Failed? }

  /** A stretch of input on which the parser never waits in a header loop, and does not fail. */
  predicate Stretch(r: Run, data: seq<byte>) {
    && Outside(r, data) && !Feed(r, data).halt.Failed?
    && OutsideLoops(Feed(r, data).p.state)
    && Feed(r, data).consumed == r.consumed + |data|
  }

  lemma StretchPrefix(r: Run, a: seq<byte>, b: seq<byte>)
    requires RunInv(r) && r.halt.Running? && Stretch(r, a + b) && b != []
    ensures Stretch(r, a) && Feed(r, a).halt.Running? && Stretch(Feed(r, a), b)
    ensures Outside(r, a) && RunInv(Feed(r, a))
  {
    hide Step, RunInv, Feed, Outside;
    FeedConcat(r, a, b);
    OutsideConcat(r, a, b);
    var q := Feed(r, a);
    FailedFeed(q, b);
    FieldsFeed(r, r, a);
    if q.halt.Running? {
      EntryOutside(q, b);
      FieldsFeed(q, q, b);
    }
  }

  lemma EntryOutside(r: Run, data: seq<byte>)
    requires data != [] && r.halt.Running? && Outside(r, data)
    ensures OutsideLoops(r.p.state)
  {
  }

  lemma {:induction false} StretchPieces(r: Run, p: Parser, pieces: seq<seq<byte>>)
    requires RunInv(r) && r.halt.Running? && Inv(p) && r.p == p && r.inner == 0
    requires pieces != [] && forall i :: 0 <= i < |pieces| ==> pieces[i] != []
    requires Stretch(r, Concat(pieces))
    ensures ExecuteAll(p, pieces).p == Feed(r, Concat(pieces)).p
    decreases |pieces|
  {
    hide Step, Finish, RunInv, Begin, Inv, Feed, Outside;
    var d, others := pieces[0], pieces[1..];
    var rest := Concat(others);
    BeginGood(p);
    InvOk(p);
    BeginRuns(p);
    BeginFields(p);
    if others == [] {
      assert d + rest == d;
      FieldsFeed(r, Begin(p), d);
      var s := Feed(Begin(p), d);
      RestInner(s);
      FinishOutside(s);
      assert ExecuteAll(Execute(p, d).p, []).p == Execute(p, d).p;
    } else {
      assert others[0] == pieces[1];
      assert rest != [];
      StretchPrefix(r, d, rest);
      FieldsFeed(r, Begin(p), d);
      var s := Feed(Begin(p), d);
      RestInner(s);
      RestInner(Feed(r, d));
      FinishOutside(s);
      ExecuteKeepsInv(p, d);
      OkRun(s);
      FeedConcat(r, d, rest);
      StretchPieces(Feed(r, d), Execute(p, d).p, others);
    }
  }

  lemma BeginFields(p: Parser)
    ensures Begin(p).p == p && Begin(p).inner == 0
  {
  }

  lemma RestInner(r: Run)
    requires RunInv(r) && OutsideLoops(r.p.state)
    ensures r.inner == 0
  {
    hide Name, NameState, ValueState, MarkFits;
  }

  /** Cut-independence on such a stretch needs no condition on the byte counter. */
  lemma StretchCuts(p: Parser, pieces: seq<seq<byte>>)
    requires Inv(p)
    requires pieces != [] && forall i :: 0 <= i < |pieces| ==> pieces[i] != []
    requires Stretch(Begin(p), Concat(pieces))
    ensures
      var whole, all := Feed(Begin(p), Concat(pieces)), ExecuteAll(p, pieces);
      && all.p == whole.p
      && Merge(all.calls) == Merge(Finish(whole).calls)
      && all.consumed == |Concat(pieces)|
  {
    hide Step, Finish, RunInv, Begin, Inv, Feed, Outside, Clean, ExecuteAll, Join, JoinAll;
    BeginGood(p);
    InvOk(p);
    BeginRuns(p);
    BeginFields(p);
    var data := Concat(pieces);
    assert pieces[0] <= data;
    var r := Feed(Begin(p), data);
    FieldsFeed(Begin(p), Begin(p), data);
    RestInner(r);
    FinishOutside(r);
    FinishKeepsCount(r);
    OkRun(r);
    OutsideIsClean(Begin(p), data);
    StretchPieces(Begin(p), p, pieces);
    CutIndependence(p, pieces);
  }

  /** A body announced by Content-Length, cut anywhere: on_body gets exactly that many
      bytes, in order, and on_message_complete follows once. */
  lemma ContentLengthBody(p: Parser, pieces: seq<seq<byte>>)
    requires Inv(p) && p.state.BodyIdentity? && |Concat(pieces)| == p.contentLength
    requires pieces != [] && forall i :: 0 <= i < |pieces| ==> pieces[i] != []
    ensures
      var all := ExecuteAll(p, pieces);
      && Merge(all.calls) == [Data(Body, Concat(pieces)), Notify(MessageComplete)]
      && all.p == p.(state := NewMessage(p), contentLength := 0)
      && all.consumed == |Concat(pieces)|
  {
    hide Step, Finish, RunInv, Inv, Feed, Outside, ExecuteAll, Stretch;
    var d := Concat(pieces);
    BeginGood(p);
    assert pieces[0] <= d;
    assert RunInv(Begin(p)) && Begin(p).mark.NoMark?;
    BodyRun(Begin(p), d);
    assert Stretch(Begin(p), d) by { MakeStretch(Begin(p), d); }
    StretchCuts(p, pieces);
    var r := Feed(Begin(p), d);
    FinishNoMark(r);
    assert [] + [Data(Body, d), Notify(MessageComplete)] == [Data(Body, d), Notify(MessageComplete)];
    MergeTwo(d);
  }

  lemma MakeStretch(r: Run, data: seq<byte>)
    requires Outside(r, data) && !Feed(r, data).halt.Failed? && OutsideLoops(Feed(r, data).p.state)
    requires Feed(r, data).consumed == r.consumed + |data|
    ensures Stretch(r, data)
  {
  }

  lemma FinishNoMark(r: Run)
    requires r.mark.NoMark? && r.inner == 0
    ensures Finish(r) == r
  {
  }

  lemma MergeTwo(d: seq<byte>)
    ensures Merge([Data(Body, d), Notify(MessageComplete)]) == [Data(Body, d), Notify(MessageComplete)]
  {
    var a, b := Data(Body, d), Notify(MessageComplete);
    JoinSnoc([], [a], b);
    JoinSnoc([], [], a);
    assert [] + [a] == [a] && [a] + [b] == [a, b];
  }

  // A chunked body

  datatype Chunk = Chunk(size: seq<byte>, ext: seq<byte>, data: seq<byte>)

  predicate IsChunk(k: Chunk) { k.data != [] && |k.data| <= ULLONG_MAX - 16 && IsSizeLine(k.size, k.ext, |k.data|) }

  function ChunksText(chunks: seq<Chunk>): seq<byte> {
    if chunks == [] then [] else ChunkText(chunks[0].size, chunks[0].ext, chunks[0].data) + ChunksText(chunks[1..])
  }

  function ChunkCalls(chunks: seq<Chunk>): seq<Call> {
    if chunks == [] then []
    else [Notify(ChunkHeader), Data(Body, chunks[0].data), Notify(ChunkComplete)] + ChunkCalls(chunks[1..])
  }

  /** The calls one chunk makes. */
  function CallsOf(k: Chunk): seq<Call> { [Notify(ChunkHeader), Data(Body, k.data), Notify(ChunkComplete)] }

  function TextOf(k: Chunk): seq<byte> { ChunkText(k.size, k.ext, k.data) }

  lemma OneChunk(r: Run, k: Chunk)
    requires RunInv(r) && r.halt.Running? && r.p.state.ChunkSizeStart? && IsChunk(k)
    ensures var q := Feed(r, TextOf(k));
      && RunInv(q) && Outside(r, TextOf(k))
      && q == r.(p := r.p.(contentLength := 0), calls := r.calls + CallsOf(k), consumed := r.consumed + |TextOf(k)|)
  {
    hide Step, RunInv, Feed, Outside, IsSizeLine, ChunkText;
    MarkAtStart(r);
    WholeChunk(r, k.size, k.ext, k.data);
  }

  lemma {:induction false} ChunksRun(r: Run, chunks: seq<Chunk>)
    requires RunInv(r) && r.halt.Running? && r.p.state.ChunkSizeStart?
    requires forall i :: 0 <= i < |chunks| ==> IsChunk(chunks[i])
    ensures var q := Feed(r, ChunksText(chunks));
      && RunInv(q)
      && q == r.(p := r.p.(contentLength := q.p.contentLength), calls := r.calls + ChunkCalls(chunks),
                 consumed := r.consumed + |ChunksText(chunks)|)
    ensures Outside(r, ChunksText(chunks))
    decreases |chunks|
  {
    hide Step, RunInv, Feed, Outside, IsChunk, ChunkText;
    if chunks == [] {
      FeedNothing(r);
      OutsideNothing(r);
      assert r.calls + [] == r.calls;
    } else {
      var k, rest := chunks[0], ChunksText(chunks[1..]);
      OneChunk(r, k);
      ChunksRun(Feed(r, TextOf(k)), chunks[1..]);
      FeedConcat(r, TextOf(k), rest);
      OutsideConcat(r, TextOf(k), rest);
      assert ChunksText(chunks) == TextOf(k) + rest && ChunkCalls(chunks) == CallsOf(k) + ChunkCalls(chunks[1..]);
      assert (r.calls + CallsOf(k)) + ChunkCalls(chunks[1..]) == r.calls + ChunkCalls(chunks);
    }
  }

  lemma OutsideNothing(r: Run)
    ensures Outside(r, [])
  {
  }

  const EndCalls: seq<Call> := [Notify(ChunkHeader), Notify(ChunkComplete), Notify(MessageComplete)]

  lemma {:induction false} MergeChunks(t: seq<Call>, chunks: seq<Chunk>)
    ensures JoinAll(t, ChunkCalls(chunks) + EndCalls) == t + (ChunkCalls(chunks) + EndCalls)
    decreases |chunks|
  {
    hide JoinAll;
    if chunks == [] {
      var a, b, c := EndCalls[0], EndCalls[1], EndCalls[2];
      JoinThree(t, a, b, c);
      assert [] + EndCalls == [a, b, c];
    } else {
      var a, b, c := Notify(ChunkHeader), Data(Body, chunks[0].data), Notify(ChunkComplete);
      var rest := ChunkCalls(chunks[1..]) + EndCalls;
      assert ChunkCalls(chunks) + EndCalls == [a, b, c] + rest;
      JoinConcat(t, [a, b, c], rest);
      JoinThree(t, a, b, c);
      MergeChunks(t + [a, b, c], chunks[1..]);
      assert (t + [a, b, c]) + rest == t + ([a, b, c] + rest);
    }
  }

  lemma JoinThree(t: seq<Call>, a: Call, b: Call, c: Call)
    requires a.Notify? && c.Notify?
    ensures JoinAll(t, [a, b, c]) == t + [a, b, c]
  {
    hide JoinAll;
    JoinNone(t);
    JoinSnoc(t, [], a);
    JoinSnoc(t, [a], b);
    JoinSnoc(t, [a, b], c);
    assert [] + [a] == [a] && [a] + [b] == [a, b] && [a, b] + [c] == [a, b, c];
    assert t + [a] + [b] + [c] == t + [a, b, c];
  }

  lemma ChunkedRun(p: Parser, chunks: seq<Chunk>, size: seq<byte>, ext: seq<byte>)
    requires Inv(p) && p.state.ChunkSizeStart? && IsSizeLine(size, ext, 0)
    requires forall i :: 0 <= i < |chunks| ==> IsChunk(chunks[i])
    ensures var q := Feed(Begin(p), ChunksText(chunks) + LastText(size, ext));
      && Stretch(Begin(p), ChunksText(chunks) + LastText(size, ext)) && Finish(q) == q
      && q.calls == ChunkCalls(chunks) + EndCalls
      && q.p == p.(state := NewMessage(p), flags := p.flags.(trailing := true), contentLength := 0, nread := 2)
  {
    hide Step, Finish, RunInv, Inv, Feed, Outside, Stretch, ChunksText, ChunkCalls, IsChunk, LastText, IsSizeLine;
    BeginGood(p);
    BeginRuns(p);
    assert Begin(p).p == p && Begin(p).calls == [];
    InvCount(p);
    ChunksRun(Begin(p), chunks);
    var r := Feed(Begin(p), ChunksText(chunks));
    LastChunk(r, size, ext);
    FeedConcat(Begin(p), ChunksText(chunks), LastText(size, ext));
    OutsideConcat(Begin(p), ChunksText(chunks), LastText(size, ext));
    var q := Feed(r, LastText(size, ext));
    MakeStretch(Begin(p), ChunksText(chunks) + LastText(size, ext));
    RestInner(q);
    FinishNoMark(q);
    assert [] + ChunkCalls(chunks) == ChunkCalls(chunks);
  }

  /** A chunked body, cut anywhere: each chunk's bytes reach on_body once and in order
      between its header and its completion, and the message completes once, after the
      empty chunk. The parser is left ready for the next message. */
  lemma ChunkedBody(p: Parser, chunks: seq<Chunk>, size: seq<byte>, ext: seq<byte>, pieces: seq<seq<byte>>)
    requires Inv(p) && p.state.ChunkSizeStart? && IsSizeLine(size, ext, 0)
    requires forall i :: 0 <= i < |chunks| ==> IsChunk(chunks[i])
    requires Concat(pieces) == ChunksText(chunks) + LastText(size, ext)
    requires forall i :: 0 <= i < |pieces| ==> pieces[i] != []
    ensures
      var all := ExecuteAll(p, pieces);
      && Merge(all.calls) == ChunkCalls(chunks) + EndCalls
      && BodyOf(Merge(all.calls)) == Payload(chunks)
      && all.p == p.(state := NewMessage(p), flags := p.flags.(trailing := true), contentLength := 0, nread := 2)
      && all.consumed == |Concat(pieces)|
  {
    hide Finish, Inv, Feed, ExecuteAll, Stretch, JoinAll, Begin, ChunksText, ChunkCalls, BodyOf, Payload, IsSizeLine;
    ChunkedRun(p, chunks, size, ext);
    assert Concat(pieces) != [];
    StretchCuts(p, pieces);
    MergeChunks([], chunks);
    assert [] + (ChunkCalls(chunks) + EndCalls) == ChunkCalls(chunks) + EndCalls;
    BodyOfChunks(chunks);
  }

  lemma InvCount(p: Parser)
    requires Inv(p) && p.state.ChunkSizeStart?
    ensures p.nread == 0
  {
  }

  /** The bytes a trace hands to on_body. */
  function BodyOf(calls: seq<Call>): seq<byte> {
    if calls == [] then []
    else (if calls[0].Data? && calls[0].kind.Body? then calls[0].text else []) + BodyOf(calls[1..])
  }

  /** How often a trace completes a message. */
  function Completions(calls: seq<Call>): nat {
    if calls == [] then 0
    else (if calls[0] == Notify(MessageComplete) then 1 else 0) + Completions(calls[1..])
  }

  lemma NoCompletion(c: Call, rest: seq<Call>)
    requires c != Notify(MessageComplete)
    ensures Completions([c] + rest) == Completions(rest)
  {
    assert ([c] + rest)[1..] == rest;
  }

  function Payload(chunks: seq<Chunk>): seq<byte> {
    if chunks == [] then [] else chunks[0].data + Payload(chunks[1..])
  }

  lemma {:induction false} BodyOfConcat(a: seq<Call>, b: seq<Call>)
    ensures BodyOf(a + b) == BodyOf(a) + BodyOf(b)
    decreases |a|
  {
    if a == [] {
      assert a + b == b;
    } else {
      assert (a + b)[1..] == a[1..] + b;
      BodyOfConcat(a[1..], b);
    }
  }

  lemma BodyOfThree(a: Call, b: Call, c: Call)
    requires a.Notify? && c.Notify? && b.Data? && b.kind.Body?
    ensures BodyOf([a, b, c]) == b.text
  {
    hide BodyOf;
    BodyOfSkip(c, []);
    BodyOfNone();
    BodyOfTake(b, [c]);
    BodyOfSkip(a, [b, c]);
    assert [c] == [c] + [] && [b, c] == [b] + [c] && [a, b, c] == [a] + [b, c];
  }

  lemma BodyOfNone()
    ensures BodyOf([]) == []
  {
  }

  lemma BodyOfSkip(c: Call, rest: seq<Call>)
    requires c.Notify?
    ensures BodyOf([c] + rest) == BodyOf(rest)
  {
    assert ([c] + rest)[1..] == rest;
  }

  lemma BodyOfTake(c: Call, rest: seq<Call>)
    requires c.Data? && c.kind.Body?
    ensures BodyOf([c] + rest) == c.text + BodyOf(rest)
  {
    assert ([c] + rest)[1..] == rest;
  }

  lemma {:induction false} BodyOfChunks(chunks: seq<Chunk>)
    ensures BodyOf(ChunkCalls(chunks) + EndCalls) == Payload(chunks)
    decreases |chunks|
  {
    hide BodyOf;
    if chunks == [] {
      assert [] + EndCalls == EndCalls;
      BodyOfEnd();
    } else {
      var a, b, c := Notify(ChunkHeader), Data(Body, chunks[0].data), Notify(ChunkComplete);
      var rest := ChunkCalls(chunks[1..]) + EndCalls;
      BodyOfChunks(chunks[1..]);
      assert ChunkCalls(chunks) + EndCalls == [a, b, c] + rest;
      BodyOfConcat([a, b, c], rest);
      BodyOfThree(a, b, c);
    }
  }

  lemma BodyOfEnd()
    ensures BodyOf(EndCalls) == []
  {
    hide BodyOf;
    var b, c := Notify(ChunkComplete), Notify(MessageComplete);
    BodyOfNone();
    BodyOfSkip(c, []);
    BodyOfSkip(b, [c]);
    BodyOfSkip(EndCalls[0], [b, c]);
    assert [c] == [c] + [] && [b, c] == [b] + [c] && EndCalls == [EndCalls[0]] + [b, c];
  }

  // The value of a Content-Length header

  /** The number written by the digits of the text; the source skips spaces among them. */
  function DecimalValue(text: seq<byte>): nat {
    if text == [] then 0
    else
      var c := text[|text| - 1];
      if IsDigit(c) then DecimalValue(text[..|text| - 1]) * 10 + (c - 48) else DecimalValue(text[..|text| - 1])
  }

  const LENGTH_LIMIT: nat := (ULLONG_MAX - 10) / 10

  predicate IsLengthText(text: seq<byte>) {
    text != [] && IsDigit(text[0]) && forall i :: 0 <= i < |text| ==> IsDigit(text[i]) || text[i] == SPACE
  }

  /** No digit but the first follows a value beyond the limit. */
  predicate LengthFits(text: seq<byte>) {
    forall i :: 0 < i < |text| && IsDigit(text[i]) ==> DecimalValue(text[..i]) <= LENGTH_LIMIT
  }

  /** The run is inside a Content-Length value that so far reads n. */
  predicate ReadsLength(r: Run, n: nat) {
    && RunInv(r) && r.halt.Running? && r.p.state.Value?
    && Core(r).headerState.HContentLength? && Core(r).contentLength == n && Core(r).flags.contentLength
  }

  lemma LengthFirst(r: Run, c: byte)
    requires RunInv(r) && r.halt.Running? && r.p.state.DiscardWs? && r.p.headerState.HContentLength?
    requires !r.p.flags.contentLength && IsDigit(c) && r.p.nread < HTTP_MAX_HEADER_SIZE
    ensures ReadsLength(Step(r, c), c - 48)
  {
    hide Switch, Step, RunInv;
    PlainStep(r, c);
    AtRest(r);
    LengthSwitch(r.p.(nread := 0), c);
  }

  lemma LengthSwitch(p: Parser, c: byte)
    requires p.state.DiscardWs? && p.headerState.HContentLength? && !p.flags.contentLength && IsDigit(c)
    ensures Switch(p, c) == Go(p.(state := Value, index := 0, flags := p.flags.(contentLength := true),
                                  contentLength := c - 48)).(mark := Marking(HeaderValue))
  {
    hide AtStart, AtMethod, AtSpaces, AtUrl, AtHttp, AtNumber, AtChunk, AtBodyIdentity, AtFieldStart, AtValueLws,
         AtDiscardLws, AtHeadersAlmostDone, AtHeadersDone, Lower;
  }

  lemma LengthNext(r: Run, n: nat, c: byte)
    requires ReadsLength(r, n) && (IsDigit(c) || c == SPACE) && !Step(r, c).p.errno.HeaderOverflow?
    ensures if IsDigit(c) && n > LENGTH_LIMIT then Step(r, c).halt.Failed?
            else ReadsLength(Step(r, c), if c == SPACE then n else n * 10 + (c - 48))
  {
    hide Step, RunInv;
    SkipIsGeneral(r);
    ValueChar([], r, c);
    StepGood(r, c);
    CoreState(Step(r, c));
    assert IsHeaderChar(c);
  }

  lemma SkipIsGeneral(r: Run)
    requires RunInv(r) && r.p.state.Value? && !Core(r).headerState.HGeneral?
    ensures r.skip == 0
  {
    hide Name, NameState, ValueState, MarkFits;
  }

  /** A Content-Length value is accepted exactly when every digit but the first comes
      after a number within the limit; then the length is the number written, it did
      not wrap, and it is not the sentinel. */
  lemma {:induction false} ContentLengthValue(r: Run, text: seq<byte>)
    requires RunInv(r) && r.halt.Running? && r.p.state.DiscardWs? && r.p.headerState.HContentLength?
    requires !r.p.flags.contentLength && IsLengthText(text)
    requires r.p.nread + |text| < HTTP_MAX_HEADER_SIZE
    ensures if LengthFits(text)
            then ReadsLength(Feed(r, text), DecimalValue(text)) && DecimalValue(text) < ULLONG_MAX
            else Feed(r, text).halt.Failed?
    decreases |text|
  {
    hide Step, RunInv, Feed, ReadsLength;
    var init, c := text[..|text| - 1], text[|text| - 1];
    FeedSnoc(r, text);
    if init == [] {
      FeedNothing(r);
      LengthFirst(r, c);
      assert DecimalValue(init) == 0;
    } else {
      ContentLengthValue(r, init);
      LengthSplit(text);
      var q := Feed(r, init);
      if LengthFits(init) {
        RestInner(r);
        NoOverflowHere(r, text);
        ReadsRunning(q, DecimalValue(init));
        LengthNext(q, DecimalValue(init), c);
      }
    }
  }

  lemma ReadsRunning(r: Run, n: nat)
    requires ReadsLength(r, n)
    ensures r.halt.Running?
  {
  }

  lemma LengthSplit(text: seq<byte>)
    requires |text| > 1
    ensures var init := text[..|text| - 1]; var c := text[|text| - 1];
      LengthFits(text) <==> LengthFits(init) && (IsDigit(c) ==> DecimalValue(init) <= LENGTH_LIMIT)
  {
    var init := text[..|text| - 1];
    assert forall i :: 0 < i < |init| ==> text[..i] == init[..i] && text[i] == init[i];
    if LengthFits(text) {
      forall i | 0 < i < |init| && IsDigit(init[i]) ensures DecimalValue(init[..i]) <= LENGTH_LIMIT {
        assert text[i] == init[i] && text[..i] == init[..i];
      }
    }
  }

  lemma NoOverflowHere(r: Run, text: seq<byte>)
    requires RunInv(r) && r.halt.Running? && r.inner == 0 && text != []
    requires r.p.nread + |text| < HTTP_MAX_HEADER_SIZE
    ensures !Feed(r, text).p.errno.HeaderOverflow?
  {
    hide Step, Feed, RunInv, Switch;
    FeedOwes(r, text, r.p.nread - r.consumed);
  }
}
