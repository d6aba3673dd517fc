/** http_parser_execute itself: an object whose fields change in place, and a call that
    walks its data with a pointer, skips through header values with memchr and takes
    bodies in one stride. It is proved equal, errors and early returns included, to the
    byte-at-a-time machine of HttpMachine. */
module HttpParser {
  import opened Bytes
  import opened HttpTypes
  import opened HttpMachine
  import opened HttpInvariant
  import opened HttpCut
  import opened HttpMessage

  /** The mark pointers of a call. HttpInvariant proves that at most one is ever set. */
  datatype Pointer = Null | At(kind: Kind, start: nat)

  /** The open mark as the machine keeps it: with the bytes from the pointer up to p. */
  function MarkOf(m: Pointer, data: seq<byte>, p: nat): Mark
    requires p <= |data| && (m.At? ==> m.start <= p)
  {
    if m.Null? then NoMark else Mark(m.kind, data[m.start..p])
  }

  function Min(a: nat, b: nat): nat { if a < b then a else b }

  /** memchr(data + from, c, count): the first position of c, or -1. */
  method MemChr(data: seq<byte>, from: nat, c: byte, count: nat) returns (at: int)
    requires from + count <= |data|
    ensures at == -1 || from <= at < from + count
    ensures at == -1 ==> c !in data[from..from + count]
    ensures at != -1 ==> data[at] == c && c !in data[from..at]
  {
    at := from;
    while at < from + count
      invariant from <= at <= from + count
      invariant c !in data[from..at]
    {
      if data[at] == c { return; }
      at := at + 1;
    }
    at := -1;
  }

  // The machine seen from inside a loop

  /** A byte handled without failing: p moves past it and the open mark takes it. */
  function Past(r: Run, c: byte): Run {
    if r.halt.Failed? then r else WithByte(r, c).(consumed := r.consumed + 1)
  }

  /** The run the loop body sees: the first byte of a stretch is charged on the way in. */
  function Inside(r: Run): Run {
    if r.inner != 0 then r
    else if r.p.state.Value? then Charged(r, 1).(hs := r.p.headerState)
    else Charged(r, 1)
  }

  lemma FieldTurn(r: Run, c: byte)
    requires r.halt.Running? && r.p.state.Field?
    ensures r.inner == 0 && !Charged(r, 1).halt.Running? ==> Step(r, c) == Charged(r, 1)
    ensures Inside(r).halt.Running? ==> Step(r, c) == Past(InField(Inside(r), c), c)
  {
    hide Switch, InField, InValue;
  }

  lemma ValueTurnAll(r: Run, c: byte)
    requires r.halt.Running? && r.p.state.Value?
    ensures r.inner == 0 && !Charged(r, 1).halt.Running? ==> Step(r, c) == Charged(r, 1)
    ensures Inside(r).halt.Running? ==> Step(r, c) == Past(InValue(Inside(r), c), c)
  {
    hide Switch, InField, InValue;
  }

  lemma OtherTurn(r: Run, c: byte)
    requires r.halt.Running? && r.inner == 0 && OutsideLoops(r.p.state)
    ensures ParsingHeader(r.p.state) && !Charged(r, 1).halt.Running? ==> Step(r, c) == Charged(r, 1)
    ensures var t := if ParsingHeader(r.p.state) then Charged(r, 1) else r;
      t.halt.Running? ==> Step(r, c) == Past(Perform(t, Switch(t.p.(nread := 0), c), c), c)
  {
    hide Switch, InField, InValue, ParsingHeader;
  }

  /** A body that does not end in these bytes takes them all under one mark. */
  lemma {:induction false} BodyPart(r: Run, d: seq<byte>)
    requires RunInv(r) && r.halt.Running? && r.p.state.BodyIdentity? && d != [] && |d| < r.p.contentLength
    ensures RunInv(Feed(r, d))
    ensures Feed(r, d) == r.(p := r.p.(contentLength := r.p.contentLength - |d|), mark := BodyMark(r.mark, d),
                             consumed := r.consumed + |d|)
    decreases |d|
  {
    hide Step, RunInv;
    BodyStep(r, d[0]);
    BodyKind(r);
    if |d| == 1 {
      FeedNothing(Step(r, d[0]));
      assert d[1..] == [] && d == [d[0]];
    } else {
      BodyPart(Step(r, d[0]), d[1..]);
      assert [d[0]] + d[1..] == d;
      if r.mark.Mark? { assert (r.mark.text + [d[0]]) + d[1..] == r.mark.text + d; }
    }
  }

  lemma BodyKind(r: Run)
    requires RunInv(r) && (r.p.state.BodyIdentity? || r.p.state.ChunkData?)
    ensures r.mark.Mark? ==> r.mark.kind.Body?
    ensures r.inner == 0 && 0 < r.p.contentLength && OpenMark(r.p.state).NoMark?
  {
    hide Name, NameState, ValueState;
  }

  /** Bytes a memchr jumps over are all swallowed by the machine's skip. */
  lemma {:induction false} SkipRun(r: Run, d: seq<byte>)
    requires r.halt.Running? && r.p.state.Value? && 0 < r.skip && 0 < r.inner && r.mark.Mark?
    requires forall k :: 0 <= k < |d| && r.skip + k < HTTP_MAX_HEADER_SIZE ==> d[k] != CR && d[k] != LF
    ensures Feed(r, d) == r.(inner := r.inner + |d|, skip := r.skip + |d|, consumed := r.consumed + |d|,
                             mark := Mark(r.mark.kind, r.mark.text + d))
    decreases |d|
  {
    hide Step, Charged, InLength, MatchValue, EndValue;
    if d == [] {
      assert r.mark.text + d == r.mark.text;
    } else {
      ValueTurnAll(r, d[0]);
      SkipRun(Step(r, d[0]), d[1..]);
      assert (r.mark.text + [d[0]]) + d[1..] == r.mark.text + d;
    }
  }

  /** Where a stretch of the data leads, and that it keeps the invariant. */
  lemma Onward(r: Run, data: seq<byte>, p: nat, q: nat)
    requires p <= q <= |data| && RunInv(r) && r.halt.Running?
    ensures Feed(r, data[p..]) == Feed(Feed(r, data[p..q]), data[q..])
    ensures Feed(r, data[p..q]).halt.Running? ==> RunInv(Feed(r, data[p..q]))
  {
    hide RunInv, Feed;
    RunIsGood(r);
    FeedGood(r, data[p..q]);
    FeedConcat(r, data[p..q], data[q..]);
    assert data[p..] == data[p..q] + data[q..];
  }

  lemma RunIsGood(r: Run)
    requires RunInv(r) && r.halt.Running?
    ensures Good(r)
  {
    hide Inv, MarkFits;
  }

  lemma NextByte(r: Run, data: seq<byte>, p: nat, q: nat)
    requires p <= q < |data|
    ensures Feed(r, data[p..q + 1]) ==
            (var t := Feed(r, data[p..q]); if t.halt.Running? then Step(t, data[q]) else t)
  {
    hide Step, Feed;
    assert data[p..q + 1][..q - p] == data[p..q];
    FeedSnoc(r, data[p..q + 1]);
  }

  /** What a call that ends in this run has done. */
  function Yields(r: Run): Outcome {
    var f := Finish(r);
    Outcome(f.p, f.calls, f.consumed)
  }

  class HttpParser {
    var state: State
    var headerState: HeaderState
    var index: nat
    var nread: nat
    var contentLength: nat
    var flags: Flags
    var verb: Method
    var major: nat
    var minor: nat
    var errno: Errno
    var upgrade: bool
    var lenient: bool
    /** The callbacks made so far; each returns 0. */
    var calls: seq<Call>

    function Fields(): Parser reads this {
      Parser(state, headerState, index, nread, contentLength, flags, verb, major, minor, errno, upgrade, lenient)
    }

    ghost predicate Valid() reads this { errno.Ok? ==> Inv(Fields()) }

    constructor ()
      ensures Valid() && Fields() == InitialParser && calls == []
    {
      state, headerState, index, nread, contentLength := StartReq, HGeneral, 0, 0, 0;
      flags, verb, major, minor, errno, upgrade, lenient := NoFlags, DELETE, 0, 0, Ok, false, false;
      calls := [];
    }

    method Store(p: Parser)
      modifies this
      ensures Fields() == p && calls == old(calls)
    {
      state, headerState, index, nread, contentLength := p.state, p.headerState, p.index, p.nread, p.contentLength;
      flags, verb, major, minor := p.flags, p.verb, p.major, p.minor;
      errno, upgrade, lenient := p.errno, p.upgrade, p.lenient;
    }

    /** The object is where the run is, with p bytes of the call behind it. */
    ghost predicate Tracks(r: Run, pre: seq<Call>, data: seq<byte>, p: nat, mark: Pointer) reads this {
      && p <= |data| && (mark.At? ==> mark.start <= p)
      && Fields() == r.p && calls == pre + r.calls && r.consumed == p
      && (r.halt.Running? ==> r.inner == 0 && r.skip == 0 && r.mark == MarkOf(mark, data, p))
      && (r.halt.Running? && p < |data| ==> RunInv(r))
    }

    /** COUNT_HEADER_SIZE(n). */
    method Count(n: nat) returns (ok: bool)
      modifies this
      ensures calls == old(calls)
      ensures ok == (old(nread) + n <= HTTP_MAX_HEADER_SIZE)
      ensures Fields() == old(Fields()).(nread := old(nread) + n, errno := if ok then old(errno) else HeaderOverflow)
    {
      nread := nread + n;
      ok := nread <= HTTP_MAX_HEADER_SIZE;
      if !ok { errno := HeaderOverflow; }
    }

    /** CALLBACK_DATA: the pending text, if it is pending. */
    method FlushData(f: Flush, data: seq<byte>, p: nat, mark: Pointer, ghost m: Mark) returns (mark': Pointer)
      requires p < |data| && (mark.At? ==> mark.start <= p) && m == MarkOf(mark, data, p)
      modifies this`calls
      ensures calls == old(calls) + FlushCalls(m, f, data[p])
      ensures mark' == mark || mark'.Null?
      ensures FlushMark(m, f) == MarkOf(mark', data, p)
    {
      mark' := mark;
      assert calls + [] == calls && data[p..p] == [];
      if f.NoFlush? { return; }
      var here := mark.At? && mark.kind == f.kind;
      var from := if here then mark.start else p;
      if f.Through? {
        calls := calls + [Data(f.kind, data[from..p + 1])];
        assert data[from..p + 1] == data[from..p] + [data[p]];
      } else if here || f.Forced? {
        calls := calls + [Data(f.kind, data[from..p])];
      }
      if here { mark' := Null; }
    }

    /** Carries out what a byte does: fields, data callback, notifications, new mark. */
    method Carry(act: Act, data: seq<byte>, p: nat, mark: Pointer, ghost r: Run, ghost pre: seq<Call>)
      returns (mark': Pointer)
      requires p < |data| && (mark.At? ==> mark.start <= p) && r.mark == MarkOf(mark, data, p)
      requires calls == pre + r.calls && nread == r.p.nread
      modifies this
      ensures var q := Perform(r, act, data[p]);
        Fields() == q.p && calls == pre + q.calls &&
        (mark'.At? ==> mark'.start <= p) && q.mark == MarkOf(mark', data, p)
    {
      hide FlushCalls, FlushMark, Notices;
      var n := nread;
      Store(act.p);
      nread := if act.reset then 0 else n;
      mark' := FlushData(act.flush, data, p, mark, r.mark);
      calls := calls + Notices(act.notices);
      if act.mark.Marking? && mark'.Null? { mark' := At(act.mark.kind, p); }
      ghost var f := FlushCalls(r.mark, act.flush, data[p]);
      assert ((pre + r.calls) + f) + Notices(act.notices) == pre + (r.calls + (f + Notices(act.notices)));
    }

    /** Inside a loop entered at `from`: t is the run so far, its first byte charged. */
    ghost predicate Within(r: Run, t: Run, pre: seq<Call>, data: seq<byte>, from: nat, p: nat, mark: Pointer)
      reads this
    {
      && from <= p <= |data| && (mark.At? ==> mark.start <= from)
      && Fields() == t.p && calls == pre + t.calls
      && t.halt.Running? && t.inner == p - from && t.consumed == p && t.mark == MarkOf(mark, data, p)
      && if p == from then t == Inside(r) else t == Feed(r, data[from..p])
    }

    /** Where a loop may be entered. */
    ghost predicate Enters(r: Run, pre: seq<Call>, data: seq<byte>, p: nat, mark: Pointer) reads this {
      && p < |data| && RunInv(r) && r.halt.Running? && r.inner == 0 && r.skip == 0 && r.consumed == p
      && (mark.At? ==> mark.start <= p) && r.mark == MarkOf(mark, data, p)
      && Inside(r).halt.Running? && Fields() == Inside(r).p && calls == pre + r.calls
    }

    /** The s_header_field loop up to the end of the name. The byte at `from` has been charged. */
    method ScanField(data: seq<byte>, from: nat, mark: Pointer, ghost r: Run, ghost pre: seq<Call>)
      returns (p: nat, ghost t: Run)
      requires Enters(r, pre, data, from, mark) && r.p.state.Field?
      modifies this
      ensures Within(r, t, pre, data, from, p, mark) && t.p.state.Field? && t.skip == 0
      ensures p < |data| ==> Token(data[p]) == 0
      ensures nread == old(nread)
    {
      hide Feed, Step, RunInv, InField, MatchName, Token;
      p := from;
      t := Inside(r);
      while p < |data| && Token(data[p]) != 0
        invariant Within(r, t, pre, data, from, p, mark) && t.p.state.Field? && t.skip == 0
        invariant nread == old(nread)
      {
        var ch := data[p];
        FieldNext(r, t, data, from, p);
        TokenKept(t, ch);
        var (h, i) := MatchName(headerState, index, ch, Token(ch));
        headerState, index := h, i;
        t := Past(InField(t, ch), ch);
        ExtendMark(mark, data, p);
        p := p + 1;
      }
    }

    /** The end of the name: a colon, or an error. */
    method LeaveField(data: seq<byte>, from: nat, at: nat, mark: Pointer, ghost r: Run, ghost t: Run, ghost pre: seq<Call>)
      returns (p: nat, mark': Pointer, halt: Halt, ghost q: Run)
      requires from <= at < |data| && RunInv(r) && r.halt.Running? && Within(r, t, pre, data, from, at, mark)
      requires t.p.state.Field? && t.skip == 0 && r.p.state.Field? && Token(data[at]) == 0
      requires r.inner == 0
      modifies this
      ensures Tracks(q, pre, data, p, mark') && halt == q.halt && at <= p && (halt.Running? ==> p == at + 1)
      ensures Yields(Feed(r, data[from..])) == Yields(Feed(q, data[p..]))
    {
      hide Feed, RunInv, Yields, InField, Perform, Past, Token, Step, Inv;
      var ch := data[at];
      p, mark' := at, mark;
      FieldNext(r, t, data, from, at);
      FieldStops(t, ch);
      Onward(r, data, from, at + 1);
      var ok := Count(at - from);
      ghost var u := Charged(t, t.inner).(inner := 0);
      if !ok {
        halt := Failed;
        q := u;
        PastThis(u, ch);
        Halted(q, data, at);
      } else {
        p, mark', halt, q := EndName(data, at, mark, u, pre);
        if halt.Failed? { Halted(q, data, at); }
      }
    }

    /** The byte after a name, once the name has been counted. */
    method EndName(data: seq<byte>, at: nat, mark: Pointer, ghost u: Run, ghost pre: seq<Call>)
      returns (p: nat, mark': Pointer, halt: Halt, ghost q: Run)
      requires at < |data| && (mark.At? ==> mark.start <= at) && u.mark == MarkOf(mark, data, at)
      requires Fields() == u.p && calls == pre + u.calls && u.consumed == at && u.inner == 0 && u.skip == 0
      requires var e := Past(Perform(u, EndField(u.p, data[at]), data[at]), data[at]);
        e.halt.Running? ==> RunInv(e)
      modifies this
      ensures q == Past(Perform(u, EndField(u.p, data[at]), data[at]), data[at])
      ensures Tracks(q, pre, data, p, mark') && halt == q.halt && at <= p && (halt.Running? ==> p == at + 1)
      ensures p == if halt.Failed? then at else at + 1
    {
      hide Feed, RunInv, Perform, Past;
      var ch := data[at];
      p := at;
      var act := EndField(Fields(), ch);
      mark' := Carry(act, data, at, mark, u, pre);
      halt := act.halt;
      q := Past(Perform(u, act, ch), ch);
      PerformKeeps(u, act, ch);
      PastThis(Perform(u, act, ch), ch);
      if !halt.Failed? {
        ExtendMark(mark', data, at);
        p := at + 1;
      }
    }

    /** Leaving a loop because the data has run out. */
    method Leave(data: seq<byte>, from: nat, mark: Pointer, h: HeaderState, ghost r: Run, ghost t: Run, ghost pre: seq<Call>)
      returns (halt: Halt, ghost q: Run)
      requires from < |data| && RunInv(r) && r.halt.Running? && Within(r, t, pre, data, from, |data|, mark)
      requires h == if t.p.state.Value? then t.hs else t.p.headerState
      modifies this
      ensures Tracks(q, pre, data, |data|, mark) && halt == q.halt
      ensures Yields(Feed(r, data[from..])) == Yields(Feed(q, []))
    {
      hide Feed, RunInv, Yields;
      headerState := h;
      var ok := Count(|data| - from);
      halt := if ok then Running else Failed;
      q := Ended(t);
      EndedLoop(t);
      FeedNothing(q);
      assert data[from..|data|] == data[from..];
    }

    /** The memchr jump of a general value: the nearest CR or LF in the window, or the end of the data. */
    method Jump(data: seq<byte>, p: nat) returns (to: nat)
      requires p < |data| && data[p] != CR && data[p] != LF
      ensures p < to <= |data|
      ensures forall k :: p < k < to && k - p < HTTP_MAX_HEADER_SIZE ==> data[k] != CR && data[k] != LF
      ensures to < |data| ==> (data[to] == CR || data[to] == LF) && to - p < HTTP_MAX_HEADER_SIZE
    {
      var limit := Min(|data| - p, HTTP_MAX_HEADER_SIZE);
      var cr := MemChr(data, p, CR, limit);
      var lf := MemChr(data, p, LF, limit);
      to := if cr != -1 && !(lf != -1 && cr >= lf) then cr else if lf != -1 then lf else |data|;
      var end := if to < |data| then to else p + limit;
      forall k | p < k < end ensures data[k] != CR && data[k] != LF {
        assert cr == -1 ==> data[p..p + limit][k - p] == data[k];
        assert lf == -1 ==> data[p..p + limit][k - p] == data[k];
        assert cr != -1 ==> cr >= end && data[p..cr][k - p] == data[k];
        assert lf != -1 ==> lf >= end && data[p..lf][k - p] == data[k];
      }
    }

    /** A value of no interest, from one of its characters on. */
    method SkipValue(data: seq<byte>, from: nat, at: nat, mark: Pointer, ghost r: Run, ghost t: Run, ghost pre: seq<Call>)
      returns (p: nat, ghost q: Run)
      requires at < |data| && data[at] != CR && data[at] != LF && Within(r, t, pre, data, from, at, mark)
      requires t.p.state.Value? && t.hs.HGeneral? && mark.At?
      requires Past(t.(inner := t.inner + 1, skip := 1), data[at]) == Feed(r, data[from..at + 1])
      ensures at < p && Within(r, q, pre, data, from, p, mark) && q.p.state.Value? && q.hs == t.hs
      ensures p < |data| ==> q.skip < HTTP_MAX_HEADER_SIZE && (data[p] == CR || data[p] == LF)
    {
      hide Feed;
      p := Jump(data, at);
      ExtendMark(mark, data, at);
      q := Past(t.(inner := t.inner + 1, skip := 1), data[at]);
      Jumped(r, q, data, from, at, p);
      JumpMark(mark, data, at + 1, p);
      q := Feed(r, data[from..p]);
    }

    /** One more digit, or a space, of a Content-Length. */
    method ReadDigit(ch: byte, h: HeaderState, ghost t: Run) returns (ok: bool)
      requires Fields() == t.p && t.hs == h && t.halt.Running?
      modifies this
      ensures Fields() == InLength(t, ch).p && calls == old(calls)
      ensures ok == InLength(t, ch).halt.Running?
    {
      ok := true;
      if ch == SPACE { return; }
      if !IsDigit(ch) || (ULLONG_MAX - 10) / 10 < contentLength {
        errno, headerState, ok := InvalidContentLength, h, false;
        return;
      }
      contentLength := (contentLength * 10 + (ch - 48)) % TWO_TO_64;
    }

    /** One character of a value that is matched against the words the parser knows, or
        skipped, or read as a number. On failure p stays at the character. */
    method ReadChar(data: seq<byte>, from: nat, at: nat, mark: Pointer, h: HeaderState, ghost r: Run, ghost t: Run,
                    ghost pre: seq<Call>)
      returns (p: nat, h': HeaderState, ok: bool, ghost q: Run)
      requires at < |data| && data[at] != CR && data[at] != LF && Within(r, t, pre, data, from, at, mark)
      requires t.p.state.Value? && t.skip == 0 && t.hs == h && mark.At?
      requires r.p.state.Value? && r.halt.Running? && r.inner == 0
      modifies this
      ensures at <= p && if ok then at < p && Within(r, q, pre, data, from, p, mark) && q.p.state.Value? && q.hs == h'
      else p == at && Fields() == q.p && calls == pre + q.calls && q.consumed == at && q.halt.Failed? &&
           q == Feed(r, data[from..at + 1])
      ensures ok && 0 < q.skip && p < |data| ==> q.skip < HTTP_MAX_HEADER_SIZE && (data[p] == CR || data[p] == LF)
    {
      hide Feed, RunInv, Inside, Step, MatchValue, InLength;
      var ch := data[at];
      p, h' := at, h;
      ValueNext(r, t, data, from, at);
      ExtendMark(mark, data, at);
      ok := true;
      if !lenient && !IsHeaderChar(ch) {
        errno := InvalidHeaderToken;
        ok := false;
        q := Fails(t, InvalidHeaderToken);
      } else if h.HGeneral? {
        p, q := SkipValue(data, from, at, mark, r, t, pre);
      } else if h.HContentLength? {
        ok := ReadDigit(ch, h, t);
        q := Past(InLength(t, ch), ch);
        LengthRun(t, ch);
        if ok { p := at + 1; }
      } else {
        var (f, g) := MatchValue(Fields(), h, ch);
        MatchKeepsState(Fields(), h, ch);
        Store(f);
        h' := g;
        q := Past(t.(p := f, hs := g, inner := t.inner + 1), ch);
        p := at + 1;
      }
    }

    /** The s_header_value loop up to the end of the line. The byte at `from` has been charged. */
    method ScanValue(data: seq<byte>, from: nat, mark: Pointer, ghost r: Run, ghost pre: seq<Call>)
      returns (p: nat, h: HeaderState, ok: bool, ghost t: Run)
      requires Enters(r, pre, data, from, mark) && r.p.state.Value? && mark.At?
      modifies this
      ensures ok ==> Within(r, t, pre, data, from, p, mark) && t.p.state.Value? && t.hs == h
      ensures ok && p < |data| ==> (data[p] == CR || data[p] == LF) && t.skip < HTTP_MAX_HEADER_SIZE
      ensures !ok ==> from <= p < |data| && Fields() == t.p && calls == pre + t.calls && t.consumed == p &&
                      t.halt.Failed? && t == Feed(r, data[from..p + 1])
    {
      hide Feed, RunInv;
      p, h, ok, t := from, headerState, true, Inside(r);
      while p < |data| && data[p] != CR && data[p] != LF
        invariant Within(r, t, pre, data, from, p, mark) && t.p.state.Value? && t.hs == h
        invariant 0 < t.skip && p < |data| ==> t.skip < HTTP_MAX_HEADER_SIZE && (data[p] == CR || data[p] == LF)
        decreases |data| - p
      {
        p, h, ok, t := ReadChar(data, from, p, mark, h, r, t, pre);
        if !ok { return; }
      }
    }

    /** The end of a value's line: CR, or LF alone, which is looked at a second time. */
    method EndLine(data: seq<byte>, from: nat, at: nat, mark: Pointer, h: HeaderState, ghost t: Run, ghost pre: seq<Call>)
      returns (mark': Pointer, ok: bool)
      requires from <= at < |data| && (mark.At? ==> mark.start <= at) && t.mark == MarkOf(mark, data, at)
      requires Fields() == t.p && calls == pre + t.calls && t.halt.Running? && t.inner == at - from
      requires t.p.state.Value? && t.skip < HTTP_MAX_HEADER_SIZE && t.hs == h && (data[at] == CR || data[at] == LF)
      modifies this
      ensures var q := InValue(t, data[at]);
        && Fields() == q.p && calls == pre + q.calls && (mark'.At? ==> mark'.start <= at)
        && q.halt == (if ok then Running else Failed) && q.consumed == t.consumed
        && (ok ==> q.mark == MarkOf(mark', data, at) && q.inner == 0 && q.skip == 0)
    {
      hide Perform, Inside, InValue;
      var ch := data[at];
      mark' := mark;
      ghost var u := t.(inner := 0, skip := 0);
      EndsLine(t, ch);
      if ch == CR {
        var act := To(Fields().(headerState := h), HeaderAlmostDone).(flush := Pending(HeaderValue));
        mark' := Carry(act, data, at, mark, u, pre);
        ok := Count(at - from);
        PerformKeeps(u, act, ch);
      } else {
        state := HeaderAlmostDone;
        ok := Count(at - from);
        ghost var end := Charged(u.(p := u.p.(state := HeaderAlmostDone)), at - from);
        if ok {
          var act := To(Fields().(headerState := h), ValueLws).(flush := Pending(HeaderValue));
          mark' := Carry(act, data, at, mark, end, pre);
          PerformKeeps(end, act, ch);
        }
      }
    }

    method LeaveValue(data: seq<byte>, from: nat, at: nat, mark: Pointer, h: HeaderState, ghost r: Run,
                      ghost t: Run, ghost pre: seq<Call>)
      returns (p: nat, mark': Pointer, halt: Halt, ghost q: Run)
      requires from <= at < |data| && RunInv(r) && r.halt.Running? && Within(r, t, pre, data, from, at, mark)
      requires t.p.state.Value? && t.skip < HTTP_MAX_HEADER_SIZE && r.p.state.Value? && t.hs == h
      requires (data[at] == CR || data[at] == LF) && r.inner == 0
      modifies this
      ensures Tracks(q, pre, data, p, mark') && halt == q.halt && at <= p && (halt.Running? ==> p == at + 1)
      ensures Yields(Feed(r, data[from..])) == Yields(Feed(q, data[p..]))
    {
      hide Feed, RunInv, Yields, Past, Inv, Inside, InValue;
      var ch := data[at];
      ValueNext(r, t, data, from, at);
      Onward(r, data, from, at + 1);
      var ok;
      mark', ok := EndLine(data, from, at, mark, h, t, pre);
      q := Past(InValue(t, ch), ch);
      PastThis(InValue(t, ch), ch);
      if ok {
        p, halt := at + 1, Running;
        ExtendMark(mark', data, at);
      } else {
        p, halt := at, Failed;
        Halted(q, data, at);
      }
    }

    /** A body is read in one stride: what is left of it, or of the data. */
    method ReadBody(data: seq<byte>, from: nat, mark: Pointer, ghost r: Run, ghost pre: seq<Call>)
      returns (p: nat, mark': Pointer, halt: Halt, ghost q: Run)
      requires Tracks(r, pre, data, from, mark) && from < |data| && r.halt.Running?
      requires r.p.state.BodyIdentity? || r.p.state.ChunkData?
      modifies this
      ensures Tracks(q, pre, data, p, mark') && halt == q.halt && from < p
      ensures Yields(Feed(r, data[from..])) == Yields(Feed(q, data[p..]))
    {
      hide Feed, RunInv, Yields, BodyMark, MarkOf;
      BodyKind(r);
      var toRead := Min(contentLength, |data| - from);
      p, halt := from + toRead, Running;
      mark' := if mark.Null? then At(Body, from) else mark;
      Onward(r, data, from, p);
      BodyStretch(r, data[from..p]);
      q := Feed(r, data[from..p]);
      BodyText(mark, data, from, p);
      contentLength := contentLength - toRead;
      if contentLength == 0 {
        if state.ChunkData? {
          state := ChunkDataAlmostDone;
        } else {
          halt := if upgrade then Upgraded else Running;
          mark' := EndBody(data, p, mark', pre + r.calls);
          assert pre + (r.calls + (q.calls[|r.calls|..])) == (pre + r.calls) + q.calls[|r.calls|..];
        }
      }
    }

    /** The callback for the body and the end of the message. */
    method EndBody(data: seq<byte>, p: nat, mark: Pointer, ghost before: seq<Call>) returns (mark': Pointer)
      requires p <= |data| && mark.At? && mark.start <= p && calls == before
      modifies this
      ensures mark'.Null?
      ensures Fields() == old(Fields()).(state := NewMessage(old(Fields())))
      ensures calls == before + [Data(Body, MarkOf(mark, data, p).text), Notify(MessageComplete)]
    {
      hide NewMessage;
      calls := calls + [Data(Body, data[mark.start..p])];
      state := NewMessage(Fields());
      calls := calls + [Notify(MessageComplete)];
      mark' := Null;
    }

    /** Any other state: one byte through the switch. */
    method ReadOther(data: seq<byte>, from: nat, mark: Pointer, ghost r: Run, ghost pre: seq<Call>)
      returns (p: nat, mark': Pointer, halt: Halt, ghost q: Run)
      requires from < |data| && RunInv(r) && r.halt.Running? && r.inner == 0 && r.skip == 0 && r.consumed == from
      requires (mark.At? ==> mark.start <= from) && r.mark == MarkOf(mark, data, from) && calls == pre + r.calls
      requires OutsideLoops(r.p.state)
      requires var t := if ParsingHeader(r.p.state) then Charged(r, 1) else r; t.halt.Running? && Fields() == t.p
      modifies this
      ensures Tracks(q, pre, data, p, mark') && halt == q.halt && from <= p && (halt.Running? ==> p == from + 1)
      ensures Yields(Feed(r, data[from..])) == Yields(Feed(q, data[p..]))
    {
      hide Feed, RunInv, Yields, Perform, Past, Switch, ParsingHeader;
      var ch := data[from];
      ghost var t := if ParsingHeader(r.p.state) then Charged(r, 1) else r;
      var act := Switch(Fields().(nread := 0), ch);
      OneByte(r, data, from);
      OtherTurn(r, ch);
      Onward(r, data, from, from + 1);
      mark' := Carry(act, data, from, mark, t, pre);
      halt := act.halt;
      ghost var u := Perform(t, act, ch);
      PerformKeeps(t, act, ch);
      q := Past(u, ch);
      PastThis(u, ch);
      if halt.Failed? {
        p := from;
        Halted(q, data, from);
      } else {
        p := from + 1;
        ExtendMark(mark', data, from);
      }
    }

    /** One round of the outer loop. */
    method Round(data: seq<byte>, from: nat, mark: Pointer, ghost r: Run, ghost pre: seq<Call>)
      returns (p: nat, mark': Pointer, halt: Halt, ghost q: Run)
      requires Tracks(r, pre, data, from, mark) && from < |data| && r.halt.Running?
      modifies this
      ensures Tracks(q, pre, data, p, mark') && halt == q.halt && from <= p
      ensures halt.Running? ==> from < p
      ensures Yields(Feed(r, data[from..])) == Yields(Feed(q, data[p..]))
    {
      hide Feed, RunInv, Yields, ParsingHeader, NameState, ValueState, Step;
      StateOfLoop(r);
      var ch := data[from];
      var ok := true;
      if ParsingHeader(state) { ok := Count(1); }
      if !ok {
        p, mark', halt, q := from, mark, Failed, Charged(r, 1);
        ChargeFails(r, ch);
        OneByte(r, data, from);
        Onward(r, data, from, from + 1);
        Halted(q, data, from);
      } else if state.Field? {
        ghost var t;
        p, t := ScanField(data, from, mark, r, pre);
        if p == |data| {
          mark' := mark;
          halt, q := Leave(data, from, mark, headerState, r, t, pre);
          assert data[p..] == [];
        } else {
          p, mark', halt, q := LeaveField(data, from, p, mark, r, t, pre);
        }
      } else if state.Value? {
        p, mark', halt, q := ReadValue(data, from, mark, r, pre);
      } else if state.BodyIdentity? || state.ChunkData? {
        p, mark', halt, q := ReadBody(data, from, mark, r, pre);
      } else {
        p, mark', halt, q := ReadOther(data, from, mark, r, pre);
      }
    }

    method ReadValue(data: seq<byte>, from: nat, mark: Pointer, ghost r: Run, ghost pre: seq<Call>)
      returns (p: nat, mark': Pointer, halt: Halt, ghost q: Run)
      requires Enters(r, pre, data, from, mark) && r.p.state.Value? && mark.At?
      modifies this
      ensures Tracks(q, pre, data, p, mark') && halt == q.halt && from <= p && (halt.Running? ==> from < p)
      ensures Yields(Feed(r, data[from..])) == Yields(Feed(q, data[p..]))
    {
      hide Feed, RunInv, Yields, Step, Inside;
      var h, ok;
      ghost var t;
      p, h, ok, t := ScanValue(data, from, mark, r, pre);
      mark' := mark;
      if !ok {
        halt, q := Failed, t;
        Onward(r, data, from, p + 1);
        Halted(q, data, p);
      } else if p == |data| {
        halt, q := Leave(data, from, mark, h, r, t, pre);
        assert data[p..] == [];
      } else {
        p, mark', halt, q := LeaveValue(data, from, p, mark, h, r, t, pre);
      }
    }

    /** http_parser_execute. */
    method Execute(data: seq<byte>) returns (consumed: nat)
      requires Valid()
      modifies this
      ensures Valid()
      ensures var done := HttpMachine.Execute(old(Fields()), data);
        Fields() == done.p && calls == old(calls) + done.calls && consumed == done.consumed
    {
      hide Feed, RunInv, Inv, Finish, Begin;
      ghost var p0, pre := Fields(), calls;
      ExecuteKeepsInv(p0, data);
      if !errno.Ok? { return 0; }
      if data == [] {
        if state.Dead? || state.StartReq? { return 0; }
        errno := InvalidEofState;
        return 1;
      }
      ghost var r := Begin(p0);
      StartsTracked(p0, data);
      var open := OpenMark(state);
      var mark := if open.NoMark? then Null else At(open.kind, 0);
      var p, halt := 0, Running;
      assert data[0..] == data;
      while p < |data| && halt.Running?
        invariant Tracks(r, pre, data, p, mark) && halt == r.halt
        invariant Yields(Feed(Begin(p0), data)) == Yields(Feed(r, data[p..]))
        decreases |data| - p, if halt.Running? then 1 else 0
      {
        p, mark, halt, r := Round(data, p, mark, r, pre);
      }
      consumed := p;
      AtTheEnd(r, data, p);
      if halt.Running? && mark.At? { calls := calls + [Data(mark.kind, data[mark.start..p])]; }
      assert (pre + r.calls) + Finish(r).calls[|r.calls|..] == pre + Finish(r).calls;
    }
  }

  lemma Halted(q: Run, data: seq<byte>, p: nat)
    requires !q.halt.Running? && p < |data|
    ensures Feed(q, data[p..]) == q && Feed(q, data[p + 1..]) == q
  {
  }

  lemma PastThis(r: Run, c: byte)
    ensures r.halt.Failed? ==> Past(r, c) == r
    ensures !r.halt.Failed? ==> Past(r, c) == WithByte(r, c).(consumed := r.consumed + 1)
  {
  }

  lemma ValueNext(r: Run, t: Run, data: seq<byte>, from: nat, p: nat)
    requires from <= p < |data| && t.halt.Running? && t.inner == p - from && t.p.state.Value?
    requires if p == from then t == Inside(r) && r.p.state.Value? && r.halt.Running? && r.inner == 0
             else t == Feed(r, data[from..p])
    ensures Feed(r, data[from..p + 1]) == Past(InValue(t, data[p]), data[p])
  {
    hide Feed, Step, InValue, Charged, Past;
    NextByte(r, data, from, p);
    if p == from {
      assert data[from..from] == [];
      FeedNothing(r);
      ValueTurnAll(r, data[p]);
    } else {
      ValueTurnAll(t, data[p]);
    }
  }

  /** The run after a jump from `at` to `to`, its first byte handled in q. */
  lemma Jumped(r: Run, q: Run, data: seq<byte>, from: nat, at: nat, to: nat)
    requires from <= at < to <= |data| && q == Feed(r, data[from..at + 1])
    requires q.halt.Running? && q.p.state.Value? && q.skip == 1 && 0 < q.inner && q.mark.Mark?
    requires forall k :: at < k < to && k - at < HTTP_MAX_HEADER_SIZE ==> data[k] != CR && data[k] != LF
    ensures Feed(r, data[from..to]) ==
            q.(inner := q.inner + (to - at - 1), skip := to - at, consumed := q.consumed + (to - at - 1),
               mark := Mark(q.mark.kind, q.mark.text + data[at + 1..to]))
  {
    hide Feed;
    var d := data[at + 1..to];
    assert data[from..to] == data[from..at + 1] + d;
    FeedConcat(r, data[from..at + 1], d);
    SkipRun(q, d);
  }

  lemma JumpMark(m: Pointer, data: seq<byte>, p: nat, to: nat)
    requires p <= to <= |data| && m.At? && m.start <= p
    ensures data[m.start..to] == data[m.start..p] + data[p..to]
  {
  }

  lemma LengthRun(t: Run, c: byte)
    requires t.halt.Running?
    ensures var q := InLength(t, c);
      q == t.(p := q.p, inner := if q.halt.Failed? then t.inner else t.inner + 1, halt := q.halt)
    ensures InLength(t, c).p.state == t.p.state && !InLength(t, c).halt.Upgraded?
  {
  }

  lemma MatchKeepsState(p: Parser, h: HeaderState, c: byte)
    requires p.state.Value?
    ensures MatchValue(p, h, c).0.state.Value?
  {
    hide Lower, Token, Compare;
  }

  lemma EndsLine(t: Run, c: byte)
    requires t.halt.Running? && t.p.state.Value? && t.skip < HTTP_MAX_HEADER_SIZE && (c == CR || c == LF)
    ensures var u := t.(inner := 0, skip := 0);
      && (c == CR ==>
           var act := To(t.p.(headerState := t.hs), HeaderAlmostDone).(flush := Pending(HeaderValue));
           SameButInner(InValue(t, c), Charged(Perform(u, act, c), t.inner)))
      && (c == LF ==>
           var end := Charged(u.(p := u.p.(state := HeaderAlmostDone)), t.inner);
           var act := To(end.p.(headerState := t.hs), ValueLws).(flush := Pending(HeaderValue));
           SameButInner(InValue(t, c), if end.halt.Running? then Perform(end, act, c) else end))
  {
    hide MatchValue, InLength, Notices, FlushCalls;
  }

  /** Equal, but that a failed run may have kept its loop position. */
  predicate SameButInner(r: Run, s: Run) {
    r == s.(inner := r.inner, skip := r.skip) && (r.halt.Failed? || r == s)
  }

  /** The three ways a stretch of body bytes may end. */
  lemma BodyStretch(r: Run, d: seq<byte>)
    requires RunInv(r) && r.halt.Running? && (r.p.state.BodyIdentity? || r.p.state.ChunkData?)
    requires d != [] && |d| <= r.p.contentLength
    ensures var n := r.p.contentLength - |d|; var q := Feed(r, d); var m := BodyMark(r.mark, d);
      q == if n > 0 then r.(p := r.p.(contentLength := n), mark := m, consumed := r.consumed + |d|)
           else if r.p.state.ChunkData? then
             r.(p := r.p.(contentLength := 0, state := ChunkDataAlmostDone), mark := m, consumed := r.consumed + |d|)
           else r.(p := r.p.(state := NewMessage(r.p), contentLength := 0), mark := NoMark,
                   calls := r.calls + [Data(Body, m.text), Notify(MessageComplete)],
                   halt := if r.p.upgrade then Upgraded else Running, consumed := r.consumed + |d|)
  {
    hide Feed, RunInv, NewMessage, BodyMark;
    if r.p.state.ChunkData? { DataRun(r, d); }
    else if |d| < r.p.contentLength { BodyPart(r, d); }
    else { BodyRun(r, d); }
  }

  lemma StateOfLoop(r: Run)
    requires RunInv(r) && r.inner == 0
    ensures r.p.state.Field? || r.p.state.Value? ==> r.mark.Mark? && ParsingHeader(r.p.state)
    ensures r.p.state.BodyIdentity? || r.p.state.ChunkData? ==> !ParsingHeader(r.p.state)
  {
    hide NameState, ValueState, Name;
  }

  lemma ChargeFails(r: Run, c: byte)
    requires r.halt.Running? && r.inner == 0 && ParsingHeader(r.p.state) && !Charged(r, 1).halt.Running?
    ensures Step(r, c) == Charged(r, 1)
  {
    hide Switch, InField, InValue;
  }

  lemma StartsTracked(p: Parser, data: seq<byte>)
    requires Inv(p) && data != []
    ensures var r := Begin(p);
      RunInv(r) && r.p == p && r.calls == [] && r.halt.Running? && r.inner == 0 && r.skip == 0 && r.consumed == 0
    ensures Begin(p).mark == OpenMark(p.state) && (OpenMark(p.state).Mark? ==> OpenMark(p.state).text == [])
  {
    hide Inv, NameState, ValueState, IsUrlState;
    BeginGood(p);
  }

  lemma AtTheEnd(r: Run, data: seq<byte>, p: nat)
    requires p <= |data| && (r.halt.Running? ==> p == |data| && r.inner == 0)
    ensures var f := Finish(r);
      && Yields(Feed(r, data[p..])) == Outcome(f.p, f.calls, f.consumed)
      && f.p == r.p && f.consumed == r.consumed
      && f.calls == r.calls + (if r.halt.Running? && r.mark.Mark? then [Data(r.mark.kind, r.mark.text)] else [])
  {
  }

  lemma OneByte(r: Run, data: seq<byte>, p: nat)
    requires p < |data| && r.halt.Running?
    ensures Feed(r, data[p..p + 1]) == Step(r, data[p])
  {
    hide Feed, Step;
    assert data[p..p] == [];
    FeedNothing(r);
    NextByte(r, data, p, p);
  }

  /** The body bytes between the mark and p. */
  lemma BodyText(m: Pointer, data: seq<byte>, from: nat, p: nat)
    requires from <= p <= |data| && (m.At? ==> m.start <= from)
    requires MarkOf(m, data, from).Mark? ==> MarkOf(m, data, from).kind.Body?
    ensures var m' := if m.Null? then At(Body, from) else m;
      MarkOf(m', data, p) == BodyMark(MarkOf(m, data, from), data[from..p])
    ensures MarkOf(Null, data, p).NoMark?
  {
    if m.At? { assert data[m.start..p] == data[m.start..from] + data[from..p]; }
  }

  lemma FieldNext(r: Run, t: Run, data: seq<byte>, from: nat, p: nat)
    requires from <= p < |data| && t.halt.Running? && t.inner == p - from && t.p.state.Field?
    requires if p == from then t == Inside(r) && r.p.state.Field? && r.halt.Running? && r.inner == 0
             else t == Feed(r, data[from..p])
    ensures Feed(r, data[from..p + 1]) == Past(InField(t, data[p]), data[p])
  {
    hide Feed, Step, InField, Charged, Past;
    NextByte(r, data, from, p);
    if p == from {
      assert data[from..from] == [];
      FeedNothing(r);
      FieldTurn(r, data[p]);
    } else {
      FieldTurn(t, data[p]);
    }
  }

  lemma ExtendMark(m: Pointer, data: seq<byte>, p: nat)
    requires p < |data| && (m.At? ==> m.start <= p)
    ensures m.At? ==> MarkOf(m, data, p + 1) == Mark(m.kind, MarkOf(m, data, p).text + [data[p]])
  {
    if m.At? { assert data[m.start..p + 1] == data[m.start..p] + [data[p]]; }
  }

  lemma TokenKept(t: Run, c: byte)
    requires Token(c) != 0
    ensures var (h, i) := MatchName(t.p.headerState, t.p.index, c, Token(c));
      InField(t, c) == t.(p := t.p.(headerState := h, index := i), inner := t.inner + 1)
  {
    hide MatchName, Token;
  }

  lemma FieldStops(t: Run, c: byte)
    requires Token(c) == 0
    ensures var u := Charged(t, t.inner).(inner := 0);
      InField(t, c) == if u.halt.Running? then Perform(u, EndField(u.p, c), c) else u
  {
    hide Token, Perform;
  }

  lemma PerformKeeps(r: Run, act: Act, c: byte)
    ensures var q := Perform(r, act, c);
      q.inner == r.inner && q.skip == r.skip && q.consumed == r.consumed && q.halt == act.halt
  {
  }

  /** A loop that runs out of data has its bytes charged and the local state stored. */
  function Ended(t: Run): Run {
    var t1 := if t.p.state.Value? then t.(p := t.p.(headerState := t.hs)) else t;
    Charged(t1, t.inner).(inner := 0, skip := 0)
  }

  lemma EndedLoop(t: Run)
    requires t.halt.Running? && 0 < t.inner
    ensures Yields(t) == Yields(Ended(t))
    ensures Ended(t).calls == t.calls && Ended(t).mark == t.mark && Ended(t).consumed == t.consumed
  {
  }
}
