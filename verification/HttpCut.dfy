/** Feeding a request in pieces gives the same result as feeding it at once. */
module HttpCut {
  import opened Bytes
  import opened HttpTypes
  import opened HttpMachine
  import opened HttpInvariant

  // Callback traces with the pieces of each data callback concatenated

  function Join(t: seq<Call>, c: Call): seq<Call> {
    if c.Data? && t != [] && t[|t| - 1].Data? && t[|t| - 1].kind == c.kind
    then t[..|t| - 1] + [Data(c.kind, t[|t| - 1].text + c.text)]
    else t + [c]
  }

  function JoinAll(t: seq<Call>, calls: seq<Call>): seq<Call> {
    if calls == [] then t else Join(JoinAll(t, calls[..|calls| - 1]), calls[|calls| - 1])
  }

  /** Adjacent data callbacks of one kind merged into one. */
  function Merge(calls: seq<Call>): seq<Call> { JoinAll([], calls) }

  lemma JoinSnoc(t: seq<Call>, s: seq<Call>, c: Call)
    ensures JoinAll(t, s + [c]) == Join(JoinAll(t, s), c)
  {
    assert (s + [c])[..|s|] == s;
  }

  lemma {:induction false} JoinConcat(t: seq<Call>, s: seq<Call>, u: seq<Call>)
    ensures JoinAll(t, s + u) == JoinAll(JoinAll(t, s), u)
    decreases |u|
  {
    if u == [] {
      assert s + u == s;
    } else {
      var v, c := u[..|u| - 1], u[|u| - 1];
      assert s + u == (s + v) + [c] && u == v + [c];
      JoinSnoc(t, s + v, c);
      JoinConcat(t, s, v);
    }
  }

  lemma JoinTwice(t: seq<Call>, k: Kind, a: seq<byte>, b: seq<byte>)
    ensures Join(Join(t, Data(k, a)), Data(k, b)) == Join(t, Data(k, a + b))
  {
    var j := Join(t, Data(k, a));
    if t != [] && t[|t| - 1].Data? && t[|t| - 1].kind == k {
      assert j[..|j| - 1] == t[..|t| - 1];
      assert (t[|t| - 1].text + a) + b == t[|t| - 1].text + (a + b);
    } else {
      assert j[..|j| - 1] == t;
    }
  }

  lemma {:induction false} JoinNotices(t: seq<Call>, n: seq<Notice>)
    ensures JoinAll(t, Notices(n)) == t + Notices(n)
    decreases |n|
  {
    if n != [] {
      var m := n[..|n| - 1];
      JoinNotices(t, m);
      assert Notices(n) == Notices(m) + [Notify(n[|n| - 1])];
      JoinSnoc(t, Notices(m), Notify(n[|n| - 1]));
      assert (t + Notices(m)) + [Notify(n[|n| - 1])] == t + Notices(n);
    } else {
      assert t + Notices(n) == t;
    }
  }

  /** What has been reported so far, the open mark included, after the merged trace `pre`. */
  function Trace(pre: seq<Call>, r: Run): seq<Call> {
    var t := JoinAll(pre, r.calls);
    if r.mark.Mark? then Join(t, Data(r.mark.kind, r.mark.text)) else t
  }

  lemma TraceByte(pre: seq<Call>, r: Run, c: byte)
    ensures Trace(pre, WithByte(r, c)) == if r.mark.Mark? then Join(Trace(pre, r), Data(r.mark.kind, [c]))
                                          else Trace(pre, r)
  {
    if r.mark.Mark? { JoinTwice(JoinAll(pre, r.calls), r.mark.kind, r.mark.text, [c]); }
  }

  /** The trace after the flush of an action, as a function of the trace before. */
  function AfterFlush(t: seq<Call>, f: Flush, c: byte): seq<Call> {
    match f
    case Through(k) => Join(t, Data(k, [c]))
    case Forced(k) => Join(t, Data(k, []))
    case _ => t
  }

  lemma FlushTrace(pre: seq<Call>, r: Run, f: Flush, c: byte)
    requires !f.NoFlush? && r.mark.Mark? ==> r.mark.kind == f.kind
    requires !f.NoFlush?
    ensures JoinAll(pre, r.calls + FlushCalls(r.mark, f, c)) == AfterFlush(Trace(pre, r), f, c)
    ensures FlushMark(r.mark, f).NoMark?
  {
    hide JoinAll, Join;
    var t := JoinAll(pre, r.calls);
    var calls := FlushCalls(r.mark, f, c);
    var text := if r.mark.Mark? then r.mark.text else [];
    if calls == [] {
      assert r.calls + calls == r.calls;
    } else {
      JoinSnoc(pre, r.calls, calls[0]);
      assert calls == [calls[0]];
      JoinTwice(t, f.kind, text, if f.Through? then [c] else []);
      assert text + [] == text && [] + [c] == [c];
    }
  }

  /** The trace after an action and its byte, as a function of the trace before. */
  function AfterAct(s: State, t: seq<Call>, act: Act, c: byte): seq<Call> {
    var t1 := AfterFlush(t, act.flush, c) + Notices(act.notices);
    if act.mark.Marking? then Join(t1, Data(act.mark.kind, [c]))
    else if act.flush.NoFlush? && OpenMark(s).Mark? then Join(t1, Data(OpenMark(s).kind, [c]))
    else t1
  }

  lemma ActTrace(pre: seq<Call>, r: Run, act: Act, c: byte)
    requires MarkFits(r.p.state, r.mark) && MarkFlow(r.p.state, act) && !act.halt.Failed?
    ensures Trace(pre, WithByte(Perform(r, act, c), c)) == AfterAct(r.p.state, Trace(pre, r), act, c)
  {
    hide Join, JoinAll;
    var s := r.p.state;
    var q := Perform(r, act, c);
    var flushed := FlushCalls(r.mark, act.flush, c);
    MarkKindsOnly(s, act, r.mark);
    TraceByte(pre, q, c);
    assert q.calls == (r.calls + flushed) + Notices(act.notices);
    JoinConcat(pre, r.calls + flushed, Notices(act.notices));
    JoinNotices(JoinAll(pre, r.calls + flushed), act.notices);
    var t := Trace(pre, r);
    if act.flush.NoFlush? {
      assert r.calls + flushed == r.calls;
      if r.mark.Mark? {
        assert Notices(act.notices) == [];
        assert JoinAll(pre, r.calls) + [] == JoinAll(pre, r.calls);
        assert t + [] == t;
      } else if act.mark.Marking? {
        JoinTwice(t + Notices(act.notices), act.mark.kind, [], [c]);
        assert [] + [c] == [c];
      }
    } else {
      FlushTrace(pre, r, act.flush, c);
      if act.mark.Marking? {
        JoinTwice(AfterFlush(t, act.flush, c) + Notices(act.notices), act.mark.kind, [], [c]);
        assert [] + [c] == [c];
      }
    }
  }

  // Two runs that differ only in where their call began

  /** The fields a later call would start from, the byte counter aside. */
  function Core(r: Run): Parser { Stored(r).(nread := 0) }

  predicate Same(pre1: seq<Call>, r1: Run, pre2: seq<Call>, r2: Run) {
    Core(r1) == Core(r2) && Trace(pre1, r1) == Trace(pre2, r2) && r1.halt == r2.halt
  }

  /** A run whose memchr skip has not yet gone so far that it misses the line end. */
  predicate InReach(r: Run) { RunInv(r) && r.halt.Running? && r.skip < HTTP_MAX_HEADER_SIZE }

  /** The byte is one the value loop accepts wherever it meets it. */
  predicate CleanByte(p: Parser, c: byte) { p.state.Value? ==> p.lenient || IsHeaderChar(c) }

  lemma AtRest(r: Run)
    requires RunInv(r) && !r.p.state.Field? && !r.p.state.Value?
    ensures r.inner == 0 && r.skip == 0 && Stored(r) == r.p && MarkFits(r.p.state, r.mark)
    ensures !r.p.state.ValueStart? && !r.p.state.HeadersDone? && !r.p.state.MessageDone?
  {
    hide Name, NameState, ValueState, MarkFits;
  }

  /** One byte outside the inner loops, spelled out. */
  lemma SwitchStep(pre: seq<Call>, r: Run, c: byte)
    requires InReach(r) && !r.p.state.Field? && !r.p.state.Value?
    requires !Step(r, c).p.errno.HeaderOverflow?
    ensures var act := Switch(r.p.(nread := 0), c);
      && Step(r, c).halt == act.halt
      && (!act.halt.Failed? ==>
            && Core(Step(r, c)) == act.p.(nread := 0)
            && Trace(pre, Step(r, c)) == AfterAct(r.p.state, Trace(pre, r), act, c))
  {
    hide Switch, MarkFlow, Join, JoinAll, AfterAct, RunInv, MarkFits, FlushCalls, FlushMark, ParsingHeader, Notices, Step;
    AtRest(r);
    RestStep(r, c);
    var t := if ParsingHeader(r.p.state) then Charged(r, 1) else r;
    var act := Switch(r.p.(nread := 0), c);
    SwitchFlow(r.p.(nread := 0), c);
    if t.halt.Running? && !act.halt.Failed? { ActTrace(pre, t, act, c); }
  }

  /** Outside the loops a byte is counted, then handled by the switch. */
  lemma RestStep(r: Run, c: byte)
    requires r.halt.Running? && r.inner == 0 && !r.p.state.Field? && !r.p.state.Value?
    ensures var t := if ParsingHeader(r.p.state) then Charged(r, 1) else r;
      var q := Perform(t, Switch(r.p.(nread := 0), c), c);
      Step(r, c) == if t.halt.Failed? then t else if q.halt.Failed? then q else WithByte(q, c).(consumed := q.consumed + 1)
  {
    hide Switch, Perform, ParsingHeader, InField, InValue;
    var t := if ParsingHeader(r.p.state) then Charged(r, 1) else r;
    if !t.halt.Failed? { assert t.p.(nread := 0) == r.p.(nread := 0); }
  }

  lemma SwitchSame(pre1: seq<Call>, r1: Run, pre2: seq<Call>, r2: Run, c: byte)
    requires InReach(r1) && InReach(r2) && Same(pre1, r1, pre2, r2)
    requires !r1.p.state.Field? && !r1.p.state.Value?
    requires !Step(r1, c).halt.Failed? && !Step(r2, c).p.errno.HeaderOverflow?
    requires !Step(r1, c).p.errno.HeaderOverflow?
    ensures !Step(r2, c).halt.Failed? && Same(pre1, Step(r1, c), pre2, Step(r2, c))
  {
    hide Switch, Step, Trace, AfterAct, RunInv;
    AtRest(r1);
    AtRest(r2);
    SwitchStep(pre1, r1, c);
    SwitchStep(pre2, r2, c);
  }

  // One byte inside the loops

  lemma FieldToken(pre: seq<Call>, r: Run, c: byte)
    requires InReach(r) && r.p.state.Field? && !Step(r, c).p.errno.HeaderOverflow? && Token(c) != 0
    ensures var (h, i) := MatchName(r.p.headerState, r.p.index, c, Token(c));
      && Step(r, c).halt.Running?
      && Core(Step(r, c)) == Core(r).(headerState := h, index := i)
      && Trace(pre, Step(r, c)) == Join(Trace(pre, r), Data(HeaderField, [c]))
  {
    hide MatchName, Token, Join, JoinAll, MarkFlow, Inv, ParsingHeader, InValue, Switch, Perform;
    TraceByte(pre, r, c);
  }

  lemma FieldEnd(pre: seq<Call>, r: Run, c: byte)
    requires InReach(r) && r.p.state.Field? && !Step(r, c).p.errno.HeaderOverflow? && Token(c) == 0
    ensures if c != 58 then Step(r, c).halt.Failed?
            else && Step(r, c).halt.Running?
                 && Core(Step(r, c)) == Core(r).(state := DiscardWs)
                 && Trace(pre, Step(r, c)) == Trace(pre, r)
  {
    hide Token, Join, JoinAll, MarkFlow, Inv, Step, InField, Charged, IsUrlState;
    FieldStep(r, c);
    var t := if r.inner == 0 then Charged(r, 1) else r;
    ChargedFields(r, 1);
    FieldOver(t, c);
    if c == 58 { JoinSnoc(pre, r.calls, Data(HeaderField, r.mark.text)); }
  }

  lemma ChargedFields(r: Run, n: nat)
    ensures var t := Charged(r, n);
      && t == r.(p := r.p.(nread := r.p.nread + n, errno := t.p.errno), halt := t.halt)
      && (if t.p.nread > HTTP_MAX_HEADER_SIZE then t.halt.Failed? && t.p.errno.HeaderOverflow?
          else t.halt == r.halt && t.p.errno == r.p.errno)
  {
  }

  /** A byte in the name loop is one turn of it. */
  lemma FieldStep(r: Run, c: byte)
    requires r.halt.Running? && r.p.state.Field?
    ensures var t := if r.inner == 0 then Charged(r, 1) else r; var u := InField(t, c);
      Step(r, c) == if t.halt.Failed? then t else if u.halt.Failed? then u else WithByte(u, c).(consumed := u.consumed + 1)
  {
    hide InField, InValue, Switch, Perform;
  }

  /** The name loop left on a byte that is no token. */
  lemma FieldOver(t: Run, c: byte)
    requires t.halt.Running? && t.p.state.Field? && Token(c) == 0 && t.mark.Mark? && t.mark.kind.HeaderField?
    ensures var u := InField(t, c);
      if c != 58 || t.p.nread + t.inner > HTTP_MAX_HEADER_SIZE then u.halt.Failed?
      else u == t.(p := t.p.(nread := t.p.nread + t.inner, state := DiscardWs), inner := 0, mark := NoMark,
                   calls := t.calls + [Data(HeaderField, t.mark.text)])
    ensures t.p.nread + t.inner > HTTP_MAX_HEADER_SIZE ==> InField(t, c).p.errno.HeaderOverflow?
  {
    hide Token, MatchName;
    assert [Data(HeaderField, t.mark.text)] + Notices([]) == [Data(HeaderField, t.mark.text)];
  }

  lemma FieldSame(pre1: seq<Call>, r1: Run, pre2: seq<Call>, r2: Run, c: byte)
    requires InReach(r1) && InReach(r2) && Same(pre1, r1, pre2, r2) && r1.p.state.Field?
    requires !Step(r1, c).halt.Failed? && !Step(r1, c).p.errno.HeaderOverflow? && !Step(r2, c).p.errno.HeaderOverflow?
    ensures !Step(r2, c).halt.Failed? && Same(pre1, Step(r1, c), pre2, Step(r2, c))
  {
    hide Step, Trace, RunInv, MatchName, Token;
    if Token(c) != 0 {
      FieldToken(pre1, r1, c);
      FieldToken(pre2, r2, c);
    } else {
      FieldEnd(pre1, r1, c);
      FieldEnd(pre2, r2, c);
    }
  }

  /** The fields a value character leaves, when it is accepted. */
  function ValueCore(p: Parser, c: byte): Parser {
    if p.headerState.HGeneral? then p
    else if p.headerState.HContentLength? then
      if c == SPACE then p else p.(contentLength := (p.contentLength * 10 + (c - 48)) % TWO_TO_64)
    else
      var (q, h) := MatchValue(p, p.headerState, c);
      q.(headerState := h)
  }

  predicate LengthFails(p: Parser, c: byte) {
    p.headerState.HContentLength? && c != SPACE && (!IsDigit(c) || (ULLONG_MAX - 10) / 10 < p.contentLength)
  }

  lemma MatchValueCore(p: Parser, h: HeaderState, c: byte, n: nat, g: HeaderState)
    ensures var (q, k) := MatchValue(p, h, c);
      MatchValue(p.(nread := n, headerState := g), h, c) == (q.(nread := n, headerState := g), k)
  {
    hide Lower, Token, Compare;
  }

  /** The run with which the value loop is entered, or continued. */
  function Entered(r: Run): Run { if r.inner == 0 then Charged(r, 1).(hs := r.p.headerState) else r }

  /** A byte in a value is one turn of the value loop, from the same fields and trace. */
  lemma ValueTurn(pre: seq<Call>, r: Run, c: byte)
    requires InReach(r) && r.p.state.Value? && !Step(r, c).p.errno.HeaderOverflow?
    ensures InsideValue(Entered(r)) && Entered(r).skip < HTTP_MAX_HEADER_SIZE
    ensures Entered(r).hs == Core(r).headerState
    ensures Entered(r).p.(nread := 0, headerState := Entered(r).hs) == Core(r)
    ensures Trace(pre, Entered(r)) == Trace(pre, r)
    ensures var t := InValue(Entered(r), c);
      Step(r, c) == if t.halt.Failed? then t else WithByte(t, c).(consumed := t.consumed + 1)
  {
    hide InValue, Join, JoinAll, Name, NameState, ValueState, IsUrlState;
  }

  lemma LoopChar(pre: seq<Call>, t: Run, c: byte)
    requires InsideValue(t) && c != CR && c != LF && CleanByte(t.p, c)
    ensures var u := InValue(t, c);
      if LengthFails(t.p.(headerState := t.hs), c) then u.halt.Failed?
      else && u.halt.Running? && u.calls == t.calls && u.mark == t.mark && u.inner == t.inner + 1
           && u.p.state.Value?
           && u.p.(nread := 0, headerState := u.hs) == ValueCore(t.p.(nread := 0, headerState := t.hs), c)
  {
    hide MatchValue, Name, NameState, EndValue, IsHeaderChar, MarkFits;
    MatchValueCore(t.p, t.hs, c, 0, t.hs);
    if !t.hs.HGeneral? && !t.hs.HContentLength? { MatchValueGood(t.p, t.hs, c); }
  }

  lemma ValueChar(pre: seq<Call>, r: Run, c: byte)
    requires InReach(r) && r.p.state.Value? && !Step(r, c).p.errno.HeaderOverflow?
    requires c != CR && c != LF && CleanByte(r.p, c)
    ensures if LengthFails(Core(r), c) then Step(r, c).halt.Failed?
            else && Step(r, c).halt.Running?
                 && Core(Step(r, c)) == ValueCore(Core(r), c)
                 && Trace(pre, Step(r, c)) == Join(Trace(pre, r), Data(HeaderValue, [c]))
  {
    hide InValue, ValueCore, Join, JoinAll, Inv, Step, IsHeaderChar, IsUrlState;
    ValueTurn(pre, r, c);
    LoopChar(pre, Entered(r), c);
    TraceByte(pre, InValue(Entered(r), c), c);
  }

  lemma LoopEnd(pre: seq<Call>, t: Run, c: byte)
    requires InsideValue(t) && (c == CR || c == LF) && t.skip < HTTP_MAX_HEADER_SIZE
    requires !InValue(t, c).p.errno.HeaderOverflow?
    ensures var u := InValue(t, c);
      && u.halt.Running? && u.mark.NoMark? && u.inner == 0
      && u.p == t.p.(headerState := t.hs, state := if c == CR then HeaderAlmostDone else ValueLws, nread := u.p.nread)
      && Trace(pre, u) == Trace(pre, t)
  {
    hide MatchValue, Join, JoinAll, Inv, InLength, IsHeaderChar, IsUrlState, ValueState;
    JoinSnoc(pre, t.calls, Data(HeaderValue, t.mark.text));
    assert [Data(HeaderValue, t.mark.text)] + Notices([]) == [Data(HeaderValue, t.mark.text)];
  }

  lemma ValueEnd(pre: seq<Call>, r: Run, c: byte)
    requires InReach(r) && r.p.state.Value? && !Step(r, c).p.errno.HeaderOverflow?
    requires c == CR || c == LF
    ensures Step(r, c).halt.Running?
    ensures Core(Step(r, c)) == Core(r).(state := if c == CR then HeaderAlmostDone else ValueLws)
    ensures Trace(pre, Step(r, c)) == Trace(pre, r)
  {
    hide InValue, Join, JoinAll, Inv, Step, IsUrlState, ValueState;
    ValueTurn(pre, r, c);
    LoopEnd(pre, Entered(r), c);
    TraceByte(pre, InValue(Entered(r), c), c);
  }

  lemma ValueSame(pre1: seq<Call>, r1: Run, pre2: seq<Call>, r2: Run, c: byte)
    requires InReach(r1) && InReach(r2) && Same(pre1, r1, pre2, r2) && r1.p.state.Value?
    requires !Step(r1, c).halt.Failed? && !Step(r1, c).p.errno.HeaderOverflow? && !Step(r2, c).p.errno.HeaderOverflow?
    requires CleanByte(r1.p, c)
    ensures !Step(r2, c).halt.Failed? && Same(pre1, Step(r1, c), pre2, Step(r2, c))
  {
    hide Step, Trace, RunInv, ValueCore, LengthFails;
    if c == CR || c == LF {
      ValueEnd(pre1, r1, c);
      ValueEnd(pre2, r2, c);
    } else {
      ValueChar(pre1, r1, c);
      ValueChar(pre2, r2, c);
    }
  }

  // Many bytes

  /** Every byte met inside a value is one the value loop accepts. */
  predicate Clean(r: Run, data: seq<byte>)
    decreases |data|
  {
    data == [] || !r.halt.Running? || (CleanByte(r.p, data[0]) && Clean(Step(r, data[0]), data[1..]))
  }

  /** Once the skip has run past the memchr window, the call can only overflow. */
  lemma {:induction false} OutOfReach(r: Run, data: seq<byte>)
    requires RunInv(r) && r.halt.Running? && r.skip >= HTTP_MAX_HEADER_SIZE
    ensures Finish(Feed(r, data)).p.errno.HeaderOverflow?
    decreases |data|
  {
    hide Name, NameState, ValueState, MatchValue, EndValue, InLength, InField, Switch, IsUrlState;
    if data != [] {
      StepGood(r, data[0]);
      OutOfReach(Step(r, data[0]), data[1..]);
    }
  }

  lemma FailedStaysFailed(r: Run, data: seq<byte>)
    ensures r.halt.Failed? ==> Finish(Feed(r, data)) == r
  {
  }

  lemma {:induction false} FeedConcat(r: Run, a: seq<byte>, b: seq<byte>)
    ensures Feed(r, a + b) == Feed(Feed(r, a), b)
    decreases |a|
  {
    hide Step;
    if a == [] {
      assert a + b == b;
    } else if r.halt.Running? {
      assert (a + b)[1..] == a[1..] + b;
      FeedConcat(Step(r, a[0]), a[1..], b);
    }
  }

  /** One byte, handled by both without overflow, keeps two runs the same. */
  lemma ByteSame(pre1: seq<Call>, r1: Run, pre2: seq<Call>, r2: Run, c: byte)
    requires InReach(r1) && InReach(r2) && Same(pre1, r1, pre2, r2) && CleanByte(r1.p, c)
    requires !Step(r1, c).halt.Failed? && !Step(r1, c).p.errno.HeaderOverflow? && !Step(r2, c).p.errno.HeaderOverflow?
    ensures !Step(r2, c).halt.Failed? && Same(pre1, Step(r1, c), pre2, Step(r2, c))
  {
    hide Step, RunInv, CleanByte, Trace, Core;
    CoreState(r1);
    CoreState(r2);
    if r1.p.state.Field? { FieldSame(pre1, r1, pre2, r2, c); }
    else if r1.p.state.Value? { ValueSame(pre1, r1, pre2, r2, c); }
    else { SwitchSame(pre1, r1, pre2, r2, c); }
  }

  lemma StepSame(pre1: seq<Call>, r1: Run, pre2: seq<Call>, r2: Run, data: seq<byte>, rest: seq<byte>)
    requires RunInv(r1) && RunInv(r2) && Same(pre1, r1, pre2, r2) && r1.halt.Running? && data != []
    requires CleanByte(r1.p, data[0])
    requires Finish(Feed(r1, data + rest)).p.errno.Ok?
    requires !Finish(Feed(r2, data)).p.errno.HeaderOverflow?
    ensures RunInv(Step(r1, data[0])) && RunInv(Step(r2, data[0]))
    ensures !Step(r1, data[0]).halt.Failed? && Same(pre1, Step(r1, data[0]), pre2, Step(r2, data[0]))
  {
    hide Step, Finish, RunInv, CleanByte, Trace, Core;
    var c := data[0];
    assert (data + rest)[0] == data[0] && (data + rest)[1..] == data[1..] + rest;
    StepGood(r1, c);
    StepGood(r2, c);
    if r1.skip >= HTTP_MAX_HEADER_SIZE { OutOfReach(r1, data + rest); }
    if r2.skip >= HTTP_MAX_HEADER_SIZE { OutOfReach(r2, data); }
    FailedStaysFailed(Step(r1, c), data[1..] + rest);
    FailedStaysFailed(Step(r2, c), data[1..]);
    OkRun(Step(r1, c));
    OkRun(Step(r2, c));
    ByteSame(pre1, r1, pre2, r2, c);
  }

  lemma CoreState(r: Run)
    ensures Core(r).state == r.p.state
  {
  }

  lemma OkRun(r: Run)
    ensures RunInv(r) ==> r.p.errno.Ok?
  {
    hide Name, NameState, ValueState, MarkFits;
  }

  lemma {:induction false} FeedSame(pre1: seq<Call>, r1: Run, pre2: seq<Call>, r2: Run, data: seq<byte>, rest: seq<byte>)
    requires RunInv(r1) && RunInv(r2) && Same(pre1, r1, pre2, r2)
    requires !r1.halt.Failed? && Clean(r1, data)
    requires Finish(Feed(r1, data + rest)).p.errno.Ok?
    requires !Finish(Feed(r2, data)).p.errno.HeaderOverflow?
    ensures RunInv(Feed(r1, data)) && RunInv(Feed(r2, data))
    ensures !Feed(r1, data).halt.Failed? && Same(pre1, Feed(r1, data), pre2, Feed(r2, data))
    ensures Feed(r1, data).consumed - r1.consumed == Feed(r2, data).consumed - r2.consumed <= |data|
    ensures Feed(r1, data).halt.Running? ==> Feed(r1, data).consumed == r1.consumed + |data|
    decreases |data|
  {
    hide Step, Finish, RunInv, CleanByte, Trace, Core;
    if data != [] && r1.halt.Running? {
      assert (data + rest)[0] == data[0] && (data + rest)[1..] == data[1..] + rest;
      StepSame(pre1, r1, pre2, r2, data, rest);
      StepCounts(r1, data[0]);
      StepCounts(r2, data[0]);
      FeedSame(pre1, Step(r1, data[0]), pre2, Step(r2, data[0]), data[1..], rest);
    }
  }

  lemma StepCounts(r: Run, c: byte)
    ensures Step(r, c).consumed == if Step(r, c).halt.Failed? then r.consumed else r.consumed + 1
  {
    hide Switch, ParsingHeader, InField, InValue, Perform;
    var t := if r.inner == 0 && ParsingHeader(r.p.state) then Charged(r, 1) else r;
    FieldCounts(t, c);
    ValueCounts(if r.inner == 0 then t.(hs := r.p.headerState) else t, c);
    PerformCounts(t, Switch(t.p.(nread := 0), c), c);
  }

  lemma PerformCounts(r: Run, act: Act, c: byte)
    ensures Perform(r, act, c).consumed == r.consumed
  {
    hide FlushCalls, FlushMark, Notices;
  }

  lemma FieldCounts(r: Run, c: byte)
    ensures InField(r, c).consumed == r.consumed
  {
    hide MatchName, Token, Perform, EndField;
    var r1 := Charged(r, r.inner).(inner := 0);
    PerformCounts(r1, EndField(r1.p, c), c);
  }

  lemma ValueCounts(r: Run, c: byte)
    ensures InValue(r, c).consumed == r.consumed
  {
    hide MatchValue, IsHeaderChar, EndValue;
    EndCounts(r, c);
  }

  lemma EndCounts(r: Run, c: byte)
    ensures EndValue(r, c).consumed == r.consumed
  {
    hide FlushCalls, FlushMark, Notices;
  }

  // Whole calls

  lemma FinishTrace(pre: seq<Call>, r: Run)
    requires RunInv(r) && !r.halt.Failed? && Finish(r).p.errno.Ok?
    ensures Finish(r).p.(nread := 0) == Core(r)
    ensures JoinAll(pre, Finish(r).calls) == Trace(pre, r)
    ensures Finish(r).consumed == r.consumed
  {
    hide Join, JoinAll, Name, NameState, ValueState;
    if r.mark.Mark? { JoinSnoc(pre, r.calls, Data(r.mark.kind, r.mark.text)); }
  }

  /** Ending a call and starting the next one leaves the run where it was. */
  lemma Handover(pre: seq<Call>, r: Run)
    requires RunInv(r) && r.halt.Running? && Finish(r).p.errno.Ok?
    ensures var f := Finish(r);
      Inv(f.p) && RunInv(Begin(f.p)) && Same(pre, r, JoinAll(pre, f.calls), Begin(f.p))
  {
    hide Join, JoinAll, Name, NameState, ValueState, Finish, RunInv, Sound;
    var f := Finish(r);
    FinishTrace(pre, r);
    FinishState(r);
    FinishGood(r);
    BeginGood(f.p);
    var pre2 := JoinAll(pre, f.calls);
    assert JoinAll(pre2, []) == pre2 by { JoinNone(pre2); }
    if OpenMark(f.p.state).Mark? {
      JoinTwice(JoinAll(pre, r.calls), r.mark.kind, r.mark.text, []);
      assert r.mark.text + [] == r.mark.text;
    }
  }

  lemma JoinNone(t: seq<Call>)
    ensures JoinAll(t, []) == t
  {
  }

  lemma FinishState(r: Run)
    requires RunInv(r) && r.halt.Running? && Finish(r).p.errno.Ok?
    ensures Finish(r).p.state == r.p.state && Finish(r).p.lenient == r.p.lenient
    ensures OpenMark(r.p.state).Mark? ==> r.mark.Mark? && r.mark.kind == OpenMark(r.p.state).kind
    ensures Good(r)
  {
    hide Name, NameState, ValueState;
  }

  function Concat(pieces: seq<seq<byte>>): seq<byte> {
    if pieces == [] then [] else pieces[0] + Concat(pieces[1..])
  }

  lemma {:induction false} ErrnoSticks(p: Parser, pieces: seq<seq<byte>>)
    ensures !p.errno.Ok? ==> ExecuteAll(p, pieces) == Outcome(p, [], 0)
    decreases |pieces|
  {
    if pieces != [] && !p.errno.Ok? { ErrnoSticks(p, pieces[1..]); }
  }

  lemma {:induction false} PiecesSame(pre1: seq<Call>, r1: Run, pre2: seq<Call>, p: Parser, pieces: seq<seq<byte>>)
    requires RunInv(r1) && r1.halt.Running? && Inv(p) && Same(pre1, r1, pre2, Begin(p))
    requires pieces != [] && forall i :: 0 <= i < |pieces| ==> pieces[i] != []
    requires Clean(r1, Concat(pieces))
    requires Finish(Feed(r1, Concat(pieces))).p.errno.Ok?
    requires Feed(r1, Concat(pieces)).consumed == r1.consumed + |Concat(pieces)|
    requires !ExecuteAll(p, pieces).p.errno.HeaderOverflow?
    ensures
      var whole, all := Finish(Feed(r1, Concat(pieces))), ExecuteAll(p, pieces);
      && all.p.(nread := 0) == whole.p.(nread := 0)
      && JoinAll(pre2, all.calls) == JoinAll(pre1, whole.calls)
      && all.consumed == |Concat(pieces)|
    decreases |pieces|
  {
    hide Step, Finish, RunInv, Trace, Core, Begin, Inv, Join, JoinAll, Feed, Clean;
    var d, others := pieces[0], pieces[1..];
    var rest := Concat(others);
    BeginGood(p);
    InvOk(p);
    BeginRuns(p);
    assert Execute(p, d).p == Finish(Feed(Begin(p), d)).p;
    ErrnoSticks(Execute(p, d).p, others);
    CleanPrefix(r1, d, rest);
    FeedSame(pre1, r1, pre2, Begin(p), d, rest);
    FeedConcat(r1, d, rest);
    var s1, s2 := Feed(r1, d), Feed(Begin(p), d);
    NotFailedFinish(s2);
    FinishTrace(pre2, s2);
    if others == [] {
      assert d + rest == d;
      FinishTrace(pre1, s1);
      JoinConcat(pre2, Finish(s2).calls, []);
      assert Finish(s2).calls + [] == Finish(s2).calls;
      assert ExecuteAll(Execute(p, d).p, []) == Outcome(Execute(p, d).p, [], 0);
    } else {
      assert rest != [] by { assert others[0] == pieces[1]; }
      HaltedFeed(s1, rest);
      Handover(pre2, s2);
      var q := Finish(s2).p;
      SameTrans(pre1, s1, pre2, s2, JoinAll(pre2, Finish(s2).calls), Begin(q));
      PiecesSame(pre1, s1, JoinAll(pre2, Finish(s2).calls), q, others);
      JoinConcat(pre2, Finish(s2).calls, ExecuteAll(q, others).calls);
    }
  }

  lemma InvOk(p: Parser)
    requires Inv(p)
    ensures p.errno.Ok?
  {
    hide Name, NameState, ValueState;
  }

  lemma BeginRuns(p: Parser)
    ensures Begin(p).halt.Running? && Begin(p).consumed == 0
  {
  }

  lemma NotFailedFinish(r: Run)
    requires RunInv(r) && !r.halt.Failed? && !Finish(r).p.errno.HeaderOverflow?
    ensures Finish(r).p.errno.Ok?
  {
    hide Name, NameState, ValueState, MarkFits;
  }

  lemma HaltedFeed(r: Run, data: seq<byte>)
    ensures !r.halt.Running? ==> Feed(r, data) == r
  {
  }

  lemma SameTrans(pre1: seq<Call>, r1: Run, pre2: seq<Call>, r2: Run, pre3: seq<Call>, r3: Run)
    requires Same(pre1, r1, pre2, r2) && Same(pre2, r2, pre3, r3)
    ensures Same(pre1, r1, pre3, r3)
  {
  }

  lemma {:induction false} CleanPrefix(r: Run, a: seq<byte>, b: seq<byte>)
    requires Clean(r, a + b)
    ensures Clean(r, a)
    ensures Clean(Feed(r, a), b)
    decreases |a|
  {
    hide Step, CleanByte;
    if a == [] {
      assert a + b == b;
    } else if r.halt.Running? {
      assert (a + b)[0] == a[0] && (a + b)[1..] == a[1..] + b;
      CleanPrefix(Step(r, a[0]), a[1..], b);
    }
  }

  /** Cut-independence. Take any parser between two calls and any input that one call
      accepts whole, without error and to its last byte, in which every byte inside a
      header value is one the value loop accepts. However the input is cut into
      non-empty pieces, feeding the pieces one call at a time either reports
      HEADER_OVERFLOW or ends in the same fields (all but the byte counter), with the
      same callbacks once each data callback's pieces are put together, every byte
      consumed. */
  lemma CutIndependence(p: Parser, pieces: seq<seq<byte>>)
    requires Inv(p)
    requires pieces != [] && forall i :: 0 <= i < |pieces| ==> pieces[i] != []
    requires Execute(p, Concat(pieces)).p.errno.Ok?
    requires Execute(p, Concat(pieces)).consumed == |Concat(pieces)|
    requires Clean(Begin(p), Concat(pieces))
    requires !ExecuteAll(p, pieces).p.errno.HeaderOverflow?
    ensures
      var whole, all := Execute(p, Concat(pieces)), ExecuteAll(p, pieces);
      && all.p.(nread := whole.p.nread) == whole.p
      && Merge(all.calls) == Merge(whole.calls)
      && all.consumed == whole.consumed
  {
    hide Step, Finish, RunInv, Trace, Core, Begin, Inv, Join, JoinAll, Feed, Clean, ExecuteAll;
    BeginGood(p);
    BeginRuns(p);
    InvOk(p);
    assert pieces[0] <= Concat(pieces);
    var r := Feed(Begin(p), Concat(pieces));
    FeedGood(Begin(p), Concat(pieces));
    FinishKeepsCount(r);
    PiecesSame([], Begin(p), [], p, pieces);
  }

  lemma FinishKeepsCount(r: Run)
    ensures Finish(r).consumed == r.consumed
  {
  }

  // The condition on value bytes is needed

  /** Where an input is not clean. */
  lemma {:induction false} DirtySpot(r: Run, data: seq<byte>) returns (i: nat)
    requires !Clean(r, data)
    ensures i < |data| && Feed(r, data[..i]).halt.Running? && !CleanByte(Feed(r, data[..i]).p, data[i])
    decreases |data|
  {
    hide Step, CleanByte;
    if !CleanByte(r.p, data[0]) {
      i := 0;
    } else {
      var j := DirtySpot(Step(r, data[0]), data[1..]);
      i := j + 1;
      assert data[..i][1..] == data[1..][..j];
    }
  }

  lemma DirtyByteFails(r: Run, c: byte)
    requires r.halt.Running? && r.inner == 0 && r.skip == 0 && !CleanByte(r.p, c)
    ensures Step(r, c).halt.Failed? && !Step(r, c).p.errno.Ok?
  {
    hide EndValue, InField, MatchValue, InLength, Switch;
  }

  /** An input that one call accepts although a value holds a byte the loop would
      reject has a cut, just before that byte, that makes the parser fail. */
  lemma UncleanCutFails(p: Parser, data: seq<byte>) returns (a: seq<byte>, b: seq<byte>)
    requires Inv(p) && data != [] && Execute(p, data).p.errno.Ok? && !Clean(Begin(p), data)
    ensures a != [] && b != [] && a + b == data
    ensures !ExecuteAll(p, [a, b]).p.errno.Ok?
  {
    hide Step, Inv, RunInv, Clean, CleanByte, Finish;
    InvOk(p);
    BeginGood(p);
    var i := DirtySpot(Begin(p), data);
    a, b := data[..i], data[i..];
    assert data == a + b;
    FeedConcat(Begin(p), a, b);
    if i == 0 {
      DirtyByteFails(Begin(p), data[0]);
      FailedStaysFailed(Step(Begin(p), data[0]), data[1..]);
      assert false;
    }
    var q := Execute(p, a).p;
    assert [a, b][1..] == [b] && [b][1..] == [];
    if q.errno.Ok? {
      FeedGood(Begin(p), a);
      FinishState(Feed(Begin(p), a));
      CleanByteSame(Feed(Begin(p), a).p, q, b[0]);
      DirtyByteFails(Begin(q), b[0]);
      FailedStaysFailed(Step(Begin(q), b[0]), b[1..]);
      assert !Execute(q, b).p.errno.Ok?;
      assert ExecuteAll(q, [b]).p == ExecuteAll(Execute(q, b).p, []).p;
    } else {
      ErrnoSticks(q, [b]);
    }
  }

  lemma CleanByteSame(p: Parser, q: Parser, c: byte)
    requires q.state == p.state && q.lenient == p.lenient
    ensures CleanByte(p, c) == CleanByte(q, c)
  {
  }

  // What a run can be charged

  /** The charge a run owes its counter, against the bytes it has consumed. */
  predicate Owes(r: Run, start: int) {
    r.p.nread + r.inner <= start + r.consumed + (if 0 < r.inner then 1 else 0)
  }

  /** A run about to handle a byte that the budget still covers. */
  predicate Affordable(r: Run, start: int) {
    RunInv(r) && r.halt.Running? && Owes(r, start) && start + r.consumed < HTTP_MAX_HEADER_SIZE
  }

  predicate Afforded(r: Run, start: int) {
    !r.p.errno.HeaderOverflow? && (!r.halt.Failed? ==> Owes(r, start))
  }

  lemma SwitchOwes(r: Run, c: byte, start: int)
    requires Affordable(r, start) && !r.p.state.Field? && !r.p.state.Value?
    ensures Afforded(Step(r, c), start)
  {
    hide Switch, FlushCalls, FlushMark, Notices, Name, NameState, ValueState, MarkFits, ParsingHeader, InField, InValue;
    SwitchSound(r.p.(nread := 0), c);
  }

  lemma FieldOwes(r: Run, c: byte, start: int)
    requires Affordable(r, start) && r.p.state.Field?
    ensures Afforded(Step(r, c), start)
  {
    hide Step, InField, Name, NameState, ValueState, MarkFits;
    FieldStep(r, c);
    var t := if r.inner == 0 then Charged(r, 1) else r;
    if t.halt.Running? { FieldPays(t, c); }
  }

  /** What one turn of the name loop does to the counter. */
  lemma FieldPays(t: Run, c: byte)
    requires t.halt.Running? && t.p.state.Field? && t.p.errno.Ok?
    ensures var u := InField(t, c);
      && u.consumed == t.consumed && !u.halt.Upgraded? && !u.p.state.Value?
      && (t.p.nread + t.inner <= HTTP_MAX_HEADER_SIZE ==> !u.p.errno.HeaderOverflow?)
      && (u.halt.Running? && u.p.state.Field? ==> u.inner == t.inner + 1 && u.p.nread == t.p.nread)
      && (u.halt.Running? && !u.p.state.Field? ==> u.inner == 0 && u.p.nread == t.p.nread + t.inner <= HTTP_MAX_HEADER_SIZE)
  {
    hide MatchName, Token, FlushCalls, FlushMark, Notices;
  }

  lemma EndValuePays(t: Run, c: byte)
    requires t.p.nread + t.inner <= HTTP_MAX_HEADER_SIZE && t.halt.Running?
    ensures var u := EndValue(t, c);
      u.p.errno == t.p.errno && u.inner == 0 && u.p.nread == t.p.nread + t.inner && u.consumed == t.consumed &&
      u.halt.Running? == t.halt.Running?
  {
    hide FlushCalls, FlushMark, Notices;
  }

  lemma ValueOwes(r: Run, c: byte, start: int)
    requires Affordable(r, start) && r.p.state.Value?
    ensures Afforded(Step(r, c), start)
  {
    hide Switch, MatchValue, EndValue, IsHeaderChar, Name, NameState, MarkFits, InField, ValueState;
    var e := if r.inner == 0 then r.(p := r.p.(nread := r.p.nread + 1), hs := r.p.headerState) else r;
    EndValuePays(e, c);
    var h := if r.inner == 0 then r.p.headerState else r.hs;
    if !h.HGeneral? && !h.HContentLength? {
      var t := if r.inner == 0 then r.p.(nread := r.p.nread + 1) else r.p;
      MatchValueGood(t, h, c);
    }
  }

  lemma StepOwes(r: Run, c: byte, start: int)
    requires Affordable(r, start)
    ensures Afforded(Step(r, c), start)
  {
    hide Step, Affordable, Afforded;
    if r.p.state.Field? { FieldOwes(r, c, start); }
    else if r.p.state.Value? { ValueOwes(r, c, start); }
    else { SwitchOwes(r, c, start); }
  }

  lemma {:induction false} FeedOwes(r: Run, data: seq<byte>, start: int)
    requires RunInv(r) && r.halt.Running? && Owes(r, start)
    requires start + r.consumed + |data| < HTTP_MAX_HEADER_SIZE
    ensures !Feed(r, data).p.errno.HeaderOverflow?
    ensures !Feed(r, data).halt.Failed? ==> Owes(Feed(r, data), start) && Feed(r, data).consumed <= r.consumed + |data|
    decreases |data|
  {
    hide Step, RunInv;
    OkRun(r);
    if data != [] {
      StepOwes(r, data[0], start);
      StepGood(r, data[0]);
      StepCounts(r, data[0]);
      if Step(r, data[0]).halt.Running? { FeedOwes(Step(r, data[0]), data[1..], start); }
      else { HaltedFeed(Step(r, data[0]), data[1..]); }
    }
  }

  lemma FinishOwes(r: Run, start: int)
    requires Owes(r, start) && RunInv(r) && !r.halt.Failed? && start + r.consumed < HTTP_MAX_HEADER_SIZE
    ensures !Finish(r).p.errno.HeaderOverflow?
    ensures Finish(r).p.errno.Ok? ==> Finish(r).p.nread <= start + r.consumed + 1
  {
    hide Name, NameState, ValueState, MarkFits;
  }

  lemma FinishFailed(r: Run)
    ensures r.halt.Failed? ==> Finish(r) == r
  {
  }

  /** One call charges at most one byte more than it is given. */
  lemma ExecuteOwes(p: Parser, data: seq<byte>)
    requires Inv(p) && p.nread + |data| < HTTP_MAX_HEADER_SIZE
    ensures !Execute(p, data).p.errno.HeaderOverflow?
    ensures Execute(p, data).p.errno.Ok? ==> Execute(p, data).p.nread <= p.nread + |data| + 1
  {
    hide Feed, Finish, RunInv, Inv;
    InvOk(p);
    if data != [] {
      var r := Feed(Begin(p), data);
      BeginGood(p);
      FeedOwes(Begin(p), data, p.nread);
      FeedGood(Begin(p), data);
      FinishFailed(r);
      if !r.halt.Failed? { FinishOwes(r, p.nread); }
    }
  }
}
