/** The header byte counter under cuts: exactly which cuts of an accepted input overflow
    it, and that some do. */
module HttpLimit {
  import opened Bytes
  import opened HttpTypes
  import opened HttpMachine
  import opened HttpInvariant
  import opened HttpCut
  import opened HttpMessage

  /** The header bytes charged since the counter was last reset, one for each byte. Inside
      a loop the first byte is charged on the way in, and all of them again on the way
      out: that is the byte too many of a call that ends there. */
  function Charge(r: Run): int { r.p.nread + r.inner - (if r.inner > 0 then 1 else 0) }

  /** The byte resets the counter. */
  predicate Resets(r: Run, c: byte) { OutsideLoops(r.p.state) && Switch(r.p.(nread := 0), c).reset }

  // One byte

  /** A loop that has passed the limit, and will find out when it ends. */
  predicate Doomed(r: Run) { 0 < r.inner && r.p.nread + r.inner > HTTP_MAX_HEADER_SIZE }

  /** The limit allows one more byte of this state. */
  predicate Allows(r: Run, e: nat) { ParsingHeader(r.p.state) ==> Charge(r) + e + 1 <= HTTP_MAX_HEADER_SIZE }

  /** What one byte does to the counter. */
  predicate Accounted(r: Run, c: byte) {
    var q := Step(r, c);
    && (Allows(r, 0) ==> !q.p.errno.HeaderOverflow?)
    && (!Allows(r, 0) ==> q.halt.Failed? || Doomed(q))
    && (!q.halt.Failed? ==>
          Charge(q) == if Resets(r, c) then 0 else if ParsingHeader(r.p.state) then Charge(r) + 1 else Charge(r))
    && (!q.halt.Failed? ==> (0 < q.inner <==> !OutsideLoops(r.p.state) && !OutsideLoops(q.p.state)))
  }

  lemma SwitchAccounted(r: Run, c: byte)
    requires RunInv(r) && r.halt.Running? && OutsideLoops(r.p.state)
    ensures Accounted(r, c)
  {
    hide Switch, FlushCalls, FlushMark, Notices, Name, NameState, ValueState, MarkFits, ParsingHeader, InField, InValue;
    AtRest(r);
    SwitchSound(r.p.(nread := 0), c);
  }

  lemma FieldAccounted(r: Run, c: byte)
    requires RunInv(r) && r.halt.Running? && r.p.state.Field?
    ensures Accounted(r, c)
  {
    hide Step, Switch, InField, Name, NameState, ValueState, MarkFits;
    FieldStep(r, c);
    var t := if r.inner == 0 then Charged(r, 1) else r;
    if t.halt.Running? { FieldPays(t, c); }
  }

  lemma ValueAccounted(r: Run, c: byte)
    requires RunInv(r) && r.halt.Running? && r.p.state.Value?
    ensures Accounted(r, c)
  {
    hide Switch, InField, InValue, MarkFits, Name, NameState, ValueState;
    var t := if r.inner == 0 then Charged(r, 1).(hs := r.p.headerState) else r;
    if t.halt.Running? { LoopAccounted(t, c); }
  }

  lemma LoopAccounted(t: Run, c: byte)
    requires t.halt.Running? && t.p.state.Value? && t.p.errno.Ok? && t.p.index < 128 && ValueState(t.hs, t.p.index)
    ensures var u := InValue(t, c);
      && (t.p.nread + t.inner <= HTTP_MAX_HEADER_SIZE ==> !u.p.errno.HeaderOverflow?)
      && (u.halt.Failed? || u.halt.Running?)
      && (u.halt.Running? ==> u.consumed == t.consumed)
      && (u.halt.Running? && u.p.state.Value? ==> u.inner == t.inner + 1 && u.p.nread == t.p.nread)
      && (u.halt.Running? && !u.p.state.Value? ==>
           u.inner == 0 && u.p.nread == t.p.nread + t.inner <= HTTP_MAX_HEADER_SIZE && !u.p.state.Field?)
  {
    hide MatchValue, EndValue, IsHeaderChar, ValueState;
    if c == CR || c == LF { EndAccounted(t, c); }
    else if !t.hs.HGeneral? && !t.hs.HContentLength? { MatchValueGood(t.p, t.hs, c); }
  }

  lemma EndAccounted(t: Run, c: byte)
    requires t.halt.Running? && t.p.state.Value? && t.p.errno.Ok? && (c == CR || c == LF)
    ensures var u := EndValue(t, c);
      if t.p.nread + t.inner > HTTP_MAX_HEADER_SIZE then u.halt.Failed?
      else u.halt.Running? && u.consumed == t.consumed && u.inner == 0 && u.p.nread == t.p.nread + t.inner &&
           !u.p.state.Field? && !u.p.state.Value? && u.p.errno.Ok?
  {
    hide FlushCalls, FlushMark, Notices;
  }

  lemma StepAccounted(r: Run, c: byte)
    requires RunInv(r) && r.halt.Running?
    ensures Accounted(r, c)
  {
    hide Accounted, RunInv;
    if r.p.state.Field? { FieldAccounted(r, c); }
    else if r.p.state.Value? { ValueAccounted(r, c); }
    else { SwitchAccounted(r, c); }
  }

  lemma {:induction false} DoomedFails(r: Run, data: seq<byte>)
    requires RunInv(r) && r.halt.Running? && Doomed(r)
    ensures !Finish(Feed(r, data)).p.errno.Ok?
    decreases |data|
  {
    hide Step, RunInv, Accounted;
    if data == [] {
      FeedNothing(r);
    } else {
      DoomedStep(r, data[0]);
      StepGood(r, data[0]);
      FailedStaysFailed(Step(r, data[0]), data[1..]);
      if !Step(r, data[0]).halt.Failed? { DoomedFails(Step(r, data[0]), data[1..]); }
    }
  }

  lemma DoomedStep(r: Run, c: byte)
    requires RunInv(r) && r.halt.Running? && Doomed(r)
    ensures Step(r, c).halt.Failed? || (Step(r, c).halt.Running? && Doomed(Step(r, c)))
    ensures Step(r, c).halt.Failed? ==> !Step(r, c).p.errno.Ok?
  {
    hide Step, Name, NameState, ValueState, Sound;
    StepAccounted(r, c);
    StepGood(r, c);
  }

  // A piece of an accepted input

  /** How many bytes too many are still in the counter after these bytes. */
  function Carried(r: Run, e: nat, data: seq<byte>): nat
    decreases |data|
  {
    if data == [] || !r.halt.Running? then e
    else Carried(Step(r, data[0]), if Resets(r, data[0]) then 0 else e, data[1..])
  }

  /** With e bytes too many in the counter, the limit allows every header byte. */
  predicate Room(r: Run, e: nat, data: seq<byte>)
    decreases |data|
  {
    data == [] || !r.halt.Running? ||
    (Allows(r, e) && Room(Step(r, data[0]), if Resets(r, data[0]) then 0 else e, data[1..]))
  }

  /** The bytes too many once a call has ended in this run. */
  function AtEnd(r: Run, e: nat): nat { if 0 < r.inner then e + 1 else e }

  predicate EndFits(r: Run, e: nat) { Charge(r) + AtEnd(r, e) <= HTTP_MAX_HEADER_SIZE }

  /** Two runs that are the same, the second with e more in its counter. */
  predicate Behind(pre1: seq<Call>, r1: Run, pre2: seq<Call>, r2: Run, e: nat) {
    RunInv(r1) && RunInv(r2) && Same(pre1, r1, pre2, r2) && Charge(r2) == Charge(r1) + e
  }

  lemma ResetsSame(r1: Run, r2: Run, c: byte)
    requires Core(r1) == Core(r2)
    ensures Resets(r1, c) == Resets(r2, c)
    ensures r1.p.state == r2.p.state
  {
    hide Switch;
  }

  /** The reach of the memchr skip is never the limit that is met first. */
  lemma AllowsReach(r: Run)
    requires RunInv(r) && r.halt.Running? && Allows(r, 0)
    ensures InReach(r)
  {
    hide Inv, MarkFits, Switch;
  }

  lemma StepBehind(pre1: seq<Call>, r1: Run, pre2: seq<Call>, r2: Run, data: seq<byte>, rest: seq<byte>, e: nat)
    requires Behind(pre1, r1, pre2, r2, e) && r1.halt.Running? && data != [] && CleanByte(r1.p, data[0])
    requires Finish(Feed(r1, data + rest)).p.errno.Ok? && Allows(r1, e)
    ensures !Step(r1, data[0]).halt.Failed?
    ensures Behind(pre1, Step(r1, data[0]), pre2, Step(r2, data[0]), if Resets(r1, data[0]) then 0 else e)
    ensures 0 < Step(r2, data[0]).inner <==> 0 < Step(r1, data[0]).inner
  {
    hide Step, Finish, RunInv, CleanByte, Trace, Core, Resets;
    var c := data[0];
    assert (data + rest)[0] == c && (data + rest)[1..] == data[1..] + rest;
    ResetsSame(r1, r2, c);
    StepGood(r1, c);
    StepGood(r2, c);
    if r1.skip >= HTTP_MAX_HEADER_SIZE { OutOfReach(r1, data + rest); }
    FailedStaysFailed(Step(r1, c), data[1..] + rest);
    StepAccounted(r1, c);
    StepAccounted(r2, c);
    AllowsReach(r2);
    OkRun(Step(r1, c));
    ByteSame(pre1, r1, pre2, r2, c);
    CoreState(Step(r1, c));
    CoreState(Step(r2, c));
    OkRun(Step(r2, c));
  }

  /** A piece fed to the second run ends without error exactly when there is room for it
      and for the charge at its end. */
  lemma {:induction false} PieceFits(pre1: seq<Call>, r1: Run, pre2: seq<Call>, r2: Run, data: seq<byte>, rest: seq<byte>, e: nat)
    requires Behind(pre1, r1, pre2, r2, e) && !r1.halt.Failed? && Clean(r1, data)
    requires Finish(Feed(r1, data + rest)).p.errno.Ok?
    requires data == [] || !r1.halt.Running? ==> (0 < r2.inner <==> 0 < r1.inner)
    ensures !Feed(r1, data).halt.Failed? && RunInv(Feed(r1, data))
    ensures Finish(Feed(r2, data)).p.errno.Ok? <==> Room(r1, e, data) && EndFits(Feed(r1, data), Carried(r1, e, data))
    ensures Room(r1, e, data) ==> Behind(pre1, Feed(r1, data), pre2, Feed(r2, data), Carried(r1, e, data))
    ensures Room(r1, e, data) ==> (0 < Feed(r2, data).inner <==> 0 < Feed(r1, data).inner)
    decreases |data|
  {
    hide Step, Finish, RunInv, CleanByte, Trace, Core, Resets, Allows;
    if data == [] || !r1.halt.Running? {
      HaltedFeed(r1, data);
      HaltedFeed(r2, data);
      FeedNothing(r1);
      FeedNothing(r2);
      EndBehind(pre1, r1, pre2, r2, e);
    } else {
      assert (data + rest)[0] == data[0] && (data + rest)[1..] == data[1..] + rest;
      var f := if Resets(r1, data[0]) then 0 else e;
      if Allows(r1, e) {
        StepBehind(pre1, r1, pre2, r2, data, rest, e);
        PieceFits(pre1, Step(r1, data[0]), pre2, Step(r2, data[0]), data[1..], rest, f);
      } else {
        NoRoom(pre1, r1, pre2, r2, data, e);
        WholeGoesOn(r1, data, rest);
      }
    }
  }

  lemma WholeGoesOn(r: Run, data: seq<byte>, rest: seq<byte>)
    requires RunInv(r) && !r.halt.Failed? && Finish(Feed(r, data + rest)).p.errno.Ok?
    ensures !Feed(r, data).halt.Failed? && RunInv(Feed(r, data))
  {
    hide Step, Finish, RunInv, Feed;
    FeedConcat(r, data, rest);
    NotFailedGood(r);
    FeedGood(r, data);
    FailedStaysFailed(Feed(r, data), rest);
  }

  lemma NotFailedGood(r: Run)
    requires RunInv(r) && !r.halt.Failed?
    ensures Good(r)
  {
    hide Inv, MarkFits;
  }

  lemma NoRoom(pre1: seq<Call>, r1: Run, pre2: seq<Call>, r2: Run, data: seq<byte>, e: nat)
    requires Behind(pre1, r1, pre2, r2, e) && r1.halt.Running? && data != [] && !Allows(r1, e)
    ensures !Finish(Feed(r2, data)).p.errno.Ok?
  {
    hide Step, Finish, RunInv, Trace, Core, Resets;
    CoreState(r1);
    CoreState(r2);
    StepAccounted(r2, data[0]);
    StepGood(r2, data[0]);
    FailedStaysFailed(Step(r2, data[0]), data[1..]);
    if !Step(r2, data[0]).halt.Failed? {
      LoopRuns(Step(r2, data[0]));
      DoomedFails(Step(r2, data[0]), data[1..]);
    }
  }

  lemma LoopRuns(r: Run)
    requires RunInv(r) && !r.halt.Failed? && 0 < r.inner
    ensures r.halt.Running?
  {
    hide Inv, MarkFits;
  }

  /** Ending the call. */
  lemma EndBehind(pre1: seq<Call>, r1: Run, pre2: seq<Call>, r2: Run, e: nat)
    requires Behind(pre1, r1, pre2, r2, e) && !r1.halt.Failed? && (0 < r2.inner <==> 0 < r1.inner)
    ensures Finish(r2).p.errno.Ok? <==> EndFits(r1, e)
  {
    hide Name, NameState, ValueState, MarkFits, Trace, Sound;
    OkRun(r2);
  }

  // Whole inputs

  /** With e bytes too many in the counter at first, and one more after each piece that
      ends inside a name or a value until the next reset, the pieces stay within the limit. */
  predicate CutFits(r: Run, e: nat, pieces: seq<seq<byte>>)
    decreases |pieces|
  {
    pieces == [] ||
    (var s, e1 := Feed(r, pieces[0]), Carried(r, e, pieces[0]);
     Room(r, e, pieces[0]) && EndFits(s, e1) && CutFits(s, AtEnd(s, e1), pieces[1..]))
  }

  /** The counter a call leaves. */
  lemma HandoverCharge(r: Run)
    requires RunInv(r) && r.halt.Running? && Finish(r).p.errno.Ok?
    ensures Charge(Begin(Finish(r).p)) == Charge(r) + (if 0 < r.inner then 1 else 0)
  {
    hide Name, NameState, ValueState, MarkFits, Sound;
  }

  lemma {:induction false} PiecesFit(pre1: seq<Call>, r1: Run, pre2: seq<Call>, p: Parser, pieces: seq<seq<byte>>, e: nat)
    requires r1.halt.Running? && Inv(p) && Behind(pre1, r1, pre2, Begin(p), e)
    requires forall i :: 0 <= i < |pieces| ==> pieces[i] != []
    requires Clean(r1, Concat(pieces))
    requires Finish(Feed(r1, Concat(pieces))).p.errno.Ok?
    requires Feed(r1, Concat(pieces)).consumed == r1.consumed + |Concat(pieces)|
    ensures ExecuteAll(p, pieces).p.errno.Ok? <==> CutFits(r1, e, pieces)
    decreases |pieces|
  {
    hide Step, Finish, RunInv, Trace, Core, Begin, Inv, Join, JoinAll, Feed, Clean, Room, Carried, EndFits, Charge, Same;
    InvOk(p);
    if pieces != [] {
      var d, others := pieces[0], pieces[1..];
      var rest := Concat(others);
      BeginRuns(p);
      CleanPrefix(r1, d, rest);
      FeedConcat(r1, d, rest);
      PieceFits(pre1, r1, pre2, Begin(p), d, rest, e);
      var s1, s2, e1 := Feed(r1, d), Feed(Begin(p), d), Carried(r1, e, d);
      assert Execute(p, d).p == Finish(s2).p;
      ErrnoSticks(Execute(p, d).p, others);
      if Room(r1, e, d) && EndFits(s1, e1) && others != [] {
        assert rest != [] by { assert others[0] == pieces[1]; }
        Consumption(r1, d);
        HaltedFeed(s1, rest);
        SameHalt(pre1, s1, pre2, s2);
        Handover(pre2, s2);
        HandoverCharge(s2);
        var q := Finish(s2).p;
        SameTrans(pre1, s1, pre2, s2, JoinAll(pre2, Finish(s2).calls), Begin(q));
        PiecesFit(pre1, s1, JoinAll(pre2, Finish(s2).calls), q, others, AtEnd(s1, e1));
      }
    }
  }

  lemma SameHalt(pre1: seq<Call>, r1: Run, pre2: seq<Call>, r2: Run)
    requires Same(pre1, r1, pre2, r2)
    ensures r1.halt == r2.halt
  {
  }

  /** A run that goes on has consumed what it was fed, and never more. */
  lemma {:induction false} Consumption(r: Run, data: seq<byte>)
    ensures Feed(r, data).consumed <= r.consumed + |data|
    ensures Feed(r, data).halt.Running? ==> Feed(r, data).consumed == r.consumed + |data|
    decreases |data|
  {
    hide Step;
    if data != [] && r.halt.Running? {
      StepCounts(r, data[0]);
      Consumption(Step(r, data[0]), data[1..]);
    }
  }

  lemma BeginBehind(p: Parser)
    requires Inv(p)
    ensures Behind([], Begin(p), [], Begin(p), 0) && Begin(p).halt.Running?
  {
    hide Inv, Trace, Core;
    BeginGood(p);
  }

  /** Exactly the cuts that fit. Take an input that one call accepts whole, clean and to
      its last byte. Fed in pieces, it is accepted again exactly when the pieces stay
      within the header limit, a piece that ends inside a name or a value counting as
      one byte more; and then nothing but the byte counter differs. Otherwise the parser
      reports HEADER_OVERFLOW. */
  lemma CutExactly(p: Parser, pieces: seq<seq<byte>>)
    requires Inv(p)
    requires pieces != [] && forall i :: 0 <= i < |pieces| ==> pieces[i] != []
    requires Execute(p, Concat(pieces)).p.errno.Ok?
    requires Execute(p, Concat(pieces)).consumed == |Concat(pieces)|
    requires Clean(Begin(p), Concat(pieces))
    ensures
      var whole, all := Execute(p, Concat(pieces)), ExecuteAll(p, pieces);
      && (all.p.errno.Ok? <==> CutFits(Begin(p), 0, pieces))
      && (!all.p.errno.Ok? <==> all.p.errno.HeaderOverflow?)
      && (all.p.errno.Ok? ==>
            all.p.(nread := whole.p.nread) == whole.p && Merge(all.calls) == Merge(whole.calls) && all.consumed == whole.consumed)
  {
    hide Finish, Begin, Inv, Feed, Clean, ExecuteAll, CutFits, Merge, Behind;
    InvOk(p);
    BeginBehind(p);
    assert pieces[0] <= Concat(pieces);
    var r := Feed(Begin(p), Concat(pieces));
    FinishKeepsCount(r);
    BeginRuns(p);
    PiecesFit([], Begin(p), [], p, pieces, 0);
    if !ExecuteAll(p, pieces).p.errno.HeaderOverflow? { CutIndependence(p, pieces); }
  }

  // A condition on the header bytes and the number of cuts

  /** The pieces that end inside a header name or value. */
  function InnerCuts(r: Run, pieces: seq<seq<byte>>): nat
    decreases |pieces|
  {
    if pieces == [] then 0
    else var s := Feed(r, pieces[0]); (if 0 < s.inner then 1 else 0) + InnerCuts(s, pieces[1..])
  }

  /** Every header byte, counted from the last reset, leaves n bytes of the limit unused.
      Bytes of bodies and chunks are not counted. */
  predicate HeadersWithin(r: Run, data: seq<byte>, n: nat)
    decreases |data|
  {
    data == [] || !r.halt.Running? || (Allows(r, n) && HeadersWithin(Step(r, data[0]), data[1..], n))
  }

  lemma {:induction false} HeadersSplit(r: Run, a: seq<byte>, b: seq<byte>, n: nat)
    requires HeadersWithin(r, a + b, n)
    ensures HeadersWithin(r, a, n) && HeadersWithin(Feed(r, a), b, n)
    decreases |a|
  {
    hide Step, Allows;
    if a == [] {
      assert a + b == b;
    } else if r.halt.Running? {
      assert (a + b)[0] == a[0] && (a + b)[1..] == a[1..] + b;
      HeadersSplit(Step(r, a[0]), a[1..], b, n);
    }
  }

  /** What the headers leave unused is room for that many bytes too many. */
  lemma {:induction false} WithinRoom(r: Run, data: seq<byte>, e: nat, n: nat)
    requires RunInv(r) && !Feed(r, data).halt.Failed? && HeadersWithin(r, data, n) && e <= n
    requires Charge(r) + e <= HTTP_MAX_HEADER_SIZE
    requires 0 < r.inner && data == [] ==> Charge(r) + n <= HTTP_MAX_HEADER_SIZE
    ensures Room(r, e, data) && Carried(r, e, data) <= e
    ensures var s := Feed(r, data);
      && Charge(s) + Carried(r, e, data) <= HTTP_MAX_HEADER_SIZE
      && (data != [] && r.halt.Running? && 0 < s.inner ==> Charge(s) + n <= HTTP_MAX_HEADER_SIZE)
    decreases |data|
  {
    hide Step, RunInv, Resets;
    if data != [] && r.halt.Running? {
      var q, f := Step(r, data[0]), if Resets(r, data[0]) then 0 else e;
      StepGood(r, data[0]);
      HaltedFeed(q, data[1..]);
      StepAccounted(r, data[0]);
      assert !q.halt.Failed?;
      InnerCounted(r);
      InnerCounted(q);
      LoopIsHeader(r);
      WithinRoom(q, data[1..], f, n);
      HaltedFeed(q, data[1..]);
      if data[1..] == [] { FeedNothing(q); }
    }
  }

  lemma LoopIsHeader(r: Run)
    ensures !OutsideLoops(r.p.state) ==> ParsingHeader(r.p.state)
  {
  }

  lemma InnerCounted(r: Run)
    requires RunInv(r)
    ensures 0 < r.inner ==> !OutsideLoops(r.p.state)
  {
    hide Inv, MarkFits;
  }

  lemma {:induction false} WithinFits(r: Run, e: nat, pieces: seq<seq<byte>>, n: nat)
    requires RunInv(r) && r.halt.Running? && Charge(r) + e <= HTTP_MAX_HEADER_SIZE
    requires forall i :: 0 <= i < |pieces| ==> pieces[i] != []
    requires !Feed(r, Concat(pieces)).halt.Failed? && Feed(r, Concat(pieces)).consumed == r.consumed + |Concat(pieces)|
    requires HeadersWithin(r, Concat(pieces), n) && e + InnerCuts(r, pieces) <= n
    ensures CutFits(r, e, pieces)
    decreases |pieces|
  {
    hide Step, RunInv, Feed, HeadersWithin, Room, Carried, Charge;
    if pieces != [] {
      var d, rest := pieces[0], Concat(pieces[1..]);
      FeedConcat(r, d, rest);
      var s := Feed(r, d);
      Consumption(r, d);
      HaltedFeed(s, rest);
      NotFailedGood(r);
      FeedGood(r, d);
      HeadersSplit(r, d, rest, n);
      WithinRoom(r, d, e, n);
      assert pieces[1..] != [] ==> rest != [] by { if pieces[1..] != [] { assert pieces[1..][0] == pieces[1]; } }
      if pieces[1..] != [] {
        Consumption(r, d);
        WithinFits(s, AtEnd(s, Carried(r, e, d)), pieces[1..], n);
      }
    }
  }

  /** Cut-independence with a condition on the whole input: when its header bytes, counted
      from reset to reset, leave as much of the limit as there are cuts inside a name or a
      value, nothing overflows. Bodies may be of any size. */
  lemma CutIndependenceWithinLimit(p: Parser, pieces: seq<seq<byte>>)
    requires Inv(p)
    requires pieces != [] && forall i :: 0 <= i < |pieces| ==> pieces[i] != []
    requires Execute(p, Concat(pieces)).p.errno.Ok?
    requires Execute(p, Concat(pieces)).consumed == |Concat(pieces)|
    requires Clean(Begin(p), Concat(pieces))
    requires HeadersWithin(Begin(p), Concat(pieces), InnerCuts(Begin(p), pieces))
    ensures
      var whole, all := Execute(p, Concat(pieces)), ExecuteAll(p, pieces);
      && all.p.(nread := whole.p.nread) == whole.p
      && Merge(all.calls) == Merge(whole.calls)
      && all.consumed == whole.consumed
  {
    hide ExecuteAll, Clean, Inv, Begin, Feed, Finish, HeadersWithin, CutFits, RunInv, InnerCuts;
    InvOk(p);
    assert pieces[0] <= Concat(pieces);
    var r := Feed(Begin(p), Concat(pieces));
    FinishKeepsCount(r);
    FinishFailed(r);
    BeginCharge(p);
    NotFailedOk(p, Concat(pieces));
    WithinFits(Begin(p), 0, pieces, InnerCuts(Begin(p), pieces));
    CutExactly(p, pieces);
  }

  lemma BeginCharge(p: Parser)
    requires Inv(p)
    ensures RunInv(Begin(p)) && Begin(p).halt.Running? && Begin(p).consumed == 0
    ensures Charge(Begin(p)) <= HTTP_MAX_HEADER_SIZE
  {
    hide Name, NameState, ValueState;
    BeginGood(p);
  }

  lemma NotFailedOk(p: Parser, data: seq<byte>)
    requires Inv(p) && Finish(Feed(Begin(p), data)).p.errno.Ok?
    ensures !Feed(Begin(p), data).halt.Failed?
  {
    hide Feed, Inv, RunInv;
    BeginGood(p);
    FeedGood(Begin(p), data);
    FinishFailed(Feed(Begin(p), data));
  }

  // Some cuts do overflow

  /** What one byte outside the loops leaves, the callbacks aside. */
  lemma OnByte(r: Run, c: byte)
    requires RunInv(r) && r.halt.Running? && OutsideLoops(r.p.state) && Allows(r, 0)
    requires !Switch(Core(r), c).halt.Failed?
    ensures var act := Switch(Core(r), c); var q := Step(r, c);
      && RunInv(q) && q.halt == act.halt && Core(q) == act.p.(nread := 0)
      && Charge(q) == if act.reset then 0 else if ParsingHeader(r.p.state) then Charge(r) + 1 else Charge(r)
  {
    hide Switch, Step, RunInv;
    AtRest(r);
    AllowsReach(r);
    StepAccounted(r, c);
    StepGood(r, c);
    SwitchStep([], r, c);
  }

  const LETTER_A: byte := 97

  predicate Letters(v: seq<byte>) { forall i :: 0 <= i < |v| ==> v[i] == LETTER_A }

  /** The run is inside a value of no interest, after the bytes of `charge`. */
  predicate InGeneral(r: Run, charge: nat) {
    RunInv(r) && r.halt.Running? && r.p.state.Value? && Core(r).headerState.HGeneral? && Charge(r) == charge
  }

  lemma GeneralByte(r: Run, charge: nat)
    requires InGeneral(r, charge) && charge < HTTP_MAX_HEADER_SIZE
    ensures InGeneral(Step(r, LETTER_A), charge + 1) && Core(Step(r, LETTER_A)) == Core(r)
    ensures 0 < Step(r, LETTER_A).inner
  {
    hide Step, RunInv;
    AllowsReach(r);
    StepAccounted(r, LETTER_A);
    StepGood(r, LETTER_A);
    ValueChar([], r, LETTER_A);
    CoreState(Step(r, LETTER_A));
  }

  lemma {:induction false} GeneralRun(r: Run, v: seq<byte>, charge: nat, e: nat)
    requires InGeneral(r, charge) && Letters(v) && charge + |v| <= HTTP_MAX_HEADER_SIZE
    ensures InGeneral(Feed(r, v), charge + |v|) && Core(Feed(r, v)) == Core(r) && Carried(r, e, v) == e
    ensures v != [] ==> 0 < Feed(r, v).inner
    ensures Clean(r, v)
    decreases |v|
  {
    hide Step, RunInv, Core;
    if v != [] {
      GeneralByte(r, charge);
      GeneralRun(Step(r, LETTER_A), v[1..], charge + 1, e);
    }
  }

  /** The request line and the header name. */
  const PREFIX: seq<byte> := [71, 69, 84, 32, 47, 10, 88, 58]

  const BeforeValue: Parser :=
    InitialParser.(state := DiscardWs, contentLength := ULLONG_MAX, verb := GET, minor := 9)

  /** Fed this text the run is in these fields, so many bytes charged. */
  predicate Arrives(r: Run, text: seq<byte>, p: Parser, charge: nat) {
    var q := Feed(r, text);
    RunInv(q) && q.halt.Running? && Core(q) == p && Charge(q) == charge && Clean(r, text)
  }

  lemma {:induction false} CleanSnoc(r: Run, text: seq<byte>, c: byte)
    requires Clean(r, text) && (Feed(r, text).halt.Running? ==> CleanByte(Feed(r, text).p, c))
    ensures Clean(r, text + [c])
    decreases |text|
  {
    hide Step, CleanByte;
    if text == [] {
      assert (text + [c])[0] == c;
      FeedNothing(r);
    } else if r.halt.Running? {
      assert (text + [c])[0] == text[0] && (text + [c])[1..] == text[1..] + [c];
      CleanSnoc(Step(r, text[0]), text[1..], c);
    }
  }

  /** One byte more outside the loops. */
  lemma Onwards(r: Run, text: seq<byte>, p: Parser, charge: nat, c: byte)
    requires Arrives(r, text, p, charge) && OutsideLoops(p.state) && ParsingHeader(p.state)
    requires charge < HTTP_MAX_HEADER_SIZE
    requires var act := Switch(p, c); act.halt.Running? && !act.reset
    ensures Arrives(r, text + [c], Switch(p, c).p.(nread := 0), charge + 1)
  {
    hide Step, RunInv, Feed, Clean, Switch, Core, ParsingHeader;
    var q := Feed(r, text);
    CoreState(q);
    OnByte(q, c);
    assert (text + [c])[..|text|] == text;
    FeedSnoc(r, text + [c]);
    CleanSnoc(r, text, c);
  }

  /** The fields after each byte of the prefix but the last. */
  function After(i: nat): Parser {
    var g := InitialParser.(contentLength := ULLONG_MAX, verb := GET);
    if i == 0 then InitialParser
    else if i <= 3 then g.(state := ReqMethod, index := i)
    else if i == 4 then g.(state := SpacesBeforeUrl, index := 4)
    else if i == 5 then g.(state := Path, index := 4)
    else if i == 6 then g.(state := FieldStart, index := 4, minor := 9)
    else g.(state := Field, index := 0, minor := 9)
  }

  /** A byte takes some fields to others, outside the loops of the headers. */
  predicate Leads(p: Parser, c: byte, q: Parser) {
    && OutsideLoops(p.state) && ParsingHeader(p.state) && q.nread == 0
    && var act := Switch(p, c); act.halt.Running? && !act.reset && act.p == q
  }

  lemma MethodLeads(i: nat)
    requires i < 4
    ensures Leads(After(i), PREFIX[i], After(i + 1))
  {
  }

  lemma UrlLeads()
    ensures Leads(After(4), PREFIX[4], After(5))
  {
  }

  lemma LineLeads()
    ensures Leads(After(5), PREFIX[5], After(6))
  {
  }

  lemma NameLeads()
    ensures Leads(After(6), PREFIX[6], After(7))
  {
  }

  lemma {:induction false} Along(r: Run, i: nat)
    requires i <= 7 && r == Begin(InitialParser)
    ensures Arrives(r, PREFIX[..i], After(i), i)
    decreases i
  {
    hide Arrives, After, Begin;
    if i == 0 {
      Started(r);
      assert After(0) == InitialParser by { AtFirst(); }
      assert PREFIX[..0] == [];
    } else {
      Along(r, i - 1);
      AlongNext(r, i - 1);
    }
  }

  lemma AlongNext(r: Run, i: nat)
    requires i < 7 && Arrives(r, PREFIX[..i], After(i), i)
    ensures Arrives(r, PREFIX[..i + 1], After(i + 1), i + 1)
  {
    hide Arrives, After, Leads, PREFIX;
    assert |PREFIX| == 8 by { PrefixSize(); }
    PrefixLeads(i);
    AlongOne(r, PREFIX[..i], After(i), i, PREFIX[i], After(i + 1));
    assert PREFIX[..i] + [PREFIX[i]] == PREFIX[..i + 1];
  }

  lemma PrefixLeads(i: nat)
    requires i < 7
    ensures Leads(After(i), PREFIX[i], After(i + 1))
  {
    hide After, Leads;
    if i < 4 { MethodLeads(i); } else if i == 4 { UrlLeads(); } else if i == 5 { LineLeads(); } else { NameLeads(); }
  }

  lemma AtFirst()
    ensures After(0) == InitialParser
  {
  }

  lemma PrefixSize()
    ensures |PREFIX| == 8
  {
  }

  lemma AlongOne(r: Run, text: seq<byte>, p: Parser, charge: nat, c: byte, q: Parser)
    requires Arrives(r, text, p, charge) && Leads(p, c, q) && charge < HTTP_MAX_HEADER_SIZE
    ensures Arrives(r, text + [c], q, charge + 1)
  {
    hide Arrives, Switch;
    Onwards(r, text, p, charge, c);
  }

  lemma PrefixRun(p: Parser)
    requires p == InitialParser
    ensures Arrives(Begin(p), PREFIX, BeforeValue, 8)
  {
    hide Arrives, Begin;
    Along(Begin(p), 7);
    NameEnds(Begin(p), PREFIX[..7], After(7), 7);
    assert PREFIX[..7] + [58] == PREFIX;
  }

  lemma NameEnds(r: Run, text: seq<byte>, p: Parser, charge: nat)
    requires Arrives(r, text, p, charge) && p.state.Field? && charge < HTTP_MAX_HEADER_SIZE
    ensures Arrives(r, text + [58], p.(state := DiscardWs), charge + 1)
  {
    hide Step, RunInv, Feed, Clean, Switch, Core;
    var q := Feed(r, text);
    CoreState(q);
    StepAccounted(q, 58);
    StepGood(q, 58);
    AllowsReach(q);
    FieldEnd([], q, 58);
    CoreState(Step(q, 58));
    assert (text + [58])[..|text|] == text;
    FeedSnoc(r, text + [58]);
    CleanSnoc(r, text, 58);
  }

  lemma Started(r: Run)
    requires r == Begin(InitialParser)
    ensures Arrives(r, [], InitialParser, 0)
  {
    hide Step;
    NameLonger(DELETE);
    BeginGood(InitialParser);
    FeedNothing(r);
  }

  /** The letters of the value: none of them is refused, and each is charged. */
  lemma ValueRun(r: Run, text: seq<byte>, v: seq<byte>)
    requires Arrives(r, text, BeforeValue, 8) && Letters(v) && |v| >= 1 && 8 + |v| <= HTTP_MAX_HEADER_SIZE
    ensures var q := Feed(r, text + v);
      && InGeneral(q, 8 + |v|) && Core(q) == BeforeValue.(state := Value) && Clean(r, text + v)
      && (|v| >= 2 ==> 0 < q.inner)
  {
    hide Step, RunInv, Feed, Clean, Core, Switch;
    LetterLeads();
    Onwards(r, text, BeforeValue, 8, LETTER_A);
    var q := Feed(r, text + [LETTER_A]);
    assert text + v == (text + [LETTER_A]) + v[1..];
    CoreState(q);
    GeneralRun(q, v[1..], 9, 0);
    FeedConcat(r, text + [LETTER_A], v[1..]);
    CleanJoin(r, text + [LETTER_A], v[1..]);
  }

  lemma LetterLeads()
    ensures Switch(BeforeValue, LETTER_A) == Go(BeforeValue.(state := Value)).(mark := Marking(HeaderValue))
  {
  }

  lemma {:induction false} CleanJoin(r: Run, a: seq<byte>, b: seq<byte>)
    requires Clean(r, a) && Clean(Feed(r, a), b)
    ensures Clean(r, a + b)
    decreases |a|
  {
    hide Step, CleanByte;
    if a == [] {
      assert a + b == b;
      FeedNothing(r);
    } else if r.halt.Running? {
      assert (a + b)[0] == a[0] && (a + b)[1..] == a[1..] + b;
      CleanJoin(Step(r, a[0]), a[1..], b);
    }
  }

  /** The headers end: a bare LF after the value, and another. */
  lemma Suffix(r: Run, charge: nat)
    requires InGeneral(r, charge) && Core(r) == BeforeValue.(state := Value) && charge + 2 <= HTTP_MAX_HEADER_SIZE
    ensures var q := Step(r, LF);
      && RunInv(q) && q.halt.Running? && q.p.state.ValueLws? && Charge(q) == charge + 1
      && RunInv(Step(q, LF)) && Step(q, LF).halt.Running? && Step(q, LF).p.state.Dead?
  {
    hide Step, RunInv, Switch;
    AllowsReach(r);
    StepAccounted(r, LF);
    StepGood(r, LF);
    ValueEnd([], r, LF);
    var q := Step(r, LF);
    CoreState(q);
    assert Core(q) == BeforeValue.(state := ValueLws);
    BlankLine();
    OnByte(q, LF);
    CoreState(Step(q, LF));
  }

  lemma BlankLine()
    ensures var act := Switch(BeforeValue.(state := ValueLws), LF); act.halt.Running? && act.p.state.Dead?
  {
  }

  /** A request of three lines, the value as long as the counter has room for. */
  function Request(v: seq<byte>): seq<byte> { PREFIX + v + [LF] + [LF] }

  lemma RequestRuns(p: Parser, v: seq<byte>)
    requires p == InitialParser && Letters(v) && |v| == HTTP_MAX_HEADER_SIZE - 10
    ensures Feed(Begin(p), Request(v)).halt.Running? && RunInv(Feed(Begin(p), Request(v)))
    ensures OutsideLoops(Feed(Begin(p), Request(v)).p.state)
    ensures Clean(Begin(p), Request(v))
    ensures var q := Feed(Begin(p), PREFIX + v + [LF]);
      q.halt.Running? && Charge(q) == HTTP_MAX_HEADER_SIZE - 1 && ParsingHeader(q.p.state)
  {
    hide Step, RunInv, Feed, Clean, Core, Arrives, InGeneral;
    var r, a, b := Begin(p), PREFIX + v, PREFIX + v + [LF];
    PrefixRun(p);
    ValueRun(r, PREFIX, v);
    GeneralRuns(Feed(r, a), 8 + |v|);
    Suffix(Feed(r, a), 8 + |v|);
    assert b[..|a|] == a && Request(v)[..|b|] == b;
    FeedSnoc(r, b);
    FeedSnoc(r, Request(v));
    CleanSnoc(r, a, LF);
    CleanSnoc(r, b, LF);
  }

  lemma GeneralRuns(r: Run, charge: nat)
    requires InGeneral(r, charge)
    ensures r.halt.Running? && RunInv(r)
  {
  }

  /** Where the room ends: with one byte too many, a full counter does not allow the last byte. */
  lemma {:induction false} RoomSnoc(r: Run, e: nat, text: seq<byte>, c: byte)
    requires Room(r, e, text + [c]) && Feed(r, text).halt.Running?
    ensures Allows(Feed(r, text), Carried(r, e, text))
    decreases |text|
  {
    hide Step, Allows, Resets;
    if text == [] {
      assert (text + [c])[0] == c;
      FeedNothing(r);
    } else {
      HaltedFeed(r, text);
      assert (text + [c])[0] == text[0] && (text + [c])[1..] == text[1..] + [c];
      RoomSnoc(Step(r, text[0]), if Resets(r, text[0]) then 0 else e, text[1..], c);
    }
  }

  lemma {:induction false} CarriedConcat(r: Run, e: nat, a: seq<byte>, b: seq<byte>)
    ensures Carried(r, e, a + b) == Carried(Feed(r, a), Carried(r, e, a), b)
    decreases |a|
  {
    hide Step, Resets;
    if a == [] {
      assert a + b == b;
      FeedNothing(r);
    } else if r.halt.Running? {
      assert (a + b)[0] == a[0] && (a + b)[1..] == a[1..] + b;
      CarriedConcat(Step(r, a[0]), if Resets(r, a[0]) then 0 else e, a[1..], b);
    }
  }

  /** From inside the value to its end nothing resets the counter. */
  lemma CarriedOut(r: Run, v: seq<byte>, charge: nat, e: nat)
    requires InGeneral(r, charge) && Letters(v) && charge + |v| <= HTTP_MAX_HEADER_SIZE
    ensures Carried(r, e, v + [LF]) == e
  {
    hide Step, RunInv, Core;
    GeneralRun(r, v, charge, e);
    CarriedConcat(r, e, v, [LF]);
    var q := Feed(r, v);
    CarriedInside(q, e, LF);
  }

  lemma CarriedInside(r: Run, e: nat, c: byte)
    requires !OutsideLoops(r.p.state)
    ensures Carried(r, e, [c]) == e
  {
    hide Step, Switch;
    assert [c][1..] == [];
  }

  /** The limit is real. This request fills the counter to its last byte and is accepted
      whole; cut anywhere inside the value, it overflows. */
  lemma FullHeaderOverflows(v: seq<byte>, k: nat)
    requires Letters(v) && |v| == HTTP_MAX_HEADER_SIZE - 10 && 2 <= k <= |v|
    ensures Execute(InitialParser, Request(v)).p.errno.Ok?
    ensures Execute(InitialParser, Request(v)).consumed == |Request(v)|
    ensures ExecuteAll(InitialParser, [PREFIX + v[..k], v[k..] + [LF] + [LF]]).p.errno.HeaderOverflow?
  {
    hide Step, RunInv, Feed, Clean, Core, Arrives, InGeneral, Begin, Finish, Carried, Room, Inv, Charge, ExecuteAll;
    var p := InitialParser;
    var a, b := PREFIX + v[..k], v[k..] + [LF] + [LF];
    RequestRuns(p, v);
    RequestWhole(v, k);
    InitialInv();
    var r, q := Begin(p), Feed(Begin(p), Request(v));
    RestInner(q);
    Consumption(r, Request(v));
    EndsWell(q);
    BeginRuns(p);
    CutExactly(p, [a, b]);
    if CutFits(r, 0, [a, b]) { NotFits(v, k); }
  }

  lemma InitialInv()
    ensures Inv(InitialParser)
  {
    NameLonger(DELETE);
  }

  lemma EndsWell(r: Run)
    requires RunInv(r) && r.halt.Running? && r.inner == 0
    ensures Finish(r).p.errno.Ok? && Finish(r).consumed == r.consumed
  {
    hide Name, NameState, ValueState, MarkFits;
  }

  lemma RequestWhole(v: seq<byte>, k: nat)
    requires k <= |v|
    ensures var a, b := PREFIX + v[..k], v[k..] + [LF] + [LF];
      Concat([a, b]) == Request(v) && a != [] && b != []
  {
    var a, b := PREFIX + v[..k], v[k..] + [LF] + [LF];
    var one: seq<seq<byte>> := [b];
    assert [a, b][1..] == one && one[1..] == [];
    assert Concat(one) == b + [] == b;
    assert v == v[..k] + v[k..];
  }

  lemma NotFits(v: seq<byte>, k: nat)
    requires Letters(v) && |v| == HTTP_MAX_HEADER_SIZE - 10 && 2 <= k <= |v|
    ensures !CutFits(Begin(InitialParser), 0, [PREFIX + v[..k], v[k..] + [LF] + [LF]])
  {
    hide Step, RunInv, Feed, Clean, Core, Arrives, Begin, Carried, Room, Inv, ParsingHeader;
    var p := InitialParser;
    var r, a, b := Begin(p), PREFIX + v[..k], v[k..] + [LF] + [LF];
    PrefixRun(p);
    ValueRun(r, PREFIX, v[..k]);
    RequestRuns(p, v);
    NothingCarried(v, k);
    var s := Feed(r, a);
    var x := v[k..] + [LF];
    CarriedOut(s, v[k..], 8 + k, 1);
    assert a + x == PREFIX + v + [LF] by { assert v == v[..k] + v[k..]; }
    FeedConcat(r, a, x);
    if Room(s, 1, b) {
      RoomSnoc(s, 1, x, LF);
      assert false;
    }
    assert [a, b][1..] == [b];
  }

  /** Before the cut the counter is right. */
  lemma {:induction false} NothingCarried(v: seq<byte>, k: nat)
    requires k <= |v|
    ensures Carried(Begin(InitialParser), 0, PREFIX + v[..k]) == 0
  {
    CarriedZero(Begin(InitialParser), PREFIX + v[..k]);
  }

  lemma {:induction false} CarriedZero(r: Run, data: seq<byte>)
    ensures Carried(r, 0, data) == 0
    decreases |data|
  {
    hide Step, Resets;
    if data != [] && r.halt.Running? { CarriedZero(Step(r, data[0]), data[1..]); }
  }

  // Some accepted inputs are not clean

  /** Bytes a skipped value passes over, the first of which the value loop would refuse. */
  predicate Junk(w: seq<byte>) { w != [] && !IsHeaderChar(w[0]) && forall i :: 0 <= i < |w| ==> w[i] != CR && w[i] != LF }

  /** Inside a value of no interest, and past its second byte: the memchr skip is on. */
  predicate Skipping(r: Run, charge: nat) { InGeneral(r, charge) && 0 < r.skip }

  lemma SkipsOn(r: Run, charge: nat, c: byte)
    requires Skipping(r, charge) && charge < HTTP_MAX_HEADER_SIZE && c != CR && c != LF
    ensures Skipping(Step(r, c), charge + 1) && Core(Step(r, c)) == Core(r)
  {
    hide Inv, MarkFits, Switch, InField, EndValue, InLength, MatchValue, Resets;
    AllowsReach(r);
    StepAccounted(r, c);
    StepGood(r, c);
    InValueNoReset(r, c);
  }

  lemma InValueNoReset(r: Run, c: byte)
    requires r.p.state.Value?
    ensures !Resets(r, c) && ParsingHeader(r.p.state)
  {
    hide Switch;
  }

  lemma SkipStarts(r: Run, charge: nat)
    requires InGeneral(r, charge) && charge < HTTP_MAX_HEADER_SIZE
    ensures Skipping(Step(r, LETTER_A), charge + 1)
  {
    hide Inv, MarkFits, Switch, InField, EndValue, InLength, MatchValue, Resets;
    GeneralByte(r, charge);
  }

  lemma {:induction false} SkipPasses(r: Run, w: seq<byte>, charge: nat)
    requires Skipping(r, charge) && charge + |w| <= HTTP_MAX_HEADER_SIZE
    requires forall i :: 0 <= i < |w| ==> w[i] != CR && w[i] != LF
    ensures InGeneral(Feed(r, w), charge + |w|) && Core(Feed(r, w)) == Core(r)
    decreases |w|
  {
    hide Step, RunInv, Core;
    if w != [] {
      SkipsOn(r, charge, w[0]);
      SkipPasses(Step(r, w[0]), w[1..], charge + 1);
    }
  }

  /** The value so far, two letters or more. */
  lemma LettersSkip(v: seq<byte>)
    requires Letters(v) && |v| >= 2 && 8 + |v| <= HTTP_MAX_HEADER_SIZE
    ensures var q := Feed(Begin(InitialParser), PREFIX + v);
      Skipping(q, 8 + |v|) && Core(q) == BeforeValue.(state := Value)
  {
    hide Step, RunInv, Feed, Clean, Core, Arrives, Begin;
    var r, init := Begin(InitialParser), v[..|v| - 1];
    PrefixRun(InitialParser);
    ValueRun(r, PREFIX, init);
    ValueRun(r, PREFIX, v);
    assert (PREFIX + v)[..|PREFIX + v| - 1] == PREFIX + init && (PREFIX + v)[|PREFIX + v| - 1] == LETTER_A;
    FeedSnoc(r, PREFIX + v);
    SkipStarts(Feed(r, PREFIX + init), 8 + |init|);
  }

  function JunkRequest(v: seq<byte>, w: seq<byte>): seq<byte> { (PREFIX + v) + (w + [LF] + [LF]) }

  lemma JunkAccepted(v: seq<byte>, w: seq<byte>)
    requires Letters(v) && |v| >= 2 && Junk(w) && 10 + |v| + |w| <= HTTP_MAX_HEADER_SIZE
    ensures var q := Feed(Begin(InitialParser), JunkRequest(v, w));
      q.halt.Running? && RunInv(q) && OutsideLoops(q.p.state)
  {
    hide Step, RunInv, Feed, Clean, Core, Arrives, Begin, InGeneral;
    var r, s := Begin(InitialParser), Feed(Begin(InitialParser), PREFIX + v);
    LettersSkip(v);
    SkipPasses(s, w, 8 + |v|);
    var t := Feed(s, w);
    Suffix(t, 8 + |v| + |w|);
    GeneralRuns(t, 8 + |v| + |w|);
    FeedConcat(r, PREFIX + v, w + [LF] + [LF]);
    assert (w + [LF])[..|w|] == w && (w + [LF] + [LF])[..|w| + 1] == w + [LF];
    FeedSnoc(s, w + [LF]);
    FeedSnoc(s, w + [LF] + [LF]);
  }

  lemma JunkUnclean(v: seq<byte>, w: seq<byte>)
    requires Letters(v) && |v| >= 2 && Junk(w) && 10 + |v| + |w| <= HTTP_MAX_HEADER_SIZE
    ensures !Clean(Begin(InitialParser), JunkRequest(v, w))
  {
    hide Step, RunInv, Feed, Clean, Arrives, Begin;
    var r, b := Begin(InitialParser), w + [LF] + [LF];
    LettersSkip(v);
    if Clean(r, JunkRequest(v, w)) {
      CleanPrefix(r, PREFIX + v, b);
      assert b[0] == w[0];
      CleanFirst(Feed(r, PREFIX + v), b);
      assert false;
    }
  }

  lemma CleanFirst(r: Run, data: seq<byte>)
    requires data != [] && r.halt.Running? && Clean(r, data)
    ensures CleanByte(r.p, data[0])
  {
    hide Step;
  }

  lemma JunkFails(p: Parser, c: byte)
    requires p.state.Value? && !p.lenient && p.nread < HTTP_MAX_HEADER_SIZE && c != CR && c != LF && !IsHeaderChar(c)
    ensures var q := Step(Begin(p), c); q.halt.Failed? && q.p.errno.InvalidHeaderToken?
  {
    hide EndValue, InField, MatchValue, InLength, Switch;
  }

  /** The cleanness is real: a value of two letters or more, then a byte the value loop
      refuses, is accepted whole, and fails on that byte when it is cut right before it. */
  lemma UncleanAccepted(v: seq<byte>, w: seq<byte>)
    requires Letters(v) && |v| >= 2 && Junk(w) && 10 + |v| + |w| <= HTTP_MAX_HEADER_SIZE
    ensures Execute(InitialParser, JunkRequest(v, w)).p.errno.Ok?
    ensures Execute(InitialParser, JunkRequest(v, w)).consumed == |JunkRequest(v, w)|
    ensures !Clean(Begin(InitialParser), JunkRequest(v, w))
    ensures ExecuteAll(InitialParser, [PREFIX + v, w + [LF] + [LF]]).p.errno.InvalidHeaderToken?
  {
    hide Step, RunInv, Feed, Clean, Core, Begin, Finish, Charge, Inv;
    var p, a, b := InitialParser, PREFIX + v, w + [LF] + [LF];
    JunkAccepted(v, w);
    JunkUnclean(v, w);
    InitialInv();
    InvOk(p);
    var q := Feed(Begin(p), JunkRequest(v, w));
    RestInner(q);
    BeginRuns(p);
    Consumption(Begin(p), JunkRequest(v, w));
    EndsWell(q);
    JunkCut(v, w);
    assert b[0] == w[0];
  }

  /** The two calls. */
  lemma JunkCut(v: seq<byte>, w: seq<byte>)
    requires Letters(v) && |v| >= 2 && Junk(w) && 10 + |v| + |w| <= HTTP_MAX_HEADER_SIZE
    ensures ExecuteAll(InitialParser, [PREFIX + v, w + [LF] + [LF]]).p.errno.InvalidHeaderToken?
  {
    hide Step, RunInv, Feed, Core, Begin, Finish, Inv;
    var p, a, b := InitialParser, PREFIX + v, w + [LF] + [LF];
    LettersSkip(v);
    var s := Feed(Begin(p), a);
    SecondCall(s, 8 + |v|, b);
    assert Execute(p, a).p == Finish(s).p;
    var one: seq<seq<byte>> := [b];
    assert [a, b][1..] == one && one[1..] == [];
    ErrnoSticks(Execute(Finish(s).p, b).p, []);
  }

  lemma SecondCall(s: Run, charge: nat, b: seq<byte>)
    requires Skipping(s, charge) && Core(s) == BeforeValue.(state := Value) && charge + 2 <= HTTP_MAX_HEADER_SIZE
    requires b != [] && b[0] != CR && b[0] != LF && !IsHeaderChar(b[0])
    ensures Finish(s).p.errno.Ok? && Execute(Finish(s).p, b).p.errno.InvalidHeaderToken?
  {
    hide Step, RunInv, Feed, Begin, Finish, Switch;
    GeneralEnds(s, charge);
    FinishTrace([], s);
    var q := Finish(s).p;
    JunkFails(q, b[0]);
    FailedStaysFailed(Step(Begin(q), b[0]), b[1..]);
    BeginRuns(q);
    FeedFirst(Begin(q), b);
  }

  lemma FeedFirst(r: Run, data: seq<byte>)
    requires r.halt.Running? && data != []
    ensures Feed(r, data) == Feed(Step(r, data[0]), data[1..])
  {
    hide Step;
  }

  lemma GeneralEnds(s: Run, charge: nat)
    requires Skipping(s, charge) && charge + 2 <= HTTP_MAX_HEADER_SIZE
    ensures RunInv(s) && s.halt.Running? && Finish(s).p.errno.Ok? && Finish(s).p.nread < HTTP_MAX_HEADER_SIZE
  {
    hide Name, NameState, ValueState, MarkFits;
  }
}
