/** The request parser recognises exactly the methods it lists. */
module HttpMethod {
  import opened Bytes
  import opened HttpTypes
  import opened HttpMachine
  import opened HttpInvariant
  import opened HttpCut
  import opened HttpMessage

  /** The bytes are the first letters of the name. */
  predicate Begins(text: seq<byte>, name: string) {
    |text| <= |name| && forall i :: 0 <= i < |text| ==> text[i] == name[i] as int
  }

  predicate Spells(text: seq<byte>, name: string) { |text| == |name| && Begins(text, name) }

  /** Changing the method keeps the letters read so far, and fits the new one. */
  lemma RerouteKeepsPrefix(m: Method, i: nat, c: byte)
    requires i <= |Name(m)| && Reroute(m, i, c) != m
    ensures var n := Name(Reroute(m, i, c)); i < |n| && n[..i] == Name(m)[..i] && n[i] as int == c
  {
    hide Name;
    if m.POST? || m.CONNECT? { PostKeepsPrefix(m, i, c); }
    else if m.MKCOL? || m.UNLOCK? { CalendarKeepsPrefix(m, i, c); }
    else { OtherKeepsPrefix(m, i, c); }
  }

  lemma PostKeepsPrefix(m: Method, i: nat, c: byte)
    requires i <= |Name(m)| && Reroute(m, i, c) != m && (m.POST? || m.CONNECT?)
    ensures var n := Name(Reroute(m, i, c)); i < |n| && n[..i] == Name(m)[..i] && n[i] as int == c
  {
    var n := Name(Reroute(m, i, c));
    assert i < |n| && (i == 1 || i == 2);
    forall k | 0 <= k < i ensures n[k] == Name(m)[k] {}
  }

  lemma CalendarKeepsPrefix(m: Method, i: nat, c: byte)
    requires i <= |Name(m)| && Reroute(m, i, c) != m && (m.MKCOL? || m.UNLOCK?)
    ensures var n := Name(Reroute(m, i, c)); i < |n| && n[..i] == Name(m)[..i] && n[i] as int == c
  {
  }

  lemma OtherKeepsPrefix(m: Method, i: nat, c: byte)
    requires i <= |Name(m)| && Reroute(m, i, c) != m && !m.POST? && !m.CONNECT? && !m.MKCOL? && !m.UNLOCK?
    ensures var n := Name(Reroute(m, i, c)); i < |n| && n[..i] == Name(m)[..i] && n[i] as int == c
  {
  }

  lemma SwitchAtMethod(p: Parser, c: byte)
    requires p.state.ReqMethod?
    ensures Switch(p, c) == AtMethod(p, c)
  {
    hide AtStart, AtMethod, AtSpaces, AtUrl, AtHttp, AtNumber, AtChunk, AtBodyIdentity, AtHeader;
  }

  lemma SwitchAtStart(p: Parser, c: byte)
    requires p.state.StartReq?
    ensures Switch(p, c) == AtStart(p, c)
  {
    hide AtStart, AtMethod, AtSpaces, AtUrl, AtHttp, AtNumber, AtChunk, AtBodyIdentity, AtHeader;
  }

  /** A letter the method accepts extends the spelling; a space ends it only at the end of the name. */
  lemma MethodLetter(p: Parser, text: seq<byte>, c: byte)
    requires Sound(p) && p.state.ReqMethod? && |text| == p.index && Begins(text, Name(p.verb))
    ensures var act := AtMethod(p, c);
      !act.halt.Failed? ==>
        if c == SPACE then act.p.state.SpacesBeforeUrl? && act.p.verb == p.verb && Spells(text, Name(p.verb))
        else act.p.state.ReqMethod? && act.p.index == |text| + 1 && Begins(text + [c], Name(act.p.verb)) && !act.reset
  {
    hide Reroute, Name;
    var m := Reroute(p.verb, p.index, c);
    NoSpaceInNames(p.verb);
    NameLonger(p.verb);
    RerouteLonger(p.verb, p.index, c);
    if m != p.verb {
      RerouteKeepsPrefix(p.verb, p.index, c);
      forall i | 0 <= i < |text| ensures text[i] == Name(m)[i] as int {
        assert Name(m)[..p.index][i] == Name(p.verb)[..p.index][i];
      }
    }
    MSearchPrefix();
  }

  /** Method names are made of capital letters and hyphens. */
  lemma NameLetter(m: Method, i: nat)
    requires i < |Name(m)|
    ensures 'A' <= Name(m)[i] <= 'Z' || Name(m)[i] == '-'
  {
    hide Name;
    if IsRerouted(m) { ReroutedLetter(m, i); } else { DirectLetter(m, i); }
  }

  lemma ReroutedLetter(m: Method, i: nat)
    requires i < |Name(m)| && IsRerouted(m)
    ensures 'A' <= Name(m)[i] <= 'Z' || Name(m)[i] == '-'
  {
  }

  lemma DirectLetter(m: Method, i: nat)
    requires i < |Name(m)| && !IsRerouted(m)
    ensures 'A' <= Name(m)[i] <= 'Z' || Name(m)[i] == '-'
  {
  }

  lemma NoSpaceInNames(m: Method)
    ensures forall i :: 0 <= i < |Name(m)| ==> Name(m)[i] as int != 0 && Name(m)[i] as int != 32
    ensures Reroute(m, 0, SPACE) == m
  {
    hide Name;
    forall i | 0 <= i < |Name(m)| ensures Name(m)[i] as int != 0 && Name(m)[i] as int != 32 { NameLetter(m, i); }
  }

  lemma MSearchPrefix()
    ensures |Name(MSEARCH)| > 1 && Name(MSEARCH)[0] == Name(MKCOL)[0] && Name(MSEARCH)[1] == '-'
  {
  }

  lemma FirstLetterBegins(c: byte)
    requires HasMethod(c)
    ensures |Name(FirstMethod(c))| > 0 && Name(FirstMethod(c))[0] as int == c
  {
  }

  /** While a token without spaces is read, the parser spells one of its methods, or fails. */
  lemma {:induction false} TokenRun(p: Parser, text: seq<byte>)
    requires Inv(p) && p.state.StartReq? && p.nread + |text| <= HTTP_MAX_HEADER_SIZE
    requires text != [] && text[0] != CR && text[0] != LF && SPACE !in text
    ensures var q := Feed(Begin(p), text);
      q.halt.Running? ==>
        && RunInv(q) && q.p.state.ReqMethod? && q.p.index == |text| && Begins(text, Name(q.p.verb))
        && q.p.nread == p.nread + |text|
    decreases |text|
  {
    hide Step, RunInv, Feed, Name, Inv, Begins;
    var init, c := text[..|text| - 1], text[|text| - 1];
    FeedSnoc(Begin(p), text);
    BeginGood(p);
    if init == [] {
      FeedNothing(Begin(p));
      assert Begin(p).p == p && Begin(p).halt.Running?;
      TokenFirst(Begin(p), c);
      assert text == [c];
    } else {
      assert SPACE !in init;
      TokenRun(p, init);
      var q := Feed(Begin(p), init);
      if q.halt.Running? {
        assert c in text;
        TokenNext(q, init, c);
        assert init + [c] == text;
      }
    }
  }

  lemma TokenFirst(r: Run, c: byte)
    requires RunInv(r) && r.halt.Running? && r.p.state.StartReq? && r.p.nread < HTTP_MAX_HEADER_SIZE && c != CR && c != LF
    ensures var q := Step(r, c);
      q.halt.Running? ==>
        && RunInv(q) && q.p.state.ReqMethod? && q.p.index == 1 && Begins([c], Name(q.p.verb))
        && q.p.nread == r.p.nread + 1
  {
    hide Step, RunInv, Switch, Name, Inv;
    AtRest(r);
    PlainStep(r, c);
    SwitchAtStart(r.p.(nread := 0), c);
    if HasMethod(c) { FirstLetterBegins(c); }
  }

  lemma TokenNext(r: Run, text: seq<byte>, c: byte)
    requires RunInv(r) && r.halt.Running? && r.p.state.ReqMethod? && r.p.nread < HTTP_MAX_HEADER_SIZE && c != SPACE
    requires r.p.index == |text| && Begins(text, Name(r.p.verb))
    ensures var q := Step(r, c);
      q.halt.Running? ==>
        && RunInv(q) && q.p.state.ReqMethod? && q.p.index == |text| + 1 && Begins(text + [c], Name(q.p.verb))
        && q.p.nread == r.p.nread + 1
  {
    hide Step, RunInv, Switch, Name, Inv, AtMethod, Begins;
    AtRest(r);
    PlainStep(r, c);
    SwitchAtMethod(r.p.(nread := 0), c);
    SoundHere(r);
    MethodLetter(r.p.(nread := 0), text, c);
  }

  lemma SoundHere(r: Run)
    requires RunInv(r) && r.p.state.ReqMethod?
    ensures Sound(r.p.(nread := 0)) && r.p.nread <= HTTP_MAX_HEADER_SIZE
  {
    hide Name, NameState, ValueState, MarkFits;
  }

  // Every listed method is reached

  /** The method the parser holds after i letters of the name of m. */
  function Via(m: Method, i: nat): Method {
    match m
    case PUT => if i < 2 then POST else PUT
    case PATCH => if i < 2 then POST else PATCH
    case PROPFIND => if i < 2 then POST else PROPFIND
    case PROPPATCH => if i < 2 then POST else if i < 5 then PROPFIND else PROPPATCH
    case PURGE => if i < 2 then POST else if i < 3 then PUT else PURGE
    case CHECKOUT => if i < 2 then CONNECT else CHECKOUT
    case COPY => if i < 3 then CONNECT else COPY
    case MOVE => if i < 2 then MKCOL else MOVE
    case MERGE => if i < 2 then MKCOL else MERGE
    case MKACTIVITY => if i < 3 then MKCOL else MKACTIVITY
    case MKCALENDAR => if i < 4 then MKCOL else MKCALENDAR
    case MSEARCH => if i < 2 then MKCOL else MSEARCH
    case SEARCH => if i < 2 then SUBSCRIBE else SEARCH
    case REBIND => if i < 3 then REPORT else REBIND
    case LINK => if i < 2 then LOCK else LINK
    case UNSUBSCRIBE => if i < 3 then UNLOCK else UNSUBSCRIBE
    case UNBIND => if i < 3 then UNLOCK else UNBIND
    case UNLINK => if i < 4 then UNLOCK else UNLINK
    case _ => m
  }

  /** The letter at i is accepted by the method held before it. */
  predicate TakesLetter(m: Method, i: nat) {
    var v, c := Via(m, i), CharAt(Name(m), i);
    if Via(m, i + 1) == v then c == CharAt(Name(v), i)
    else c != CharAt(Name(v), i) && 0 <= c < 256 &&
         if m.MSEARCH? then i == 1 && c == 45 else IsAlpha(c) && Reroute(v, i, c) == Via(m, i + 1)
  }

  lemma ViaPut(i: nat)
    requires 1 <= i < |Name(PUT)|
    ensures TakesLetter(PUT, i)
  {
  }

  lemma ViaPatch(i: nat)
    requires 1 <= i < |Name(PATCH)|
    ensures TakesLetter(PATCH, i)
  {
  }

  lemma ViaPropfind(i: nat)
    requires 1 <= i < |Name(PROPFIND)|
    ensures TakesLetter(PROPFIND, i)
  {
  }

  lemma ViaProppatch(i: nat)
    requires 1 <= i < |Name(PROPPATCH)|
    ensures TakesLetter(PROPPATCH, i)
  {
  }

  lemma ViaPurge(i: nat)
    requires 1 <= i < |Name(PURGE)|
    ensures TakesLetter(PURGE, i)
  {
  }

  lemma ViaCheckout(i: nat)
    requires 1 <= i < |Name(CHECKOUT)|
    ensures TakesLetter(CHECKOUT, i)
  {
  }

  lemma ViaCopy(i: nat)
    requires 1 <= i < |Name(COPY)|
    ensures TakesLetter(COPY, i)
  {
  }

  lemma ViaMove(i: nat)
    requires 1 <= i < |Name(MOVE)|
    ensures TakesLetter(MOVE, i)
  {
  }

  lemma ViaMerge(i: nat)
    requires 1 <= i < |Name(MERGE)|
    ensures TakesLetter(MERGE, i)
  {
  }

  lemma ViaMkActivity(i: nat)
    requires 1 <= i < |Name(MKACTIVITY)|
    ensures TakesLetter(MKACTIVITY, i)
  {
  }

  lemma ViaMkCalendar(i: nat)
    requires 1 <= i < |Name(MKCALENDAR)|
    ensures TakesLetter(MKCALENDAR, i)
  {
    assert |Name(MKCALENDAR)| == 10 && |Name(MKCOL)| == 5;
  }

  lemma ViaMSearch(i: nat)
    requires 1 <= i < |Name(MSEARCH)|
    ensures TakesLetter(MSEARCH, i)
  {
  }

  lemma ViaSearch(i: nat)
    requires 1 <= i < |Name(SEARCH)|
    ensures TakesLetter(SEARCH, i)
  {
  }

  lemma ViaRebind(i: nat)
    requires 1 <= i < |Name(REBIND)|
    ensures TakesLetter(REBIND, i)
  {
  }

  lemma ViaLink(i: nat)
    requires 1 <= i < |Name(LINK)|
    ensures TakesLetter(LINK, i)
  {
  }

  lemma ViaUnsubscribe(i: nat)
    requires 1 <= i < |Name(UNSUBSCRIBE)|
    ensures TakesLetter(UNSUBSCRIBE, i)
  {
  }

  lemma ViaUnbind(i: nat)
    requires 1 <= i < |Name(UNBIND)|
    ensures TakesLetter(UNBIND, i)
  {
  }

  lemma ViaUnlink(i: nat)
    requires 1 <= i < |Name(UNLINK)|
    ensures TakesLetter(UNLINK, i)
  {
    assert |Name(UNLINK)| == 6 && |Name(UNLOCK)| == 6 && (i == 1 || i == 2 || i == 3 || i == 4 || i == 5);
  }

  predicate IsRerouted(m: Method) {
    m.PUT? || m.PATCH? || m.PROPFIND? || m.PROPPATCH? || m.PURGE? || m.CHECKOUT? ||
    m.COPY? || m.MOVE? || m.MERGE? || m.MKACTIVITY? || m.MKCALENDAR? || m.MSEARCH? || m.SEARCH? || m.REBIND? || m.LINK? ||
    m.UNSUBSCRIBE? || m.UNBIND? || m.UNLINK?
  }

  lemma ViaDirect(m: Method, i: nat)
    requires 1 <= i < |Name(m)| && !IsRerouted(m)
    ensures TakesLetter(m, i)
  {
    hide Name, Reroute;
  }

  lemma ViaWorks(m: Method, i: nat)
    requires 1 <= i < |Name(m)|
    ensures TakesLetter(m, i)
  {
    hide Name, Reroute, TakesLetter, CharAt, Via;
    if !IsRerouted(m) { ViaDirect(m, i); }
    else if m.PUT? { ViaPut(i); }
    else if m.PATCH? { ViaPatch(i); }
    else if m.PROPFIND? { ViaPropfind(i); }
    else if m.PROPPATCH? { ViaProppatch(i); }
    else if m.PURGE? { ViaPurge(i); }
    else if m.CHECKOUT? { ViaCheckout(i); }
    else if m.COPY? { ViaCopy(i); }
    else if m.MOVE? { ViaMove(i); }
    else if m.MERGE? { ViaMerge(i); }
    else if m.MKACTIVITY? { ViaMkActivity(i); }
    else if m.MKCALENDAR? { ViaMkCalendar(i); }
    else if m.MSEARCH? { ViaMSearch(i); }
    else if m.SEARCH? { ViaSearch(i); }
    else if m.REBIND? { ViaRebind(i); }
    else if m.LINK? { ViaLink(i); }
    else if m.UNSUBSCRIBE? { ViaUnsubscribe(i); }
    else if m.UNBIND? { ViaUnbind(i); }
    else if m.UNLINK? { ViaUnlink(i); }
  }

  lemma ViaStart(m: Method)
    ensures |Name(m)| > 1 && 0 <= Name(m)[0] as int < 256 && HasMethod(Name(m)[0] as int)
    ensures FirstMethod(Name(m)[0] as int) == Via(m, 1)
  {
  }

  lemma ViaEnd(m: Method)
    ensures Via(m, |Name(m)|) == m
  {
  }

  lemma NameBytes(m: Method)
    ensures forall i :: 0 <= i < |Name(m)| ==> 0 < Name(m)[i] as int < 256
    ensures |Name(m)| > 1 && Name(m)[0] as int != CR && Name(m)[0] as int != LF
  {
    hide Name;
    NameLonger(m);
    NameLetter(m, 0);
    forall i | 0 <= i < |Name(m)| ensures 0 < Name(m)[i] as int < 256 { NameLetter(m, i); }
  }

  lemma AcceptLetter(p: Parser, m: Method, c: byte)
    requires p.state.ReqMethod? && 1 <= p.index < |Name(m)| && p.verb == Via(m, p.index)
    requires c == CharAt(Name(m), p.index) && c != NUL && c != SPACE && p.index < 127
    requires TakesLetter(m, p.index)
    ensures AtMethod(p, c) == Go(p.(index := p.index + 1, verb := Via(m, p.index + 1)))
  {
    hide Name, Reroute;
    if m.MSEARCH? && Via(m, p.index + 1) != p.verb { NoDash(p.verb); }
  }

  lemma NoDash(m: Method)
    ensures Reroute(m, 1, 45) == m
  {
  }

  lemma {:induction false} NameRun(p: Parser, m: Method, text: seq<byte>)
    requires Inv(p) && p.state.StartReq? && p.nread + |text| <= HTTP_MAX_HEADER_SIZE
    requires text != [] && Begins(text, Name(m))
    ensures var q := Feed(Begin(p), text);
      && q.halt.Running? && RunInv(q) && q.p.state.ReqMethod? && q.p.index == |text| && q.p.verb == Via(m, |text|)
      && q.p.nread == p.nread + |text|
    decreases |text|
  {
    hide Step, RunInv, Feed, Name, Inv, TakesLetter, Via;
    var init, c := text[..|text| - 1], text[|text| - 1];
    FeedSnoc(Begin(p), text);
    BeginGood(p);
    if init == [] {
      FeedNothing(Begin(p));
      assert Begin(p).p == p && Begin(p).halt.Running?;
      NameStart(Begin(p), m, c);
    } else {
      NameRun(p, m, init);
      NameNext(Feed(Begin(p), init), m, c);
    }
  }

  lemma NameStart(r: Run, m: Method, c: byte)
    requires RunInv(r) && r.halt.Running? && r.p.state.StartReq? && r.p.nread < HTTP_MAX_HEADER_SIZE
    requires c == CharAt(Name(m), 0)
    ensures var q := Step(r, c);
      && q.halt.Running? && RunInv(q) && q.p.state.ReqMethod? && q.p.index == 1 && q.p.verb == Via(m, 1)
      && q.p.nread == r.p.nread + 1
  {
    hide Step, RunInv, Switch, Name, Inv, Via, FirstMethod;
    NameLonger(m);
    ViaStart(m);
    NameBytes(m);
    NameLetter(m, 0);
    AtRest(r);
    PlainStep(r, c);
    SwitchAtStart(r.p.(nread := 0), c);
  }

  lemma NameNext(r: Run, m: Method, c: byte)
    requires RunInv(r) && r.halt.Running? && r.p.state.ReqMethod? && r.p.nread < HTTP_MAX_HEADER_SIZE
    requires 1 <= r.p.index < |Name(m)| && r.p.verb == Via(m, r.p.index) && c == CharAt(Name(m), r.p.index)
    ensures var q := Step(r, c);
      && q.halt.Running? && RunInv(q) && q.p.state.ReqMethod? && q.p.index == r.p.index + 1
      && q.p.verb == Via(m, r.p.index + 1) && q.p.nread == r.p.nread + 1
  {
    hide Step, RunInv, Switch, Name, Inv, AtMethod, TakesLetter, Via;
    NameLonger(m);
    NoSpaceInNames(m);
    AtRest(r);
    PlainStep(r, c);
    SwitchAtMethod(r.p.(nread := 0), c);
    ViaWorks(m, r.p.index);
    AcceptLetter(r.p.(nread := 0), m, c);
  }

  /** A request's first token, ended by a space, is accepted exactly when it is the
      spelling of a listed method, and then that is the method recorded. */
  lemma MethodToken(p: Parser, text: seq<byte>)
    requires Inv(p) && p.state.StartReq? && p.nread + |text| < HTTP_MAX_HEADER_SIZE
    requires text != [] && text[0] != CR && text[0] != LF && SPACE !in text
    ensures var q := Feed(Begin(p), text + [SPACE]);
      && (q.halt.Running? <==> exists m :: Spells(text, Name(m)))
      && (q.halt.Running? ==> q.p.state.SpacesBeforeUrl? && Spells(text, Name(q.p.verb)))
  {
    hide Step, RunInv, Feed, Switch, Name, Inv, AtMethod, Via;
    var all := text + [SPACE];
    assert all[..|all| - 1] == text;
    FeedSnoc(Begin(p), all);
    TokenRun(p, text);
    var q := Feed(Begin(p), text);
    if q.halt.Running? {
      PlainStep(q, SPACE);
      SwitchAtMethod(q.p.(nread := 0), SPACE);
      SoundHere(q);
      MethodLetter(q.p.(nread := 0), text, SPACE);
      if Spells(text, Name(q.p.verb)) { SpaceEnds(q.p.(nread := 0)); }
    }
    if m :| Spells(text, Name(m)) {
      NameRun(p, m, text);
      ViaEnd(m);
    }
  }

  lemma SpaceEnds(p: Parser)
    requires p.state.ReqMethod? && p.index == |Name(p.verb)|
    ensures !AtMethod(p, SPACE).halt.Failed? && AtMethod(p, SPACE).halt.Running?
  {
    hide Name;
  }
}
