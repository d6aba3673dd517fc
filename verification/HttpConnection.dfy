/** The Connection header: which of its comma-separated words the value matcher hears.
    It hears every word of a well-formed list, and misses some that follow a malformed one. */
module HttpConnection {
  import opened Bytes
  import opened HttpTypes
  import opened HttpMachine
  import opened HttpCut
  import opened HttpHeader

  const COMMA: byte := 44
  const KEEP := "keep-alive"
  const CLOSE := "close"
  const UP := "upgrade"

  /** The text begins with the word, in any case, and has only spaces after it. */
  predicate Says(t: seq<byte>, word: string) {
    |t| >= |word| && Spells(Low(t[..|word|]), word) && forall k :: |word| <= k < |t| ==> t[k] == SPACE
  }

  /** The first letters of the word, but not all. */
  predicate Starts(t: seq<byte>, word: string) { t != [] && |t| < |word| && Prefix(Low(t), word) }

  /** The state of the matcher inside an item that so far reads t. */
  function ItemState(t: seq<byte>): HeaderState {
    if Starts(t, KEEP) then HMatchingKeepAlive else if Says(t, KEEP) then HKeepAlive
    else if Starts(t, CLOSE) then HMatchingClose else if Says(t, CLOSE) then HClose
    else if Starts(t, UP) then HMatchingConnUpgrade else if Says(t, UP) then HConnUpgrade
    else HToken
  }

  predicate Unfinished(t: seq<byte>) { Starts(t, KEEP) || Starts(t, CLOSE) || Starts(t, UP) }

  predicate IsMatching(h: HeaderState) { h.HMatchingKeepAlive? || h.HMatchingClose? || h.HMatchingConnUpgrade? }

  /** The matcher is inside an item that reads t, with these flags. */
  predicate InItem(p: Parser, t: seq<byte>, f: Flags) {
    t != [] && p.state.Value? && p.headerState == ItemState(t) && (IsMatching(p.headerState) ==> p.index == |t| - 1) && p.flags == f
  }

  /** Where a word may go on, and where it is complete, one character on. */
  lemma WordSnoc(t: seq<byte>, c: byte, word: string)
    requires t != [] && |word| > 1 && c != COMMA
    ensures Starts(t + [c], word) <==> Starts(t, word) && Lower(c) == CharAt(word, |t|) && |t| + 1 < |word|
    ensures Says(t + [c], word) <==>
      (Says(t, word) && c == SPACE) || (Starts(t, word) && |t| + 1 == |word| && Lower(c) == CharAt(word, |t|))
  {
    hide Lower;
    var u := t + [c];
    assert Low(u) == Low(t) + [Lower(c)];
    PrefixSnoc(Low(t), Lower(c), word);
    if |t| >= |word| {
      assert u[..|word|] == t[..|word|] && u[|t|] == c && forall k :: |word| <= k < |t| ==> u[k] == t[k];
    }
    if |u| == |word| { assert u[..|word|] == u; }
  }

  /** The words begin with different letters. */
  lemma OneWord(t: seq<byte>)
    requires t != []
    ensures Starts(t, KEEP) || Says(t, KEEP) ==> Lower(t[0]) == 107
    ensures Starts(t, CLOSE) || Says(t, CLOSE) ==> Lower(t[0]) == 99
    ensures Starts(t, UP) || Says(t, UP) ==> Lower(t[0]) == 117
  {
    hide Lower;
    FirstLetterIs(t, KEEP);
    FirstLetterIs(t, CLOSE);
    FirstLetterIs(t, UP);
  }

  lemma FirstLetterIs(t: seq<byte>, word: string)
    requires t != [] && word != ""
    ensures Starts(t, word) || Says(t, word) ==> Lower(t[0]) == word[0] as int
    ensures !(Starts(t, word) && Says(t, word))
  {
    hide Lower;
    if Says(t, word) { assert Low(t[..|word|])[0] == Lower(t[0]); }
  }

  lemma Sizes()
    ensures |KEEP| == 10 && |CLOSE| == 5 && |UP| == 7
  {
  }

  lemma ItemByte(p: Parser, t: seq<byte>, f: Flags, c: byte)
    requires InItem(p, t, f) && c != COMMA
    ensures InItem(ValueCore(p, c), t + [c], f)
  {
    hide Starts, Says, Lower, CharAt;
    Sizes();
    OneWord(t);
    OneWord(t + [c]);
    FirstLetterIs(t, KEEP);
    FirstLetterIs(t, CLOSE);
    FirstLetterIs(t, UP);
    assert (t + [c])[0] == t[0];
    if Lower(t[0]) == 107 { WordSnoc(t, c, KEEP); StartsShort(t, KEEP); }
    else if Lower(t[0]) == 99 { WordSnoc(t, c, CLOSE); StartsShort(t, CLOSE); }
    else if Lower(t[0]) == 117 { WordSnoc(t, c, UP); StartsShort(t, UP); }
  }

  lemma StartsShort(t: seq<byte>, word: string)
    ensures Starts(t, word) ==> 0 < |t| < |word|
  {
  }

  // Characters and items

  function Fold(p: Parser, v: seq<byte>): Parser
    decreases |v|
  {
    if v == [] then p else Fold(ValueCore(p, v[0]), v[1..])
  }

  lemma {:induction false} FoldConcat(p: Parser, a: seq<byte>, b: seq<byte>)
    ensures Fold(p, a + b) == Fold(Fold(p, a), b)
    decreases |a|
  {
    hide ValueCore;
    if a == [] {
      assert a + b == b;
    } else {
      assert (a + b)[0] == a[0] && (a + b)[1..] == a[1..] + b;
      FoldConcat(ValueCore(p, a[0]), a[1..], b);
    }
  }

  /** The flag an item sets, when the list goes on or the line ends. */
  function Heard(t: seq<byte>, f: Flags): Flags {
    if Says(t, KEEP) then f.(keepAlive := true) else if Says(t, CLOSE) then f.(close := true)
    else if Says(t, UP) then f.(connUpgrade := true) else f
  }

  lemma {:induction false} ItemRun(p: Parser, t: seq<byte>, f: Flags, w: seq<byte>)
    requires InItem(p, t, f) && COMMA !in w
    ensures InItem(Fold(p, w), t + w, f)
    decreases |w|
  {
    hide InItem, ValueCore;
    if w == [] {
      assert t + w == t;
    } else {
      ItemByte(p, t, f, w[0]);
      ItemRun(ValueCore(p, w[0]), t + [w[0]], f, w[1..]);
      assert (t + [w[0]]) + w[1..] == t + w;
    }
  }

  /** An item that is passed over: after a comma that was no letter of the word before it. */
  lemma {:induction false} PassedOver(p: Parser, w: seq<byte>)
    requires p.state.Value? && p.headerState.HToken? && COMMA !in w
    ensures Fold(p, w) == p
    decreases |w|
  {
    if w != [] {
      assert ValueCore(p, w[0]) == p;
      PassedOver(p, w[1..]);
    }
  }

  /** A value of which nothing more is read. */
  lemma {:induction false} GivenUp(p: Parser, w: seq<byte>)
    requires p.state.Value? && p.headerState.HGeneral?
    ensures Fold(p, w) == p
    decreases |w|
  {
    if w != [] { GivenUp(p, w[1..]); }
  }

  /** A comma ends the item, unless the matcher was waiting for another letter. */
  lemma ItemComma(p: Parser, t: seq<byte>, f: Flags)
    requires InItem(p, t, f)
    ensures var q := ValueCore(p, COMMA);
      && q.state.Value?
      && if Unfinished(t) then q.headerState.HToken? && q.flags == f
         else q.headerState.HTokenStart? && q.index == 0 && q.flags == Heard(t, f)
  {
    hide Starts, Says, CharAt;
    Sizes();
    OneWord(t);
    FirstLetterIs(t, KEEP);
    FirstLetterIs(t, CLOSE);
    FirstLetterIs(t, UP);
    NoComma(KEEP, |t|);
    NoComma(CLOSE, |t|);
    NoComma(UP, |t|);
    StartsShort(t, KEEP);
    StartsShort(t, CLOSE);
    StartsShort(t, UP);
    assert Lower(COMMA) == COMMA;
  }

  lemma NoComma(word: string, i: nat)
    requires word == KEEP || word == CLOSE || word == UP
    ensures CharAt(word, i) != COMMA
  {
  }

  /** What the flags are if the line ends here. */
  lemma ItemDone(p: Parser, t: seq<byte>, f: Flags)
    requires InItem(p, t, f)
    ensures FinishedFlags(p.headerState, p.flags) == Heard(t, f)
  {
    hide Starts, Says;
    OneWord(t);
    FirstLetterIs(t, KEEP);
    FirstLetterIs(t, CLOSE);
    FirstLetterIs(t, UP);
  }

  /** The first letter of an item. */
  lemma ItemFirst(p: Parser, c: byte)
    requires p.state.Value? && p.headerState.HTokenStart? && p.index == 0
    ensures Lower(c) == SPACE ==> ValueCore(p, c) == p
    ensures Token(Lower(c)) != 0 ==> InItem(ValueCore(p, c), [c], p.flags)
    ensures Token(Lower(c)) == 0 && Lower(c) != SPACE && Lower(c) != TAB ==> ValueCore(p, c) == p.(headerState := HGeneral)
  {
    hide Lower, CharAt;
    OneLetter(c);
    assert Token(SPACE) == 0;
  }

  lemma OneLetter(c: byte)
    ensures ItemState([c]) == if Lower(c) == 107 then HMatchingKeepAlive else if Lower(c) == 99 then HMatchingClose
                              else if Lower(c) == 117 then HMatchingConnUpgrade else HToken
  {
    hide Lower, Says;
    Sizes();
    FirstOnly(Lower(c), KEEP);
    FirstOnly(Lower(c), CLOSE);
    FirstOnly(Lower(c), UP);
    assert Low([c]) == [Lower(c)];
    assert KEEP[0] == 'k' && CLOSE[0] == 'c' && UP[0] == 'u';
    ShortSays([c], KEEP);
    ShortSays([c], CLOSE);
    ShortSays([c], UP);
  }

  lemma ShortSays(t: seq<byte>, word: string)
    ensures |t| < |word| ==> !Says(t, word)
  {
  }

  // Lists

  /** The items with commas between them. */
  function Joined(items: seq<seq<byte>>): seq<byte> {
    if items == [] then [] else if |items| == 1 then items[0] else items[0] + [COMMA] + Joined(items[1..])
  }

  predicate NoCommas(items: seq<seq<byte>>) { forall i :: 0 <= i < |items| ==> COMMA !in items[i] }

  /** Without the spaces in front; the matcher's lower case makes a space of NUL. */
  function Trimmed(w: seq<byte>): (t: seq<byte>)
    ensures |t| <= |w| && (COMMA !in w ==> COMMA !in t) && (t != [] ==> Lower(t[0]) != SPACE)
  {
    if w != [] && Lower(w[0]) == SPACE then Trimmed(w[1..]) else w
  }

  /** What the matcher hears in the items after a comma. It stops at one that does not begin
      with a token character; after one that ends in the middle of a word it knows, the
      comma is taken for a wrong letter, and the next item is passed over. */
  function HeardIn(items: seq<seq<byte>>, f: Flags): Flags
    decreases |items|, 0
  {
    if items == [] then f
    else
      var t := Trimmed(items[0]);
      if t == [] || Token(Lower(t[0])) == 0 then f else HeardFrom(t, items[1..], f)
  }

  /** The same from an item on, its blanks trimmed. */
  function HeardFrom(t: seq<byte>, rest: seq<seq<byte>>, f: Flags): Flags
    decreases |rest|, 1
  {
    if Unfinished(t) then if rest == [] then f else HeardIn(rest[1..], f) else HeardIn(rest, Heard(t, f))
  }

  predicate AtItem(p: Parser, f: Flags) { p.state.Value? && p.headerState.HTokenStart? && p.index == 0 && p.flags == f }

  function Done(p: Parser): Flags { FinishedFlags(p.headerState, p.flags) }

  lemma {:induction false} TrimRun(p: Parser, w: seq<byte>, f: Flags)
    requires AtItem(p, f)
    ensures Fold(p, w) == Fold(p, Trimmed(w))
    decreases |w|
  {
    hide ValueCore;
    if w != [] && Lower(w[0]) == SPACE {
      ItemFirst(p, w[0]);
      TrimRun(p, w[1..], f);
    }
  }

  function After(rest: seq<seq<byte>>): seq<byte> { if rest == [] then [] else [COMMA] + Joined(rest) }

  lemma JoinedFirst(items: seq<seq<byte>>)
    requires items != []
    ensures Joined(items) == items[0] + After(items[1..])
  {
    if |items| == 1 { assert items[1..] == []; }
  }

  lemma LowerTab(c: byte)
    ensures Lower(c) != TAB
  {
  }

  /** From the beginning of an item. */
  lemma {:induction false} ListRun(p: Parser, items: seq<seq<byte>>, f: Flags)
    requires AtItem(p, f) && NoCommas(items)
    ensures Done(Fold(p, Joined(items))) == HeardIn(items, f) && Fold(p, Joined(items)).state.Value?
    decreases |items|, 2
  {
    hide ValueCore, Token, Lower, InItem, FinishedFlags;
    assert FinishedFlags(HTokenStart, f) == f && FinishedFlags(HGeneral, f) == f by { Neutral(f); }
    if items != [] {
      var w, t, a := items[0], Trimmed(items[0]), After(items[1..]);
      JoinedFirst(items);
      FoldConcat(p, w, a);
      TrimRun(p, w, f);
      FoldConcat(p, t, a);
      if t == [] {
        EmptyItem(p, items[1..], f);
      } else {
        LowerTab(t[0]);
        ItemFirst(p, t[0]);
        if Token(Lower(t[0])) == 0 {
          GivenUp(ValueCore(p, t[0]), t[1..]);
          GivenUp(ValueCore(p, t[0]), a);
        } else {
          ItemRun(ValueCore(p, t[0]), [t[0]], f, t[1..]);
          assert [t[0]] + t[1..] == t;
          AfterItem(Fold(p, t), t, items[1..], f);
        }
      }
    }
  }

  lemma Neutral(f: Flags)
    ensures FinishedFlags(HTokenStart, f) == f && FinishedFlags(HGeneral, f) == f && FinishedFlags(HToken, f) == f
  {
  }

  /** An empty item: at the end of the list nothing, before a comma the end of the reading. */
  lemma EmptyItem(p: Parser, rest: seq<seq<byte>>, f: Flags)
    requires AtItem(p, f)
    ensures Done(Fold(p, After(rest))) == f && Fold(p, After(rest)).state.Value?
  {
    hide ValueCore, Token, Lower;
    if rest != [] {
      assert Lower(COMMA) == COMMA && Token(COMMA) == 0 by { CommaIsNoToken(); }
      ItemFirst(p, COMMA);
      assert After(rest)[1..] == Joined(rest);
      GivenUp(ValueCore(p, COMMA), Joined(rest));
    }
  }

  lemma CommaIsNoToken()
    ensures Lower(COMMA) == COMMA && Token(COMMA) == 0
  {
  }

  /** From the end of an item. */
  lemma {:induction false} AfterItem(p: Parser, t: seq<byte>, rest: seq<seq<byte>>, f: Flags)
    requires InItem(p, t, f) && NoCommas(rest)
    ensures Done(Fold(p, After(rest))) == HeardFrom(t, rest, f) && Fold(p, After(rest)).state.Value?
    decreases |rest|, 3
  {
    hide ValueCore, Token, Lower, FinishedFlags, Says, Starts;
    if rest == [] {
      ItemDone(p, t, f);
      UnfinishedSilent(t, f);
    } else {
      ItemComma(p, t, f);
      var q := ValueCore(p, COMMA);
      assert After(rest)[1..] == Joined(rest);
      if Unfinished(t) {
        JoinedFirst(rest);
        FoldConcat(q, rest[0], After(rest[1..]));
        PassedOver(q, rest[0]);
        SkippedItem(q, rest[1..], f);
      } else {
        ListRun(q, rest, Heard(t, f));
      }
    }
  }

  lemma UnfinishedSilent(t: seq<byte>, f: Flags)
    ensures Unfinished(t) ==> Heard(t, f) == f
  {
    hide Says, Starts, Lower;
    if Unfinished(t) {
      StartsNonEmpty(t);
      OneWord(t);
      FirstLetterIs(t, KEEP);
      FirstLetterIs(t, CLOSE);
      FirstLetterIs(t, UP);
    }
  }

  lemma StartsNonEmpty(t: seq<byte>)
    requires Unfinished(t)
    ensures t != []
  {
  }

  lemma {:induction false} SkippedItem(p: Parser, rest: seq<seq<byte>>, f: Flags)
    requires p.state.Value? && p.headerState.HToken? && p.flags == f && NoCommas(rest)
    ensures Done(Fold(p, After(rest))) == HeardIn(rest, f) && Fold(p, After(rest)).state.Value?
    decreases |rest|, 4
  {
    if rest != [] {
      var q := ValueCore(p, COMMA);
      assert AtItem(q, f);
      assert After(rest)[1..] == Joined(rest);
      ListRun(q, rest, f);
    }
  }

  // Whole values

  /** The text between the commas. */
  function Split(v: seq<byte>): (items: seq<seq<byte>>)
    ensures items != []
  {
    if v == [] then [[]]
    else
      var more := Split(v[1..]);
      if v[0] == COMMA then [[]] + more else [[v[0]] + more[0]] + more[1..]
  }

  lemma {:induction false} SplitJoins(v: seq<byte>)
    ensures Joined(Split(v)) == v && NoCommas(Split(v))
    decreases |v|
  {
    if v != [] {
      hide Split, Joined, After, NoCommas;
      var more := Split(v[1..]);
      SplitJoins(v[1..]);
      SplitFirst(v);
      assert v == [v[0]] + v[1..];
      if v[0] == COMMA { CommaJoins(more); } else { LetterJoins(v[0], more); }
    } else {
      assert Split([]) == [[]];
    }
  }

  lemma SplitFirst(v: seq<byte>)
    requires v != []
    ensures var more := Split(v[1..]);
      Split(v) == if v[0] == COMMA then [[]] + more else [[v[0]] + more[0]] + more[1..]
  {
  }

  lemma CommaJoins(more: seq<seq<byte>>)
    requires more != [] && NoCommas(more)
    ensures NoCommas([[]] + more) && Joined([[]] + more) == [COMMA] + Joined(more)
  {
    hide Joined;
    JoinedFirst([[]] + more);
    assert ([[]] + more)[1..] == more;
  }

  lemma LetterJoins(c: byte, more: seq<seq<byte>>)
    requires more != [] && NoCommas(more) && c != COMMA
    ensures var items := [[c] + more[0]] + more[1..]; NoCommas(items) && Joined(items) == [c] + Joined(more)
  {
    hide Joined;
    var items := [[c] + more[0]] + more[1..];
    JoinedFirst(items);
    JoinedFirst(more);
    assert items[1..] == more[1..];
    assert ([c] + more[0]) + After(more[1..]) == [c] + (more[0] + After(more[1..]));
  }

  lemma {:induction false} SplitPlain(w: seq<byte>)
    requires COMMA !in w
    ensures Split(w) == [w]
    decreases |w|
  {
    if w != [] {
      SplitPlain(w[1..]);
      assert w == [w[0]] + w[1..];
    }
  }

  /** What the parser makes of the whole value: its first character begins an item,
      whatever it is, a comma included. */
  function HeardValue(v: seq<byte>, f: Flags): Flags
    requires v != []
  {
    var items := Split(v);
    if items[0] != [] then HeardFrom(items[0], items[1..], f) else if |items| > 2 then HeardIn(items[2..], f) else f
  }

  /** The fields after the first character of the value. */
  function Started(p: Parser, c: byte): Parser { p.(state := Value, index := 0, headerState := ItemState([c])) }

  lemma ConnectionFirst(p: Parser, c: byte)
    requires p.state.DiscardWs? && p.headerState.HConnection? && c != SPACE && c != TAB && c != CR && c != LF
    ensures Switch(p, c) == Go(Started(p, c)).(mark := Marking(HeaderValue))
  {
    hide AtStart, AtMethod, AtSpaces, AtUrl, AtHttp, AtNumber, AtChunk, AtBodyIdentity, AtFieldStart, AtValueLws,
         AtDiscardLws, AtHeadersAlmostDone, AtHeadersDone, Lower, ItemState;
    OneLetter(c);
  }

  /** The flags once the line of a Connection header is over are those of the words heard in
      its value. */
  lemma ConnectionValue(p: Parser, v: seq<byte>)
    requires v != []
    ensures Done(Fold(Started(p, v[0]), v[1..])) == HeardValue(v, p.flags)
  {
    hide ValueCore, Done, HeardIn, HeardFrom, ItemState;
    var items, q, f := Split(v), Started(p, v[0]), p.flags;
    SplitJoins(v);
    JoinedFirst(items);
    if v[0] == COMMA {
      CommaFirst(q);
      var rest := items[1..];
      assert v[1..] == Joined(rest);
      SplitJoins(v[1..]);
      JoinedFirst(rest);
      FoldConcat(q, rest[0], After(rest[1..]));
      PassedOver(q, rest[0]);
      SkippedItem(q, rest[1..], f);
      assert items[2..] == rest[1..];
      NothingHeard(f);
    } else {
      var t, rest := items[0], items[1..];
      assert v[1..] == t[1..] + After(rest) && t == [t[0]] + t[1..];
      FirstIsIn(q, v[0], f);
      ItemRun(q, [v[0]], f, t[1..]);
      FoldConcat(q, t[1..], After(rest));
      AfterItem(Fold(q, t[1..]), t, rest, f);
    }
  }

  lemma NothingHeard(f: Flags)
    ensures HeardIn([], f) == f
  {
  }

  lemma CommaFirst(q: Parser)
    requires q.headerState == ItemState([COMMA])
    ensures q.headerState.HToken?
  {
    hide ItemState;
    OneLetter(COMMA);
  }

  lemma FirstIsIn(q: Parser, c: byte, f: Flags)
    requires q.state.Value? && q.index == 0 && q.headerState == ItemState([c]) && q.flags == f
    ensures InItem(q, [c], f)
  {
  }

  // Which items are heard

  /** The text of an item: the first as it stands, the others without the spaces in front. */
  function Item(items: seq<seq<byte>>, i: nat): seq<byte>
    requires i < |items|
  {
    if i == 0 then items[0] else Trimmed(items[i])
  }

  /** Nothing is read behind an item that begins no token; the first item is read anyhow. */
  predicate Stops(items: seq<seq<byte>>, i: nat)
    requires i < |items|
  {
    i > 0 && (Item(items, i) == [] || Token(Lower(Item(items, i)[0])) == 0)
  }

  /** The comma behind the item is taken for one of its letters, and the next item with it. */
  predicate Swallows(items: seq<seq<byte>>, i: nat)
    requires i < |items|
  {
    Unfinished(Item(items, i)) || (i == 0 && items[0] == [])
  }

  /** No item reached before stops the reading, and the one just before does not swallow this. */
  predicate Reached(items: seq<seq<byte>>, i: nat)
    requires i < |items|
    decreases i
  {
    && (forall j: nat :: j < i && Reached(items, j) ==> !Stops(items, j))
    && (i > 0 && Reached(items, i - 1) ==> !Swallows(items, i - 1))
  }

  /** A reached item, from the k-th on, says the word. */
  predicate Said(items: seq<seq<byte>>, k: nat, word: string) {
    exists i: nat :: k <= i < |items| && Reached(items, i) && Says(Item(items, i), word)
  }

  /** What is heard from the k-th item on. */
  function HeardSaid(items: seq<seq<byte>>, k: nat, f: Flags): Flags {
    f.(keepAlive := f.keepAlive || Said(items, k, KEEP), close := f.close || Said(items, k, CLOSE),
       connUpgrade := f.connUpgrade || Said(items, k, UP))
  }

  lemma ReachedNext(items: seq<seq<byte>>, k: nat)
    requires k < |items| && Reached(items, k)
    ensures Stops(items, k) ==> forall i: nat :: k < i < |items| ==> !Reached(items, i)
    ensures !Stops(items, k) && k + 1 < |items| ==> (Reached(items, k + 1) <==> !Swallows(items, k))
    ensures !Stops(items, k) && Swallows(items, k) && k + 2 < |items| ==> Reached(items, k + 2)
  {
    hide Stops, Swallows;
  }

  /** One item on: its own word, and what the items from the next reached one say. */
  lemma SaidNext(items: seq<seq<byte>>, k: nat, n: nat, word: string)
    requires k < |items| && k < n && Reached(items, k) && forall i: nat :: k < i < n && i < |items| ==> !Reached(items, i)
    ensures Said(items, k, word) <==> Says(Item(items, k), word) || Said(items, n, word)
  {
    hide Says, Item, Reached;
  }

  lemma HeardNext(items: seq<seq<byte>>, k: nat, n: nat, f: Flags)
    requires k < |items| && k < n && Reached(items, k) && forall i: nat :: k < i < n && i < |items| ==> !Reached(items, i)
    requires Item(items, k) != []
    ensures HeardSaid(items, k, f) == HeardSaid(items, n, Heard(Item(items, k), f))
  {
    hide Says, Item, Reached, Said, Heard;
    SaidNext(items, k, n, KEEP);
    SaidNext(items, k, n, CLOSE);
    SaidNext(items, k, n, UP);
    HeardIs(Item(items, k), f);
  }

  /** An item says one word at most. */
  lemma HeardIs(t: seq<byte>, f: Flags)
    requires t != []
    ensures Heard(t, f) == f.(keepAlive := f.keepAlive || Says(t, KEEP), close := f.close || Says(t, CLOSE),
                              connUpgrade := f.connUpgrade || Says(t, UP))
  {
    hide Says, Starts, Lower;
    OneWord(t);
  }

  lemma NothingSays(items: seq<seq<byte>>, k: nat, n: nat, f: Flags)
    requires k < |items| && k < n && Reached(items, k) && forall i: nat :: k < i < n && i < |items| ==> !Reached(items, i)
    requires Item(items, k) == [] || Token(Lower(Item(items, k)[0])) == 0
    ensures HeardSaid(items, k, f) == HeardSaid(items, n, f)
  {
    hide Says, Item, Reached, Said, Token;
    SaidNext(items, k, n, KEEP);
    SaidNext(items, k, n, CLOSE);
    SaidNext(items, k, n, UP);
    Wordless(Item(items, k));
  }

  lemma Wordless(t: seq<byte>)
    requires t == [] || Token(Lower(t[0])) == 0
    ensures !Says(t, KEEP) && !Says(t, CLOSE) && !Says(t, UP)
  {
    hide Says, Starts, Lower;
    Sizes();
    ShortSays(t, KEEP);
    ShortSays(t, CLOSE);
    ShortSays(t, UP);
    if t != [] { OneWord(t); }
    assert Token(107) != 0 && Token(99) != 0 && Token(117) != 0;
  }

  lemma NoneSaid(items: seq<seq<byte>>, k: nat, f: Flags)
    requires k >= |items| || forall i: nat :: k <= i < |items| ==> !Reached(items, i)
    ensures HeardSaid(items, k, f) == f
  {
    hide Said;
    NotSaid(items, k, KEEP);
    NotSaid(items, k, CLOSE);
    NotSaid(items, k, UP);
  }

  lemma NotSaid(items: seq<seq<byte>>, k: nat, word: string)
    requires k >= |items| || forall i: nat :: k <= i < |items| ==> !Reached(items, i)
    ensures !Said(items, k, word)
  {
    if i: nat :| k <= i < |items| && Reached(items, i) && Says(Item(items, i), word) {
      ReachedNext(items, i);
      assert false;
    }
  }

  /** From any reached item but the first. */
  lemma {:induction false} HeardReached(items: seq<seq<byte>>, k: nat, f: Flags)
    requires 0 < k <= |items| && (k < |items| ==> Reached(items, k))
    ensures HeardIn(items[k..], f) == HeardSaid(items, k, f)
    decreases |items| - k, 0
  {
    hide Said, HeardSaid, Reached, Says, Starts, Token, Lower, Trimmed, HeardFrom;
    if k == |items| {
      NoneSaid(items, k, f);
      assert items[k..] == [];
    } else {
      assert items[k..][0] == items[k] && items[k..][1..] == items[k + 1..];
      ReachedNext(items, k);
      if Stops(items, k) {
        NothingSays(items, k, |items|, f);
        NoneSaid(items, |items|, f);
      } else {
        HeardBehind(items, k, f);
      }
    }
  }

  /** From a reached item that does not stop the reading. */
  lemma {:induction false} HeardBehind(items: seq<seq<byte>>, k: nat, f: Flags)
    requires k < |items| && Reached(items, k) && !Stops(items, k) && Item(items, k) != []
    ensures HeardFrom(Item(items, k), items[k + 1..], f) == HeardSaid(items, k, f)
    decreases |items| - k - 1, 1
  {
    hide Said, HeardSaid, Reached, Says, Starts, Token, Lower, Trimmed, Stops;
    var t := Item(items, k);
    ReachedNext(items, k);
    if Unfinished(t) {
      UnfinishedSilent(t, f);
      HeardNext(items, k, k + 2, f);
      if k + 2 <= |items| {
        HeardReached(items, k + 2, f);
        assert items[k + 1..][1..] == items[k + 2..];
      } else {
        NoneSaid(items, k + 2, f);
        assert items[k + 1..] == [];
      }
    } else {
      HeardNext(items, k, k + 1, f);
      HeardReached(items, k + 1, Heard(t, f));
    }
  }

  /** Exactly the words of the reached items are heard. */
  lemma ReachedHeard(v: seq<byte>, f: Flags)
    requires v != []
    ensures HeardValue(v, f) == HeardSaid(Split(v), 0, f)
  {
    hide Said, HeardSaid, Reached, Says, Starts, HeardFrom, HeardIn, Split;
    var items := Split(v);
    assert Reached(items, 0) by { FirstReached(items); }
    if items[0] != [] {
      HeardBehind(items, 0, f);
    } else {
      SplitFirst(v);
      ReachedNext(items, 0);
      NothingSays(items, 0, 2, f);
      HeardReached(items, 2, f);
      if |items| == 2 {
        NothingHeard(f);
        assert items[2..] == [];
      }
    }
  }

  lemma FirstReached(items: seq<seq<byte>>)
    requires items != []
    ensures Reached(items, 0)
  {
  }

  /** Some item of the list, reached or not, says the word. */
  predicate Listed(items: seq<seq<byte>>, word: string) { exists i: nat :: i < |items| && Says(Item(items, i), word) }

  /** No listed word is missed exactly when each stands in an item that is reached. */
  lemma AllHeard(v: seq<byte>)
    requires v != []
    ensures var items, f := Split(v), HeardValue(v, NoFlags);
      ((Listed(items, KEEP) ==> f.keepAlive) && (Listed(items, CLOSE) ==> f.close) && (Listed(items, UP) ==> f.connUpgrade))
      <==> forall i: nat, word :: i < |items| && word in {KEEP, CLOSE, UP} && Says(Item(items, i), word) ==>
             exists j: nat :: j < |items| && Reached(items, j) && Says(Item(items, j), word)
  {
    hide Says, Item, Reached, HeardValue;
    ReachedHeard(v, NoFlags);
  }

  // Lists the parser hears to the end

  /** Every item begins with a token character and does not break off inside a word. */
  predicate WellFormed(items: seq<seq<byte>>) {
    forall i :: 0 <= i < |items| ==>
      var t := Trimmed(items[i]); t != [] && Token(Lower(t[0])) != 0 && !Unfinished(t)
  }

  predicate Lists(items: seq<seq<byte>>, word: string) { exists i :: 0 <= i < |items| && Says(Trimmed(items[i]), word) }

  /** In a well-formed list exactly the words it contains are heard. */
  lemma {:induction false} WellFormedHeard(items: seq<seq<byte>>, f: Flags)
    requires WellFormed(items)
    ensures HeardIn(items, f) == f.(keepAlive := f.keepAlive || Lists(items, KEEP), close := f.close || Lists(items, CLOSE),
                                    connUpgrade := f.connUpgrade || Lists(items, UP))
    decreases |items|
  {
    hide Says, Starts, Token, Lower, Lists, Trimmed, WellFormed, Heard;
    NothingListed();
    if items != [] {
      var t := Trimmed(items[0]);
      assert t != [] && Token(Lower(t[0])) != 0 && !Unfinished(t) && WellFormed(items[1..]) by { FormedFirst(items); }
      WellFormedHeard(items[1..], Heard(t, f));
      ListsFirst(items, KEEP);
      ListsFirst(items, CLOSE);
      ListsFirst(items, UP);
      HeardIs(t, f);
    }
  }

  /** So in a value that is such a list. */
  lemma WellFormedValue(v: seq<byte>, f: Flags)
    requires v != [] && Lower(v[0]) != SPACE && WellFormed(Split(v))
    ensures var items := Split(v);
      HeardValue(v, f) == f.(keepAlive := f.keepAlive || Lists(items, KEEP), close := f.close || Lists(items, CLOSE),
                             connUpgrade := f.connUpgrade || Lists(items, UP))
  {
    hide Says, Starts, Token, Lower, Lists, HeardFrom, WellFormed, Split;
    var items := Split(v);
    FormedFirst(items);
    FirstItem(v);
    WellFormedHeard(items, f);
  }

  lemma FirstItem(v: seq<byte>)
    requires v != [] && Lower(v[0]) != SPACE
    ensures Trimmed(Split(v)[0]) == Split(v)[0]
  {
    hide Lower;
    SplitFirst(v);
  }

  lemma NothingListed()
    ensures !Lists([], KEEP) && !Lists([], CLOSE) && !Lists([], UP)
  {
  }

  lemma FormedFirst(items: seq<seq<byte>>)
    requires items != [] && WellFormed(items)
    ensures var t := Trimmed(items[0]); t != [] && Token(Lower(t[0])) != 0 && !Unfinished(t)
    ensures WellFormed(items[1..])
  {
  }

  lemma ListsFirst(items: seq<seq<byte>>, word: string)
    requires items != []
    ensures Lists(items, word) <==> Says(Trimmed(items[0]), word) || Lists(items[1..], word)
  {
    hide Says, Trimmed;
    var rest := items[1..];
    if i :| 0 <= i < |items| && Says(Trimmed(items[i]), word) {
      if i > 0 { assert Says(Trimmed(rest[i - 1]), word); }
    }
    if i :| 0 <= i < |rest| && Says(Trimmed(rest[i]), word) {
      assert Says(Trimmed(items[i + 1]), word);
    }
  }

  /** A list that is not well formed can hide a word: the comma of "c,close" is taken for a
      wrong letter, and the connection is kept open. */
  lemma MissedClose(f: Flags)
    ensures HeardValue([99, 44, 99, 108, 111, 115, 101], f) == f
    ensures Says([99, 108, 111, 115, 101], CLOSE)
  {
    hide Split;
    var v, close := [99, 44, 99, 108, 111, 115, 101], [99, 108, 111, 115, 101];
    assert v[1..] == [44] + close && v[1..][1..] == close;
    SplitFirst(v);
    SplitFirst(v[1..]);
    SplitPlain(close);
    var more := Split(v[1..]);
    assert v[1..][0] == COMMA && more == [more[0]] + Split(close) && more[0] == [];
    assert Split(v)[0] == [99] && Split(v)[1..] == [close];
    assert Split(v) == [[99], close] && [[99], close][1..] == [close];
    var rest: seq<seq<byte>> := [close];
    assert rest[1..] == [];
    assert HeardFrom([99], rest, f) == f by {
      NothingHeard(f);
      CloseBegun();
    }
    CloseSaid();
  }

  lemma CloseBegun()
    ensures Starts([99], CLOSE)
  {
    assert Lower(99) == 99;
  }

  lemma CloseSaid()
    ensures Says([99, 108, 111, 115, 101], CLOSE)
  {
    var close: seq<byte> := [99, 108, 111, 115, 101];
    Sizes();
    assert Lower(99) == 99 && Lower(108) == 108 && Lower(111) == 111 && Lower(115) == 115 && Lower(101) == 101;
    assert CLOSE == ['c', 'l', 'o', 's', 'e'];
    assert close[..5] == close;
  }
}
