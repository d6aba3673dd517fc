/** What the streaming writer's calls amount to: exactly the trees, printed compactly,
    in blocks that fit the buffer. */
module JsonDocument {
  import opened Bytes
  import opened HttpCut
  import opened JsonTree
  import opened JsonWriter

  /** The calls that write a tree. */
  function Calls(t: Json): (calls: seq<Call>)
    ensures calls != []
  {
    match t
    case Null => [PutNull]
    case Bool(b) => [PutBool(b)]
    case Number(digits) => [PutNumber(digits)]
    case String(s) => [PutString(s)]
    case Array(items) => [ArrayStart] + ItemsCalls(items) + [ArrayEnd]
    case Object(members) => [ObjectStart] + MembersCalls(members) + [ObjectEnd]
  }

  function ItemsCalls(items: Items): seq<Call> {
    match items
    case NoItems => []
    case Item(head, tail) => Calls(head) + ItemsCalls(tail)
  }

  function MembersCalls(members: Members): seq<Call> {
    match members
    case NoMembers => []
    case Member(key, value, rest) => [PutString(key)] + Calls(value) + MembersCalls(rest)
  }

  /** The place after some calls, and the pieces they write. */
  function Walk(p: Place, calls: seq<Call>): Place
    decreases |calls|
  {
    if calls == [] then p else Walk(Next(p, calls[0]), calls[1..])
  }

  function Written(p: Place, calls: seq<Call>): seq<seq<byte>>
    decreases |calls|
  {
    if calls == [] then [] else Pieces(p.state, calls[0]) + Written(Next(p, calls[0]), calls[1..])
  }

  lemma {:induction false} WalkConcat(p: Place, a: seq<Call>, b: seq<Call>)
    ensures Walk(p, a + b) == Walk(Walk(p, a), b)
    ensures Written(p, a + b) == Written(p, a) + Written(Walk(p, a), b)
    decreases |a|
  {
    hide Next, Pieces;
    if a == [] {
      assert a + b == b;
    } else {
      assert (a + b)[1..] == a[1..] + b;
      WalkConcat(Next(p, a[0]), a[1..], b);
    }
  }

  lemma WalkOne(p: Place, c: Call)
    ensures Walk(p, [c]) == Next(p, c) && Written(p, [c]) == Pieces(p.state, c)
  {
    hide Next, Pieces;
    assert [c][1..] == [];
  }

  lemma {:induction false} ConcatPlus(a: seq<seq<byte>>, b: seq<seq<byte>>)
    ensures Concat(a + b) == Concat(a) + Concat(b)
    decreases |a|
  {
    if a == [] {
      assert a + b == b;
    } else {
      assert (a + b)[1..] == a[1..] + b;
      ConcatPlus(a[1..], b);
    }
  }

  lemma ConcatOne(a: seq<byte>)
    ensures Concat([a]) == a
  {
    assert [a][1..] == [];
  }

  // Every tree is accepted and printed

  /** One call, seen as a step of the walk: where it leads and what text it adds. */
  lemma OneCall(p: Place, c: Call)
    requires PlaceInv(p)
    ensures PlaceInv(Walk(p, [c])) && Walk(p, [c]) == Next(p, c)
    ensures Concat(Written(p, [c])) == Concat(Pieces(p.state, c))
  {
    hide Next, Pieces;
    WalkOne(p, c);
    NextKeepsInv(p, c);
  }

  /** The text of a call that writes one word, after a comma inside an array. */
  lemma WordText(p: Place, c: Call)
    requires TakesValue(p.state) && !c.ObjectEnd? && !c.ArrayEnd?
    ensures Concat(Pieces(p.state, c)) == Separator(!p.state.ArrayItem?) + Word(c)
  {
    hide Word;
    ConcatOne(Word(c));
    ConcatPlus(Comma(p.state.ArrayItem?), [Word(c)]);
    ConcatOne([COMMA]);
  }

  lemma EndText(p: Place, c: Call)
    requires (c.ObjectEnd? && (p.state.InObject? || p.state.Value?)) ||
             (c.ArrayEnd? && (p.state.InArray? || p.state.ArrayItem?))
    ensures Concat(Pieces(p.state, c)) == Word(c)
  {
    ConcatOne(Word(c));
  }

  lemma KeyText(p: Place, key: seq<byte>)
    requires p.state.InObject? || p.state.Value?
    ensures Concat(Pieces(p.state, PutString(key))) == Separator(p.state.InObject?) + Quoted(key) + [COLON]
  {
    hide Quoted;
    ConcatPlus(Comma(p.state.Value?), [Quoted(key), [COLON]]);
    ConcatPlus([Quoted(key)], [[COLON]]);
    assert [Quoted(key)] + [[COLON]] == [Quoted(key), [COLON]];
    ConcatOne(Quoted(key));
    ConcatOne([COLON]);
    ConcatOne([COMMA]);
  }

  /** The text two runs of calls write, one after the other. */
  lemma TextConcat(p: Place, a: seq<Call>, b: seq<Call>)
    ensures Concat(Written(p, a + b)) == Concat(Written(p, a)) + Concat(Written(Walk(p, a), b))
    ensures Walk(p, a + b) == Walk(Walk(p, a), b)
  {
    hide Walk, Written, Concat;
    WalkConcat(p, a, b);
    ConcatPlus(Written(p, a), Written(Walk(p, a), b));
  }

  /** A tree's calls are accepted wherever a value may stand, and write its text. */
  lemma {:induction false} WritesValue(p: Place, t: Json)
    requires PlaceInv(p) && TakesValue(p.state)
    ensures Walk(p, Calls(t)) == Place(AfterScalar(p.state), p.nesting)
    ensures Concat(Written(p, Calls(t))) == Separator(!p.state.ArrayItem?) + Text(t)
    decreases t
  {
    hide Walk, Written, Concat, Pieces, Separator;
    match t
    case Array(items) => WritesArray(p, items);
    case Object(members) => WritesObject(p, members);
    case _ =>
      OneCall(p, Calls(t)[0]);
      WordText(p, Calls(t)[0]);
  }

  lemma {:induction false} WritesArray(p: Place, items: Items)
    requires PlaceInv(p) && TakesValue(p.state)
    ensures Walk(p, Calls(Array(items))) == Place(AfterScalar(p.state), p.nesting)
    ensures Concat(Written(p, Calls(Array(items)))) == Separator(!p.state.ArrayItem?) + Text(Array(items))
    decreases items, 1
  {
    hide Walk, Written, Concat, Pieces, Separator, Calls, Text, ItemsCalls, MembersCalls, ItemsText, MembersText;
    ArrayParts(items);
    var open := Next(p, ArrayStart);
    Bracketed(p, ArrayStart, ItemsCalls(items), ArrayEnd);
    WritesItems(open, items);
    EndText(Walk(open, ItemsCalls(items)), ArrayEnd);
    WordText(p, ArrayStart);
    Reopened(p, ArrayLevel);
  }

  lemma {:induction false} WritesObject(p: Place, members: Members)
    requires PlaceInv(p) && TakesValue(p.state)
    ensures Walk(p, Calls(Object(members))) == Place(AfterScalar(p.state), p.nesting)
    ensures Concat(Written(p, Calls(Object(members)))) == Separator(!p.state.ArrayItem?) + Text(Object(members))
    decreases members, 1
  {
    hide Walk, Written, Concat, Pieces, Separator, Calls, Text, ItemsCalls, MembersCalls, ItemsText, MembersText;
    ObjectParts(members);
    var open := Next(p, ObjectStart);
    Bracketed(p, ObjectStart, MembersCalls(members), ObjectEnd);
    WritesMembers(open, members);
    EndText(Walk(open, MembersCalls(members)), ObjectEnd);
    WordText(p, ObjectStart);
    Reopened(p, ObjectLevel);
  }

  lemma ArrayParts(items: Items)
    ensures Calls(Array(items)) == [ArrayStart] + ItemsCalls(items) + [ArrayEnd]
    ensures Text(Array(items)) == Word(ArrayStart) + ItemsText(items, true) + Word(ArrayEnd)
  {
  }

  lemma ObjectParts(members: Members)
    ensures Calls(Object(members)) == [ObjectStart] + MembersCalls(members) + [ObjectEnd]
    ensures Text(Object(members)) == Word(ObjectStart) + MembersText(members, true) + Word(ObjectEnd)
  {
  }

  lemma Reopened(p: Place, level: Nesting)
    requires PlaceInv(p) && TakesValue(p.state)
    ensures (p.nesting + [level])[..|p.nesting|] == p.nesting && Outer(p.nesting) == AfterScalar(p.state)
  {
  }

  lemma Bracketed(p: Place, open: Call, calls: seq<Call>, close: Call)
    requires PlaceInv(p)
    ensures PlaceInv(Next(p, open))
    ensures var q := Walk(Next(p, open), calls);
      && Walk(p, [open] + calls + [close]) == Next(q, close)
      && Concat(Written(p, [open] + calls + [close]))
         == Concat(Pieces(p.state, open)) + Concat(Written(Next(p, open), calls)) + Concat(Pieces(q.state, close))
  {
    hide Walk, Written, Concat, Pieces, Next;
    OneCall(p, open);
    TextConcat(p, [open], calls);
    TextConcat(p, [open] + calls, [close]);
    WalkOne(Walk(Next(p, open), calls), close);
  }

  lemma {:induction false} WritesItems(p: Place, items: Items)
    requires PlaceInv(p) && (p.state.InArray? || p.state.ArrayItem?)
    ensures Walk(p, ItemsCalls(items)) == if items.NoItems? then p else p.(state := ArrayItem)
    ensures Concat(Written(p, ItemsCalls(items))) == ItemsText(items, p.state.InArray?)
    decreases items, 0
  {
    match items
    case NoItems =>
    case Item(head, tail) =>
      hide Walk, Written, Concat, Pieces, Separator, Calls, Text, ItemsCalls, ItemsText, PlaceInv, TakesValue, AfterScalar;
      ItemPlace(p);
      ItemsUnfold(head, tail, p.state.InArray?);
      TextConcat(p, Calls(head), ItemsCalls(tail));
      WritesValue(p, head);
      WritesItems(p.(state := ArrayItem), tail);
  }

  lemma {:induction false} WritesMembers(p: Place, members: Members)
    requires PlaceInv(p) && (p.state.InObject? || p.state.Value?)
    ensures Walk(p, MembersCalls(members)) == if members.NoMembers? then p else p.(state := Value)
    ensures Concat(Written(p, MembersCalls(members))) == MembersText(members, p.state.InObject?)
    decreases members, 0
  {
    match members
    case NoMembers =>
    case Member(key, value, rest) =>
      hide Walk, Written, Concat, Pieces, Separator, Quoted, Calls, Text, MembersCalls, MembersText, PlaceInv, Next,
           TakesValue, AfterScalar;
      MembersUnfold(members, p.state.InObject?);
      MemberPlace(p, key);
      var named := Next(p, PutString(key));
      TextConcat(p, [PutString(key)], Calls(value));
      TextConcat(p, [PutString(key)] + Calls(value), MembersCalls(rest));
      OneCall(p, PutString(key));
      KeyText(p, key);
      WritesValue(named, value);
      WritesMembers(p.(state := Value), rest);
      assert Separator(true) == [] by { Unseparated(); }
      assert [] + Text(value) == Text(value);
  }

  lemma ItemPlace(p: Place)
    requires PlaceInv(p) && (p.state.InArray? || p.state.ArrayItem?)
    ensures TakesValue(p.state) && AfterScalar(p.state) == ArrayItem && PlaceInv(p.(state := ArrayItem))
  {
  }

  lemma MemberPlace(p: Place, key: seq<byte>)
    requires PlaceInv(p) && (p.state.InObject? || p.state.Value?)
    ensures Next(p, PutString(key)) == p.(state := Key) && PlaceInv(p.(state := Key)) && PlaceInv(p.(state := Value))
    ensures TakesValue(Key) && AfterScalar(Key) == Value
  {
  }

  lemma ItemsUnfold(head: Json, tail: Items, first: bool)
    ensures ItemsCalls(Item(head, tail)) == Calls(head) + ItemsCalls(tail)
    ensures ItemsText(Item(head, tail), first) == Separator(first) + Text(head) + ItemsText(tail, false)
  {
    hide Calls, Text, Separator;
  }

  lemma MembersUnfold(m: Members, first: bool)
    requires m.Member?
    ensures MembersCalls(m) == [PutString(m.key)] + Calls(m.value) + MembersCalls(m.rest)
    ensures MembersText(m, first)
         == Separator(first) + Quoted(m.key) + [COLON] + Text(m.value) + MembersText(m.rest, false)
  {
    hide Calls, Text, Separator, Quoted;
  }

  lemma Unseparated()
    ensures Separator(true) == []
  {
  }

  // Only trees are accepted

  lemma {:induction false} ErrorStays(p: Place, calls: seq<Call>)
    requires p.state.Error?
    ensures Walk(p, calls).state.Error?
    decreases |calls|
  {
    if calls != [] { ErrorStays(Next(p, calls[0]), calls[1..]); }
  }

  /** A walk that ends well has not failed at its first call. */
  lemma FirstWorks(p: Place, calls: seq<Call>)
    requires PlaceInv(p) && Walk(p, calls).state.End? && !p.state.End?
    ensures calls != [] && !Next(p, calls[0]).state.Error? && PlaceInv(Next(p, calls[0]))
    ensures Walk(Next(p, calls[0]), calls[1..]).state.End?
  {
    hide Next;
    NextKeepsInv(p, calls[0]);
    if Next(p, calls[0]).state.Error? { ErrorStays(Next(p, calls[0]), calls[1..]); }
  }

  /** Calls made where a value may stand, and that reach the end, begin with the calls
      of a tree. */
  lemma {:induction false} ReadsValue(p: Place, calls: seq<Call>) returns (t: Json, rest: seq<Call>)
    requires PlaceInv(p) && TakesValue(p.state) && Walk(p, calls).state.End?
    requires (p.state.InArray? || p.state.ArrayItem?) && calls != [] ==> !calls[0].ArrayEnd?
    ensures calls == Calls(t) + rest && Walk(Place(AfterScalar(p.state), p.nesting), rest).state.End?
    decreases |calls|, 0
  {
    hide Walk, Next, Calls, PlaceInv, AfterScalar;
    FirstWorks(p, calls);
    FirstIs(p, calls[0]);
    rest := calls[1..];
    if calls[0].ArrayStart? {
      t, rest := ReadsArray(p, rest);
    } else if calls[0].ObjectStart? {
      t, rest := ReadsObject(p, rest);
    } else {
      t := ScalarOf(calls[0]);
      ScalarCalls(calls[0]);
    }
    assert calls == [calls[0]] + calls[1..];
  }

  function ScalarOf(c: Call): Json {
    match c
    case PutNull => Null
    case PutBool(b) => Bool(b)
    case PutNumber(digits) => Number(digits)
    case PutString(s) => String(s)
    case _ => Null
  }

  lemma ScalarCalls(c: Call)
    requires c.PutNull? || c.PutBool? || c.PutNumber? || c.PutString?
    ensures Calls(ScalarOf(c)) == [c]
  {
  }

  lemma FirstIs(p: Place, c: Call)
    requires TakesValue(p.state) && !Next(p, c).state.Error? && PlaceInv(p)
    requires p.state.InArray? || p.state.ArrayItem? ==> !c.ArrayEnd?
    ensures !c.ArrayEnd? && !c.ObjectEnd?
    ensures c.ArrayStart? ==> Next(p, c).state.InArray?
    ensures c.ObjectStart? ==> Next(p, c).state.InObject?
    ensures !c.ArrayStart? && !c.ObjectStart? ==> Next(p, c) == Place(AfterScalar(p.state), p.nesting)
  {
  }

  lemma ReadsArray(p: Place, calls: seq<Call>) returns (t: Json, rest: seq<Call>)
    requires PlaceInv(p) && TakesValue(p.state) && Walk(Next(p, ArrayStart), calls).state.End?
    ensures [ArrayStart] + calls == Calls(t) + rest
    ensures Walk(Place(AfterScalar(p.state), p.nesting), rest).state.End?
    decreases |calls|, 3
  {
    hide Walk;
    var items;
    NextKeepsInv(p, ArrayStart);
    items, rest := ReadsItems(Next(p, ArrayStart), calls);
    t := Array(items);
    Reopened(p, ArrayLevel);
    assert [ArrayStart] + (ItemsCalls(items) + [ArrayEnd] + rest) == Calls(t) + rest;
  }

  lemma ReadsObject(p: Place, calls: seq<Call>) returns (t: Json, rest: seq<Call>)
    requires PlaceInv(p) && TakesValue(p.state) && Walk(Next(p, ObjectStart), calls).state.End?
    ensures [ObjectStart] + calls == Calls(t) + rest
    ensures Walk(Place(AfterScalar(p.state), p.nesting), rest).state.End?
    decreases |calls|, 3
  {
    hide Walk;
    var members;
    NextKeepsInv(p, ObjectStart);
    members, rest := ReadsMembers(Next(p, ObjectStart), calls);
    t := Object(members);
    Reopened(p, ObjectLevel);
    assert [ObjectStart] + (MembersCalls(members) + [ObjectEnd] + rest) == Calls(t) + rest;
  }

  lemma {:induction false} ReadsItems(p: Place, calls: seq<Call>) returns (items: Items, rest: seq<Call>)
    requires PlaceInv(p) && (p.state.InArray? || p.state.ArrayItem?) && Walk(p, calls).state.End?
    ensures calls == ItemsCalls(items) + [ArrayEnd] + rest && Walk(Next(p, ArrayEnd), rest).state.End?
    ensures |rest| < |calls|
    decreases |calls|, 2
  {
    hide Walk;
    FirstWorks(p, calls);
    if calls[0].ArrayEnd? {
      items, rest := NoItems, calls[1..];
    } else {
      var head, more := ReadsFirst(p, calls);
      var tail;
      tail, rest := ReadsItems(Place(ArrayItem, p.nesting), more);
      items := Item(head, tail);
    }
  }

  lemma ReadsFirst(p: Place, calls: seq<Call>) returns (t: Json, rest: seq<Call>)
    requires PlaceInv(p) && TakesValue(p.state) && Walk(p, calls).state.End?
    requires (p.state.InArray? || p.state.ArrayItem?) && calls != [] ==> !calls[0].ArrayEnd?
    ensures calls == Calls(t) + rest && Walk(Place(AfterScalar(p.state), p.nesting), rest).state.End?
    ensures |rest| < |calls|
    decreases |calls|, 1
  {
    hide Walk;
    t, rest := ReadsValue(p, calls);
  }

  lemma {:induction false} ReadsMembers(p: Place, calls: seq<Call>) returns (members: Members, rest: seq<Call>)
    requires PlaceInv(p) && (p.state.InObject? || p.state.Value?) && Walk(p, calls).state.End?
    ensures calls == MembersCalls(members) + [ObjectEnd] + rest && Walk(Next(p, ObjectEnd), rest).state.End?
    ensures |rest| < |calls|
    decreases |calls|, 2
  {
    hide Walk;
    FirstWorks(p, calls);
    if calls[0].ObjectEnd? {
      members, rest := NoMembers, calls[1..];
    } else {
      var key := calls[0].text;
      var value, more := ReadsFirst(Next(p, calls[0]), calls[1..]);
      var others;
      others, rest := ReadsMembers(Place(Value, p.nesting), more);
      members := Member(key, value, others);
      MembersSpell(calls, members, more, rest);
    }
  }

  lemma MembersSpell(calls: seq<Call>, m: Members, more: seq<Call>, rest: seq<Call>)
    requires m.Member? && calls != [] && calls[0] == PutString(m.key) && calls[1..] == Calls(m.value) + more
    requires more == MembersCalls(m.rest) + [ObjectEnd] + rest
    ensures calls == MembersCalls(m) + [ObjectEnd] + rest
  {
    hide Calls, MembersCalls;
    MembersUnfold(m, true);
    assert calls == [calls[0]] + calls[1..];
  }

  /** The writer reaches its end exactly on the calls of a tree. */
  lemma OnlyTrees(calls: seq<Call>) returns (t: Json)
    requires Walk(AtStart, calls).state.End?
    ensures calls == Calls(t)
  {
    var rest;
    t, rest := ReadsValue(AtStart, calls);
    if rest != [] { ErrorStays(Next(Place(End, []), rest[0]), rest[1..]); }
  }

  // The nesting stays within the depth of the tree

  /** Before each of these calls the nesting is at most n deep. */
  predicate Within(p: Place, calls: seq<Call>, n: nat)
    decreases |calls|
  {
    |p.nesting| <= n && (calls == [] || Within(Next(p, calls[0]), calls[1..], n))
  }

  lemma {:induction false} WithinConcat(p: Place, a: seq<Call>, b: seq<Call>, n: nat)
    ensures Within(p, a + b, n) <==> Within(p, a, n) && Within(Walk(p, a), b, n)
    decreases |a|
  {
    hide Next;
    if a == [] {
      assert a + b == b;
    } else {
      assert (a + b)[1..] == a[1..] + b;
      WithinConcat(Next(p, a[0]), a[1..], b, n);
    }
  }

  lemma WithinOne(p: Place, c: Call, n: nat)
    ensures Within(p, [c], n) <==> |p.nesting| <= n && |Next(p, c).nesting| <= n
  {
    assert [c][1..] == [];
  }

  /** The calls of a tree never nest deeper than the tree: for a tree of depth 30 or less
      the nesting array is never overrun. */
  lemma {:induction false} NestingBound(p: Place, t: Json, n: nat)
    requires PlaceInv(p) && TakesValue(p.state) && |p.nesting| + Depth(t) <= n
    ensures Within(p, Calls(t), n)
    decreases t, 1
  {
    match t
    case Array(items) => ArrayBound(p, items, n);
    case Object(members) => ObjectBound(p, members, n);
    case _ => WithinOne(p, Calls(t)[0], n);
  }

  lemma {:induction false} ArrayBound(p: Place, items: Items, n: nat)
    requires PlaceInv(p) && TakesValue(p.state) && |p.nesting| + Depth(Array(items)) <= n
    ensures Within(p, Calls(Array(items)), n)
    decreases items, 2
  {
    hide Walk, Within, Calls, ItemsCalls;
    ArrayParts(items);
    var open := Next(p, ArrayStart);
    WithinOne(p, ArrayStart, n);
    WalkOne(p, ArrayStart);
    ItemsBound(open, items, n);
    WritesItems(open, items);
    WithinConcat(p, [ArrayStart], ItemsCalls(items), n);
    WalkConcat(p, [ArrayStart], ItemsCalls(items));
    WithinConcat(p, [ArrayStart] + ItemsCalls(items), [ArrayEnd], n);
    WithinOne(Walk(open, ItemsCalls(items)), ArrayEnd, n);
  }

  lemma {:induction false} ObjectBound(p: Place, members: Members, n: nat)
    requires PlaceInv(p) && TakesValue(p.state) && |p.nesting| + Depth(Object(members)) <= n
    ensures Within(p, Calls(Object(members)), n)
    decreases members, 2
  {
    hide Walk, Within, Calls, MembersCalls;
    ObjectParts(members);
    var open := Next(p, ObjectStart);
    WithinOne(p, ObjectStart, n);
    WalkOne(p, ObjectStart);
    MembersBound(open, members, n);
    WritesMembers(open, members);
    WithinConcat(p, [ObjectStart], MembersCalls(members), n);
    WalkConcat(p, [ObjectStart], MembersCalls(members));
    WithinConcat(p, [ObjectStart] + MembersCalls(members), [ObjectEnd], n);
    WithinOne(Walk(open, MembersCalls(members)), ObjectEnd, n);
  }

  lemma {:induction false} ItemsBound(p: Place, items: Items, n: nat)
    requires PlaceInv(p) && (p.state.InArray? || p.state.ArrayItem?) && |p.nesting| + ItemsDepth(items) <= n
    ensures Within(p, ItemsCalls(items), n)
    decreases items, 0
  {
    match items
    case NoItems =>
    case Item(head, tail) =>
      hide Walk, Within;
      NestingBound(p, head, n);
      WritesValue(p, head);
      ItemsBound(p.(state := ArrayItem), tail, n);
      WithinConcat(p, Calls(head), ItemsCalls(tail), n);
  }

  lemma {:induction false} MembersBound(p: Place, members: Members, n: nat)
    requires PlaceInv(p) && (p.state.InObject? || p.state.Value?) && |p.nesting| + MembersDepth(members) <= n
    ensures Within(p, MembersCalls(members), n)
    decreases members, 0
  {
    match members
    case NoMembers =>
    case Member(key, value, rest) =>
      hide Walk, Within;
      var named := Next(p, PutString(key));
      WithinOne(p, PutString(key), n);
      WalkOne(p, PutString(key));
      NestingBound(named, value, n);
      WritesValue(named, value);
      MembersBound(p.(state := Value), rest, n);
      WithinConcat(p, [PutString(key)], Calls(value), n);
      WalkConcat(p, [PutString(key)], Calls(value));
      WithinConcat(p, [PutString(key)] + Calls(value), MembersCalls(rest), n);
  }

  // The buffer

  function Fitting(pieces: seq<seq<byte>>, size: nat): seq<seq<byte>> {
    if pieces == [] then []
    else (if |pieces[0]| < size then [pieces[0]] else []) + Fitting(pieces[1..], size)
  }

  predicate AllFit(pieces: seq<seq<byte>>, size: nat) { forall i :: 0 <= i < |pieces| ==> |pieces[i]| < size }

  predicate OutInv(o: Out, size: nat) {
    |o.pending| < size && forall i :: 0 <= i < |o.blocks| ==> 0 < |o.blocks[i]| < size
  }

  function OutText(o: Out): seq<byte> { Concat(o.blocks) + o.pending }

  lemma FlushText(o: Out, size: nat)
    requires OutInv(o, size)
    ensures OutInv(Flushed(o), size) && OutText(Flushed(o)) == OutText(o) && Flushed(o).pending == []
  {
    ConcatPlus(o.blocks, [o.pending]);
    ConcatOne(o.pending);
  }

  lemma PutText(size: nat, o: Out, piece: seq<byte>)
    requires OutInv(o, size)
    ensures OutInv(Put(size, o, piece), size)
    ensures OutText(Put(size, o, piece)) == OutText(o) + (if |piece| < size then piece else [])
  {
    FlushText(o, size);
    assert Concat(o.blocks) + (o.pending + piece) == OutText(o) + piece;
  }

  /** Nothing is lost, repeated or reordered between the pieces and the blocks, but the
      pieces longer than the buffer, which are dropped. */
  lemma {:induction false} PutAllText(size: nat, o: Out, pieces: seq<seq<byte>>)
    requires OutInv(o, size)
    ensures OutInv(PutAll(size, o, pieces), size)
    ensures OutText(PutAll(size, o, pieces)) == OutText(o) + Concat(Fitting(pieces, size))
    decreases |pieces|
  {
    hide Put, OutInv, OutText;
    if pieces != [] {
      PutText(size, o, pieces[0]);
      SizePositive(o, size);
      PutAllText(size, Put(size, o, pieces[0]), pieces[1..]);
      ConcatPlus(if |pieces[0]| < size then [pieces[0]] else [], Fitting(pieces[1..], size));
      ConcatOne(pieces[0]);
    }
  }

  lemma SizePositive(o: Out, size: nat)
    requires OutInv(o, size)
    ensures size > 0
  {
  }

  lemma {:induction false} FittingAll(pieces: seq<seq<byte>>, size: nat)
    requires size > 0
    ensures |Concat(Fitting(pieces, size))| <= |Concat(pieces)|
    ensures Concat(Fitting(pieces, size)) == Concat(pieces) <==> AllFit(pieces, size)
    decreases |pieces|
  {
    if pieces != [] {
      FittingAll(pieces[1..], size);
      ConcatPlus(if |pieces[0]| < size then [pieces[0]] else [], Fitting(pieces[1..], size));
      ConcatOne(pieces[0]);
      assert AllFit(pieces, size) <==> |pieces[0]| < size && AllFit(pieces[1..], size) by {
        assert forall i :: 0 < i < |pieces| ==> pieces[i] == pieces[1..][i - 1];
        assert forall i :: 0 <= i < |pieces| - 1 ==> pieces[1..][i] == pieces[i + 1];
      }
      if |pieces[0]| < size {
        var a, b := Concat(Fitting(pieces[1..], size)), Concat(pieces[1..]);
        assert (pieces[0] + a)[|pieces[0]|..] == a && (pieces[0] + b)[|pieces[0]|..] == b;
      }
    }
  }

  lemma {:induction false} DoAllParts(size: nat, s: Stream, calls: seq<Call>)
    requires size > 0
    ensures DoAll(size, s, calls)
         == Stream(Walk(s.place, calls), PutAll(size, s.out, Written(s.place, calls)))
    decreases |calls|
  {
    if calls != [] {
      hide Next, Pieces, PutAll;
      DoAllParts(size, Do(size, s, calls[0]), calls[1..]);
      PutAllConcat(size, s.out, Pieces(s.place.state, calls[0]), Written(Next(s.place, calls[0]), calls[1..]));
    } else {
      assert PutAll(size, s.out, []) == s.out;
    }
  }

  lemma {:induction false} PutAllConcat(size: nat, o: Out, a: seq<seq<byte>>, b: seq<seq<byte>>)
    requires size > 0
    ensures PutAll(size, o, a + b) == PutAll(size, PutAll(size, o, a), b)
    decreases |a|
  {
    hide Put;
    if a == [] {
      assert a + b == b;
    } else {
      assert (a + b)[1..] == a[1..] + b;
      PutAllConcat(size, Put(size, o, a[0]), a[1..], b);
    }
  }

  // Which trees fit a buffer

  /** The longest piece a tree is written in. */
  function Widest(t: Json): nat {
    match t
    case Null => 4
    case Bool(b) => if b then 4 else 5
    case Number(digits) => |digits|
    case String(s) => |s| + 2
    case Array(items) => Max(1, ItemsWidest(items))
    case Object(members) => Max(1, MembersWidest(members))
  }

  function ItemsWidest(items: Items): nat {
    match items
    case NoItems => 0
    case Item(head, tail) => Max(Widest(head), ItemsWidest(tail))
  }

  function MembersWidest(members: Members): nat {
    match members
    case NoMembers => 0
    case Member(key, value, rest) => Max(|key| + 2, Max(Widest(value), MembersWidest(rest)))
  }

  lemma AllFitConcat(a: seq<seq<byte>>, b: seq<seq<byte>>, size: nat)
    ensures AllFit(a + b, size) <==> AllFit(a, size) && AllFit(b, size)
  {
    if AllFit(a + b, size) {
      forall i | 0 <= i < |a| ensures |a[i]| < size { assert (a + b)[i] == a[i]; }
      forall i | 0 <= i < |b| ensures |b[i]| < size { assert (a + b)[|a| + i] == b[i]; }
    }
  }

  lemma WordFits(p: Place, c: Call, size: nat)
    requires TakesValue(p.state) && !c.ObjectEnd? && !c.ArrayEnd? && (size > 1 || p.state.Start?)
    ensures AllFit(Pieces(p.state, c), size) <==> |Word(c)| < size
  {
    hide Word;
    AllFitConcat(Comma(p.state.ArrayItem?), [Word(c)], size);
    assert AllFit([Word(c)], size) <==> |Word(c)| < size by { assert [Word(c)][0] == Word(c); }
  }

  lemma KeyFits(p: Place, key: seq<byte>, size: nat)
    requires (p.state.InObject? || p.state.Value?) && size > 1
    ensures AllFit(Pieces(p.state, PutString(key)), size) <==> |key| + 2 < size
  {
    AllFitConcat(Comma(p.state.Value?), [Quoted(key), [COLON]], size);
    var q := [Quoted(key), [COLON]];
    assert q[0] == Quoted(key) && q[1] == [COLON] && |q[0]| == |key| + 2;
    assert AllFit(q, size) <==> |key| + 2 < size;
  }

  lemma WalkFits(p: Place, a: seq<Call>, b: seq<Call>, size: nat)
    ensures AllFit(Written(p, a + b), size)
       <==> AllFit(Written(p, a), size) && AllFit(Written(Walk(p, a), b), size)
  {
    hide Walk, Written, AllFit;
    WalkConcat(p, a, b);
    AllFitConcat(Written(p, a), Written(Walk(p, a), b), size);
  }

  lemma CallFits(p: Place, c: Call, size: nat)
    ensures AllFit(Written(p, [c]), size) <==> AllFit(Pieces(p.state, c), size)
    ensures size > 1 && (c.ObjectEnd? || c.ArrayEnd?) ==> AllFit(Pieces(p.state, c), size)
  {
    hide Walk, Written;
    WalkOne(p, c);
  }

  /** Every piece of a tree fits exactly when the widest does; in a buffer of one byte
      nothing does, the bracket of a container least of all. */
  lemma {:induction false} ValueFits(p: Place, t: Json, size: nat)
    requires PlaceInv(p) && TakesValue(p.state) && (size > 1 || (size == 1 && p.state.Start?))
    ensures AllFit(Written(p, Calls(t)), size) <==> Widest(t) < size
    decreases t, 0
  {
    hide Walk, Written, AllFit, Pieces;
    match t
    case Array(items) =>
      var open := Next(p, ArrayStart);
      WalkOne(p, ArrayStart);
      WordFits(p, ArrayStart, size);
      CallFits(p, ArrayStart, size);
      WalkFits(p, [ArrayStart], ItemsCalls(items), size);
      WalkFits(p, [ArrayStart] + ItemsCalls(items), [ArrayEnd], size);
      if size > 1 { ItemsFit(open, items, size); }
      CallFits(Walk(p, [ArrayStart] + ItemsCalls(items)), ArrayEnd, size);
    case Object(members) =>
      var open := Next(p, ObjectStart);
      WalkOne(p, ObjectStart);
      WordFits(p, ObjectStart, size);
      CallFits(p, ObjectStart, size);
      WalkFits(p, [ObjectStart], MembersCalls(members), size);
      WalkFits(p, [ObjectStart] + MembersCalls(members), [ObjectEnd], size);
      if size > 1 { MembersFit(open, members, size); }
      CallFits(Walk(p, [ObjectStart] + MembersCalls(members)), ObjectEnd, size);
    case _ =>
      CallFits(p, Calls(t)[0], size);
      WordFits(p, Calls(t)[0], size);
  }

  lemma {:induction false} ItemsFit(p: Place, items: Items, size: nat)
    requires PlaceInv(p) && (p.state.InArray? || p.state.ArrayItem?) && size > 1
    ensures AllFit(Written(p, ItemsCalls(items)), size) <==> ItemsWidest(items) < size
    decreases items
  {
    match items
    case NoItems =>
    case Item(head, tail) =>
      hide Walk, Written, AllFit;
      WalkFits(p, Calls(head), ItemsCalls(tail), size);
      ValueFits(p, head, size);
      WritesValue(p, head);
      ItemsFit(p.(state := ArrayItem), tail, size);
  }

  lemma {:induction false} MembersFit(p: Place, members: Members, size: nat)
    requires PlaceInv(p) && (p.state.InObject? || p.state.Value?) && size > 1
    ensures AllFit(Written(p, MembersCalls(members)), size) <==> MembersWidest(members) < size
    decreases members
  {
    match members
    case NoMembers =>
    case Member(key, value, rest) =>
      hide Walk, Written, AllFit, Pieces;
      MemberFits(p, key, value, size);
      WalkFits(p, [PutString(key)] + Calls(value), MembersCalls(rest), size);
      MembersFit(p.(state := Value), rest, size);
  }

  lemma {:induction false} MemberFits(p: Place, key: seq<byte>, value: Json, size: nat)
    requires PlaceInv(p) && (p.state.InObject? || p.state.Value?) && size > 1
    ensures AllFit(Written(p, [PutString(key)] + Calls(value)), size) <==> Max(|key| + 2, Widest(value)) < size
    ensures Walk(p, [PutString(key)] + Calls(value)) == p.(state := Value)
    decreases value, 1
  {
    hide Walk, Written, AllFit, Pieces;
    var named := Next(p, PutString(key));
    WalkOne(p, PutString(key));
    CallFits(p, PutString(key), size);
    KeyFits(p, key, size);
    WalkFits(p, [PutString(key)], Calls(value), size);
    WalkConcat(p, [PutString(key)], Calls(value));
    ValueFits(named, value, size);
    WritesValue(named, value);
  }

  /** The blocks of a document: the calls of its tree, then a last flush. */
  function DocumentBlocks(size: nat, t: Json): seq<seq<byte>>
    requires size > 0
  {
    Flushed(DoAll(size, Stream(AtStart, Out([], [])), Calls(t)).out).blocks
  }

  /** A whole document: the writer ends well, every block is non-empty and leaves room
      for the terminator, and together they are the printed tree exactly when its widest
      piece fits the buffer. */
  lemma DocumentText(size: nat, t: Json)
    requires size > 0
    ensures DoAll(size, Stream(AtStart, Out([], [])), Calls(t)).place == Place(End, [])
    ensures var blocks := DocumentBlocks(size, t);
      && (forall i :: 0 <= i < |blocks| ==> 0 < |blocks[i]| < size)
      && (Concat(blocks) == Text(t) <==> Widest(t) < size)
  {
    hide Walk, Written, AllFit, PutAll, Fitting, Concat, DoAll;
    var o := Out([], []);
    var pieces := Written(AtStart, Calls(t));
    DoAllParts(size, Stream(AtStart, o), Calls(t));
    WritesValue(AtStart, t);
    EmptyOut(size);
    PutAllText(size, o, pieces);
    FlushText(PutAll(size, o, pieces), size);
    FittingAll(pieces, size);
    ValueFits(AtStart, t, size);
    assert Separator(true) + Text(t) == Text(t);
    var blocks := DocumentBlocks(size, t);
    assert Concat(blocks) + [] == Concat(blocks);
    assert [] + Concat(Fitting(pieces, size)) == Concat(Fitting(pieces, size));
  }

  lemma EmptyOut(size: nat)
    requires size > 0
    ensures OutInv(Out([], []), size) && OutText(Out([], [])) == []
  {
  }

  // The object driven over a tree

  lemma {:induction false} DoAllConcat(size: nat, s: Stream, a: seq<Call>, b: seq<Call>)
    requires size > 0
    ensures DoAll(size, s, a + b) == DoAll(size, DoAll(size, s, a), b)
    decreases |a|
  {
    hide Do;
    if a == [] {
      assert a + b == b;
    } else {
      assert (a + b)[1..] == a[1..] + b;
      DoAllConcat(size, Do(size, s, a[0]), a[1..], b);
    }
  }

  lemma DoAllOne(size: nat, s: Stream, c: Call)
    requires size > 0
    ensures DoAll(size, s, [c]) == Do(size, s, c)
  {
    hide Do;
    assert [c][1..] == [];
    assert DoAll(size, Do(size, s, c), []) == Do(size, s, c);
  }

  /** The calls of a tree made on the object, which has room for its nesting. */
  method WriteTree(js: JsonStream, t: Json)
    requires js.Valid() && TakesValue(js.state) && js.nestingIdx + Depth(t) <= JSON_MAX_DEPTH
    modifies js`pos, js`blocks, js`state, js`nestingIdx, js.buffer, js.nesting
    ensures js.Valid() && js.View() == DoAll(js.buffer.Length, old(js.View()), Calls(t))
    ensures js.View().place == Place(AfterScalar(old(js.state)), old(js.View()).place.nesting)
    decreases t, 1
  {
    hide DoAll, Do, Walk;
    ghost var size, s := js.buffer.Length, js.View();
    DoAllParts(size, s, Calls(t));
    WritesValue(s.place, t);
    match t
    case Array(items) =>
      js.BeginArray();
      DoAllOne(size, s, ArrayStart);
      PlaceOf(size, s, ArrayStart);
      WriteItems(js, items);
      DoAllConcat(size, s, [ArrayStart], ItemsCalls(items));
      js.EndArray();
      DoAllConcat(size, s, [ArrayStart] + ItemsCalls(items), [ArrayEnd]);
      DoAllOne(size, DoAll(size, s, [ArrayStart] + ItemsCalls(items)), ArrayEnd);
    case Object(members) =>
      js.BeginObject();
      DoAllOne(size, s, ObjectStart);
      PlaceOf(size, s, ObjectStart);
      WriteMembers(js, members);
      DoAllConcat(size, s, [ObjectStart], MembersCalls(members));
      js.EndObject();
      DoAllConcat(size, s, [ObjectStart] + MembersCalls(members), [ObjectEnd]);
      DoAllOne(size, DoAll(size, s, [ObjectStart] + MembersCalls(members)), ObjectEnd);
    case String(text) =>
      js.Str(text);
      DoAllOne(size, s, PutString(text));
    case Number(digits) =>
      js.Scalar(PutNumber(digits));
      DoAllOne(size, s, PutNumber(digits));
    case Bool(b) =>
      js.Scalar(PutBool(b));
      DoAllOne(size, s, PutBool(b));
    case Null =>
      js.Scalar(PutNull);
      DoAllOne(size, s, PutNull);
  }

  /** Where a call leads, whatever it writes. */
  lemma PlaceOf(size: nat, s: Stream, c: Call)
    requires size > 0
    ensures Do(size, s, c).place == Next(s.place, c)
  {
    hide Next, Pieces;
  }

  method WriteItems(js: JsonStream, items: Items)
    requires js.Valid() && (js.state.InArray? || js.state.ArrayItem?)
    requires js.nestingIdx + ItemsDepth(items) <= JSON_MAX_DEPTH
    modifies js`pos, js`blocks, js`state, js`nestingIdx, js.buffer, js.nesting
    ensures js.Valid() && js.View() == DoAll(js.buffer.Length, old(js.View()), ItemsCalls(items))
    ensures js.View().place == old(js.View().place).(state := if items.NoItems? then old(js.state) else ArrayItem)
    decreases items, 0
  {
    hide DoAll, Do;
    ghost var size, s := js.buffer.Length, js.View();
    match items
    case NoItems => DoNothing(size, s);
    case Item(head, tail) =>
      WriteTree(js, head);
      WriteItems(js, tail);
      DoAllConcat(size, s, Calls(head), ItemsCalls(tail));
  }

  lemma DoNothing(size: nat, s: Stream)
    requires size > 0
    ensures DoAll(size, s, []) == s
  {
  }

  method WriteMembers(js: JsonStream, members: Members)
    requires js.Valid() && (js.state.InObject? || js.state.Value?)
    requires js.nestingIdx + MembersDepth(members) <= JSON_MAX_DEPTH
    modifies js`pos, js`blocks, js`state, js`nestingIdx, js.buffer, js.nesting
    ensures js.Valid() && js.View() == DoAll(js.buffer.Length, old(js.View()), MembersCalls(members))
    ensures js.View().place == old(js.View().place).(state := if members.NoMembers? then old(js.state) else Value)
    decreases members, 0
  {
    hide DoAll, Do;
    ghost var size, s := js.buffer.Length, js.View();
    match members
    case NoMembers => DoNothing(size, s);
    case Member(key, value, rest) =>
      js.Str(key);
      DoAllOne(size, s, PutString(key));
      PlaceOf(size, s, PutString(key));
      WriteTree(js, value);
      DoAllConcat(size, s, [PutString(key)], Calls(value));
      WriteMembers(js, rest);
      DoAllConcat(size, s, [PutString(key)] + Calls(value), MembersCalls(rest));
  }

  /** A whole document on a new object: every tree of depth 30 or less is written, and the
      blocks it flushes are those of DocumentText. */
  method WriteDocument(t: Json, size: nat) returns (blocks: seq<seq<byte>>)
    requires size > 0 && Depth(t) <= JSON_MAX_DEPTH
    ensures blocks == DocumentBlocks(size, t)
    ensures Concat(blocks) == Text(t) <==> Widest(t) < size
  {
    hide DoAll, Widest, Concat, Text;
    var js := new JsonStream(size);
    WriteTree(js, t);
    js.Flush();
    blocks := js.blocks;
    DocumentText(size, t);
  }

  /** The limit is real: one more container inside 30 needs a 31st place in the array. */
  lemma {:induction false} NestingGrows(p: Place, n: nat)
    requires TakesValue(p.state)
    ensures var calls := seq(n, _ => ArrayStart);
      var q := Walk(p, calls); TakesValue(q.state) && |q.nesting| == |p.nesting| + n
    decreases n
  {
    if n > 0 {
      var calls := seq(n, _ => ArrayStart);
      assert calls[1..] == seq(n - 1, _ => ArrayStart);
      NestingGrows(Next(p, ArrayStart), n - 1);
    }
  }
}
