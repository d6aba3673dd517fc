/** Parsing what was printed gives the tree back, in both formats, exactly up to the
    nesting limit. */
module CJsonRoundTrip {
  import opened Bytes
  import opened JsonTree
  import opened CJsonText
  import opened CJsonGrammar

  lemma AtConcat(c: seq<byte>, i: nat, a: seq<byte>, b: seq<byte>)
    ensures At(c, i, a + b) <==> At(c, i, a) && At(c, i + |a|, b)
  {
    if At(c, i, a + b) {
      assert c[i..i + |a|] == c[i..i + |a + b|][..|a|];
      assert c[i + |a|..i + |a| + |b|] == c[i..i + |a + b|][|a|..];
    }
    if At(c, i, a) && At(c, i + |a|, b) {
      assert c[i..i + |a + b|] == c[i..i + |a|] + c[i + |a|..i + |a| + |b|];
    }
  }

  lemma AtChar(c: seq<byte>, i: nat, word: seq<byte>, k: nat)
    requires At(c, i, word) && k < |word|
    ensures c[i + k] == word[k]
  {
    assert c[i..i + |word|][k] == c[i + k];
  }

  // Strings

  lemma HexDigits(d: nat)
    requires d < 16
    ensures IsHexDigit(LowerHex(d)) && HexOf(LowerHex(d)) == d
    ensures LowerHex(d) != QUOTE && LowerHex(d) != BACKSLASH
  {
  }

  /** One escaped byte: the scan for the closing quote steps over it. */
  lemma ScanByte(c: seq<byte>, p: nat, b: byte)
    requires At(c, p, EscapeByte(b))
    ensures ClosingQuote(c, p) == ClosingQuote(c, p + |EscapeByte(b)|)
  {
    var e := EscapeByte(b);
    AtChar(c, p, e, 0);
    if |e| == 6 {
      AtChar(c, p, e, 2); AtChar(c, p, e, 3); AtChar(c, p, e, 4); AtChar(c, p, e, 5);
      HexDigits(b / 16);
      HexDigits(b % 16);
      assert ClosingQuote(c, p + 2) == ClosingQuote(c, p + 3);
      assert ClosingQuote(c, p + 4) == ClosingQuote(c, p + 5);
    }
  }

  /** ... and unescaping it gives the byte back. */
  lemma UnescapeByte(c: seq<byte>, p: nat, b: byte, end: nat)
    requires At(c, p, EscapeByte(b)) && b != NUL && p + |EscapeByte(b)| <= end < |c|
    ensures Unescape(c, p, end) == Before([b], Unescape(c, p + |EscapeByte(b)|, end))
  {
    var e := EscapeByte(b);
    AtChar(c, p, e, 0);
    if |e| == 2 {
      AtChar(c, p, e, 1);
    } else if |e| == 6 {
      AtChar(c, p, e, 1); AtChar(c, p, e, 2); AtChar(c, p, e, 3); AtChar(c, p, e, 4); AtChar(c, p, e, 5);
      HexDigits(b / 16);
      HexDigits(b % 16);
      HexDigits(0);
      hide ClosingQuote;
      ControlHex(c, p + 2, b);
      assert Utf16(c, p, end) == (6, b);
    }
  }

  lemma ControlHex(c: seq<byte>, p: nat, b: byte)
    requires p + 4 <= |c| && c[p] == 48 && c[p + 1] == 48 && b < 32
    requires c[p + 2] == LowerHex(b / 16) && c[p + 3] == LowerHex(b % 16)
    ensures Hex4(c, p) == b
  {
    HexDigits(b / 16);
    HexDigits(b % 16);
    assert FourHex(c, p);
  }

  lemma {:induction false} ScanEscaped(c: seq<byte>, p: nat, s: seq<byte>)
    requires At(c, p, Escape(s)) && p + |Escape(s)| < |c| && c[p + |Escape(s)|] == QUOTE
    ensures ClosingQuote(c, p) == p + |Escape(s)|
    decreases |s|
  {
    hide EscapeByte, ClosingQuote, Escape, At;
    if s == [] {
      assert Escape(s) == [] by { EscapeNone(); }
      ScanAtQuote(c, p);
    } else {
      EscapeFirst(s);
      AtConcat(c, p, EscapeByte(s[0]), Escape(s[1..]));
      ScanByte(c, p, s[0]);
      ScanEscaped(c, p + |EscapeByte(s[0])|, s[1..]);
    }
  }

  lemma EscapeNone()
    ensures Escape([]) == []
  {
  }

  lemma ScanAtQuote(c: seq<byte>, p: nat)
    requires p < |c| && c[p] == QUOTE
    ensures ClosingQuote(c, p) == p
  {
  }

  lemma EscapeFirst(s: seq<byte>)
    requires s != []
    ensures Escape(s) == EscapeByte(s[0]) + Escape(s[1..])
    ensures NoNul(s) ==> s[0] != NUL && NoNul(s[1..])
  {
    hide EscapeByte;
    assert s[0] in s;
  }

  lemma {:induction false} UnescapeEscaped(c: seq<byte>, p: nat, s: seq<byte>, end: nat)
    requires At(c, p, Escape(s)) && NoNul(s) && end == p + |Escape(s)| < |c|
    ensures Unescape(c, p, end) == Parsed(s, end)
    decreases |s|
  {
    if s != [] {
      hide EscapeByte, Unescape, Escape, At, NoNul;
      EscapeFirst(s);
      AtConcat(c, p, EscapeByte(s[0]), Escape(s[1..]));
      UnescapeByte(c, p, s[0], end);
      UnescapeEscaped(c, p + |EscapeByte(s[0])|, s[1..], end);
      assert [s[0]] + s[1..] == s;
    }
  }

  /** Parsing a printed string gives that string. */
  lemma StringRoundTrip(c: seq<byte>, i: nat, s: seq<byte>)
    requires NoNul(s) && At(c, i, Quoted(Escape(s)))
    ensures i < |c| && ParseString(c, i) == Parsed(s, i + |Quoted(Escape(s))|)
  {
    hide Escape, ClosingQuote, Unescape;
    var e := Escape(s);
    AtConcat(c, i, [QUOTE] + e, [QUOTE]);
    AtConcat(c, i, [QUOTE], e);
    AtChar(c, i, [QUOTE], 0);
    AtChar(c, i + 1 + |e|, [QUOTE], 0);
    ScanEscaped(c, i + 1, s);
    UnescapeEscaped(c, i + 1, s, i + 1 + |e|);
  }

  // Numbers

  lemma {:induction false} TokenChars(c: seq<byte>, i: nat, n: nat, d: seq<byte>)
    requires At(c, i, d) && n <= |d| <= 25 && forall k :: 0 <= k < |d| ==> IsNumberChar(d[k])
    requires i + |d| < |c| && !IsNumberChar(c[i + |d|])
    ensures NumberEnd(c, i, n) == |d|
    decreases |d| - n
  {
    if n < |d| {
      AtChar(c, i, d, n);
      TokenChars(c, i, n + 1, d);
    }
  }

  lemma NumberRoundTrip(c: seq<byte>, i: nat, d: seq<byte>)
    requires IsNumberToken(d) && At(c, i, d) && i + |d| < |c| && !IsNumberChar(c[i + |d|])
    ensures ParseNumber(c, i) == Parsed(d, i + |d|)
  {
    hide StrtodLength;
    TokenChars(c, i, 0, d);
    assert c[i..i + |d|] == d && d[..|d|] == d;
  }

  // White space

  predicate Blank(c: seq<byte>, i: nat, j: nat) {
    i <= j < |c| && forall k :: i <= k < j ==> c[k] <= 32
  }

  lemma {:induction false} SkipTo(c: seq<byte>, i: nat, j: nat)
    requires Blank(c, i, j) && (c[j] > 32 || j == |c| - 1)
    ensures Skip(c, i) == j
    decreases j - i
  {
    if i < j { SkipTo(c, i + 1, j); }
  }

  // Values

  /** The character a value begins with tells what it is. */
  predicate Starts(t: Json, c: byte) {
    match t
    case Null => c == 110
    case Bool(b) => c == if b then 116 else 102
    case Number(_) => c == 45 || IsDigit(c)
    case String(_) => c == QUOTE
    case Array(_) => c == OPEN_ARRAY
    case Object(_) => c == OPEN_OBJECT
  }

  lemma FirstChar(t: Json, format: bool, depth: nat)
    requires IsTree(t)
    ensures Printed(t, format, depth) != [] && Starts(t, Printed(t, format, depth)[0])
    ensures Printed(t, format, depth)[0] > 32
  {
    hide Escape, PrintedItems, PrintedMembers;
  }

  /** parse_value's choice, once the first character is known. */
  lemma Choice(c: seq<byte>, i: nat, t: Json, depth: nat)
    requires Terminated(c) && i < |c| && Starts(t, c[i])
    requires t.Null? ==> At(c, i, NULL_TEXT)
    requires t.Bool? ==> At(c, i, BoolText(t.value))
    ensures t.Null? ==> ParseValue(c, i, depth) == Parsed(t, i + 4)
    ensures t.Bool? ==> ParseValue(c, i, depth) == Parsed(t, i + |BoolText(t.value)|)
    ensures t.String? && ParseString(c, i).Parsed? ==>
      ParseValue(c, i, depth) == Parsed(String(ParseString(c, i).value), ParseString(c, i).next)
    ensures t.Number? && ParseNumber(c, i).Parsed? ==>
      ParseValue(c, i, depth) == Parsed(Number(ParseNumber(c, i).value), ParseNumber(c, i).next)
    ensures t.Array? ==> ParseValue(c, i, depth) == ParseArray(c, i, depth)
    ensures t.Object? ==> ParseValue(c, i, depth) == ParseObject(c, i, depth)
  {
    hide ParseString, ParseNumber, ParseArray, ParseObject;
    NotWord(c, i, NULL_TEXT);
    NotWord(c, i, FALSE_TEXT);
    NotWord(c, i, TRUE_TEXT);
  }

  lemma NotWord(c: seq<byte>, i: nat, word: seq<byte>)
    requires i < |c| && word != []
    ensures At(c, i, word) ==> c[i] == word[0]
  {
    if At(c, i, word) { AtChar(c, i, word, 0); }
  }

  /** What may follow a value: anything that does not continue a number. */
  predicate Ends(c: seq<byte>, n: nat) { n < |c| && !IsNumberChar(c[n]) }

  /** The result expected of a printed tree: the tree if it is shallow enough. */
  predicate Returns<T(==)>(r: Parsed<T>, fits: bool, value: T, next: nat) {
    if fits then r == Parsed(value, next) else r.Failed?
  }

  /** parse_value on a printed value, anywhere in a text and at any depth. */
  lemma {:induction false} ValueRoundTrip(c: seq<byte>, i: nat, t: Json, format: bool, indent: nat, depth: nat)
    requires Terminated(c) && IsTree(t) && depth <= NESTING_LIMIT
    requires At(c, i, Printed(t, format, indent)) && Ends(c, i + |Printed(t, format, indent)|)
    ensures Returns(ParseValue(c, i, depth), depth + Depth(t) <= NESTING_LIMIT, t, i + |Printed(t, format, indent)|)
    decreases t
  {
    hide ParseValue, ParseString, ParseNumber, ParseArray, ParseObject, Escape, At, NoNul, Quoted, PrintedItems,
         PrintedMembers, IsNumberToken, Terminated;
    FirstChar(t, format, indent);
    AtChar(c, i, Printed(t, format, indent), 0);
    Choice(c, i, t, depth);
    match t
    case Array(items) => ArrayRoundTrip(c, i, items, format, indent, depth);
    case Object(members) => ObjectRoundTrip(c, i, members, format, indent, depth);
    case Number(d) => NumberRoundTrip(c, i, d);
    case String(s) => StringRoundTrip(c, i, s);
    case _ =>
  }

  lemma {:induction false} ArrayRoundTrip(c: seq<byte>, i: nat, items: Items, format: bool, indent: nat, depth: nat)
    requires Terminated(c) && AreTrees(items) && depth <= NESTING_LIMIT
    requires At(c, i, Printed(Array(items), format, indent)) && i < |c| && c[i] == OPEN_ARRAY
    ensures Returns(ParseArray(c, i, depth), depth + Depth(Array(items)) <= NESTING_LIMIT, Array(items),
                    i + |Printed(Array(items), format, indent)|)
    decreases items, 1
  {
    hide ParseArray, ParseItems, At, PrintedItems, AreTrees, Printed, Skip, Blank, ItemsDepth;
    var inner := PrintedItems(items, format, indent + 1);
    ArrayPlaces(c, i, items, format, indent);
    ArrayStep(c, i, depth);
    NoDepth();
    if depth < NESTING_LIMIT {
      ItemsHead(items, format, indent + 1);
      if items.Item? { AtChar(c, i + 1, inner, 0); }
      SkipTo(c, i + 1, i + 1);
      if items.Item? { ItemsRoundTrip(c, i + 1, i + 1, items, format, indent + 1, depth + 1); }
    }
  }

  lemma NoDepth()
    ensures ItemsDepth(NoItems) == 0
  {
  }

  /** The grammar's step into an array. */
  lemma ArrayStep(c: seq<byte>, i: nat, depth: nat)
    requires Terminated(c) && i < |c| && c[i] == OPEN_ARRAY
    ensures i + 1 < |c|
    ensures depth >= NESTING_LIMIT ==> ParseArray(c, i, depth).Failed?
    ensures var j := Skip(c, i + 1);
      depth < NESTING_LIMIT ==>
        if c[j] == CLOSE_ARRAY then ParseArray(c, i, depth) == Parsed(Array(NoItems), j + 1)
        else var r := ParseItems(c, j, depth + 1);
             ParseArray(c, i, depth) == if r.Parsed? then Parsed(Array(r.value), r.next) else Failed(r.at)
  {
    hide ParseItems, Skip;
  }

  /** Where the parts of a printed array stand. */
  lemma ArrayPlaces(c: seq<byte>, i: nat, items: Items, format: bool, indent: nat)
    requires At(c, i, Printed(Array(items), format, indent))
    ensures var inner := PrintedItems(items, format, indent + 1);
      && |Printed(Array(items), format, indent)| == |inner| + 2
      && i + 1 + |inner| < |c| && c[i + 1 + |inner|] == CLOSE_ARRAY
      && At(c, i + 1, inner) && At(c, i + 1, inner + [CLOSE_ARRAY]) && Blank(c, i + 1, i + 1)
  {
    hide At, PrintedItems, Printed, Blank;
    var inner := PrintedItems(items, format, indent + 1);
    ArrayUnfold(items, format, indent);
    AtConcat(c, i, [OPEN_ARRAY] + inner, [CLOSE_ARRAY]);
    AtConcat(c, i, [OPEN_ARRAY], inner);
    AtConcat(c, i + 1, inner, [CLOSE_ARRAY]);
    AtInside(c, i + 1 + |inner|, [CLOSE_ARRAY]);
    AtChar(c, i + 1 + |inner|, [CLOSE_ARRAY], 0);
    NoGap(c, i + 1);
  }

  lemma ArrayUnfold(items: Items, format: bool, indent: nat)
    ensures Printed(Array(items), format, indent)
         == [OPEN_ARRAY] + PrintedItems(items, format, indent + 1) + [CLOSE_ARRAY]
  {
    hide PrintedItems;
  }

  lemma AtInside(c: seq<byte>, i: nat, word: seq<byte>)
    requires At(c, i, word)
    ensures i + |word| <= |c|
  {
  }

  lemma ItemsHead(items: Items, format: bool, indent: nat)
    requires AreTrees(items)
    ensures items.NoItems? ==> PrintedItems(items, format, indent) == []
    ensures items.Item? ==> PrintedItems(items, format, indent) != []
    ensures items.Item? ==>
      var first := PrintedItems(items, format, indent)[0]; first > 32 && first != CLOSE_ARRAY
  {
    if items.Item? {
      hide Printed;
      FirstChar(items.head, format, indent);
    }
  }

  lemma {:induction false} ItemsRoundTrip(c: seq<byte>, j: nat, i: nat, items: Items, format: bool, indent: nat, depth: nat)
    requires Terminated(c) && items.Item? && AreTrees(items) && depth <= NESTING_LIMIT && Blank(c, j, i)
    requires At(c, i, PrintedItems(items, format, indent) + [CLOSE_ARRAY])
    ensures Returns(ParseItems(c, j, depth), depth + ItemsDepth(items) <= NESTING_LIMIT, items,
                    i + |PrintedItems(items, format, indent)| + 1)
    decreases items, 0
  {
    hide ParseValue, ParseItems, At, Printed, PrintedItems, Blank, Skip, Between, Terminated, AreTrees, IsTree, Depth;
    var head, tail := items.head, items.tail;
    var h := Printed(head, format, indent);
    var n := ItemPlaces(c, j, i, items, format, indent);
    ItemsUnfold(items, format, indent);
    ValueRoundTrip(c, i, head, format, indent, depth);
    ItemStep(c, j, depth);
    if tail.Item? {
      ItemsRoundTrip(c, n + 1, n + |Between(false, format)|, tail, format, indent, depth);
    }
  }

  /** The grammar's step over one element. */
  lemma ItemStep(c: seq<byte>, j: nat, depth: nat)
    requires Terminated(c) && j < |c|
    ensures var v := ParseValue(c, Skip(c, j), depth);
      && (v.Failed? ==> ParseItems(c, j, depth).Failed?)
      && (v.Parsed? && c[Skip(c, v.next)] == CLOSE_ARRAY ==>
           ParseItems(c, j, depth) == Parsed(Item(v.value, NoItems), Skip(c, v.next) + 1))
      && (v.Parsed? && c[Skip(c, v.next)] == COMMA ==>
           Skip(c, v.next) + 1 < |c| &&
           var r := ParseItems(c, Skip(c, v.next) + 1, depth);
           ParseItems(c, j, depth) == if r.Parsed? then Parsed(Item(v.value, r.value), r.next) else Failed(r.at))
  {
    hide ParseValue, Skip;
  }

  lemma ItemsUnfold(items: Items, format: bool, indent: nat)
    requires items.Item?
    ensures PrintedItems(items, format, indent) ==
      Printed(items.head, format, indent) + Between(items.tail.NoItems?, format) + PrintedItems(items.tail, format, indent)
    ensures items.tail.NoItems? ==> Between(true, format) == [] && PrintedItems(items.tail, format, indent) == []
    ensures AreTrees(items) ==> IsTree(items.head) && AreTrees(items.tail)
  {
    hide Printed;
  }

  /** Where an element, what follows it and the rest stand. */
  lemma ItemPlaces(c: seq<byte>, j: nat, i: nat, items: Items, format: bool, indent: nat) returns (n: nat)
    requires items.Item? && AreTrees(items) && Blank(c, j, i)
    requires At(c, i, PrintedItems(items, format, indent) + [CLOSE_ARRAY])
    ensures var h := Printed(items.head, format, indent); var b := Between(false, format);
      && n == i + |h| && At(c, i, h) && Ends(c, n) && Skip(c, n) == n && i < |c| && Skip(c, j) == i
      && (if items.tail.NoItems? then c[n] == CLOSE_ARRAY
          else c[n] == COMMA && b != [] && n + |b| < |c| && Blank(c, n + 1, n + |b|)
               && At(c, n + |b|, PrintedItems(items.tail, format, indent) + [CLOSE_ARRAY]))
  {
    hide At, Printed, PrintedItems, Blank, Skip;
    var head, tail := items.head, items.tail;
    ItemsUnfold(items, format, indent);
    var h, b, rest := Printed(head, format, indent), Between(tail.NoItems?, format), PrintedItems(tail, format, indent);
    var e := [CLOSE_ARRAY];
    assert (h + b + rest) + e == h + (b + (rest + e));
    AtConcat(c, i, h, b + (rest + e));
    AtConcat(c, i + |h|, b, rest + e);
    FirstChar(head, format, indent);
    AtChar(c, i, h, 0);
    AtInside(c, i, h);
    SkipTo(c, j, i);
    n := i + |h|;
    AtInside(c, n, b + (rest + e));
    AtChar(c, n, b + (rest + e), 0);
    Still(c, n);
    if tail.NoItems? {
      assert b + (rest + e) == e;
    } else {
      assert (b + (rest + e))[0] == COMMA;
      Gap(c, n, b, format);
      AtInside(c, n + |b|, rest + e);
      GapBlank(c, n, b);
    }
  }

  lemma Still(c: seq<byte>, n: nat)
    requires n < |c|
    ensures c[n] > 32 ==> Skip(c, n) == n
  {
  }

  /** The blanks after a comma between elements. */
  lemma Gap(c: seq<byte>, n: nat, b: seq<byte>, format: bool)
    requires At(c, n, b) && b == Between(false, format)
    ensures forall k :: n + 1 <= k < n + |b| ==> c[k] <= 32
  {
    forall k | n + 1 <= k < n + |b| ensures c[k] <= 32 { AtChar(c, n, b, k - n); }
  }

  lemma GapBlank(c: seq<byte>, n: nat, b: seq<byte>)
    requires b != [] && n + |b| < |c| && forall k :: n + 1 <= k < n + |b| ==> c[k] <= 32
    ensures Blank(c, n + 1, n + |b|)
  {
  }

  lemma BlankText(c: seq<byte>, i: nat, word: seq<byte>, j: nat)
    requires At(c, i, word) && j == i + |word| < |c| && forall k :: 0 <= k < |word| ==> word[k] <= 32
    ensures Blank(c, i, j)
  {
    forall k | i <= k < j ensures c[k] <= 32 { AtChar(c, i, word, k - i); }
  }

  lemma BlankJoin(c: seq<byte>, i: nat, j: nat, k: nat)
    requires Blank(c, i, j) && Blank(c, j, k)
    ensures Blank(c, i, k)
  {
  }

  lemma IndentBlank(format: bool, n: nat)
    ensures forall k :: 0 <= k < |IfFormat(format, Tabs(n))| ==> IfFormat(format, Tabs(n))[k] <= 32
    ensures forall k :: 0 <= k < |IfFormat(format, [LF])| ==> IfFormat(format, [LF])[k] <= 32
    ensures forall k :: 0 <= k < |IfFormat(format, [TAB])| ==> IfFormat(format, [TAB])[k] <= 32
  {
  }

  /** A printed key, looked for from j: the name, and then the place of the value. */
  lemma NameRoundTrip(c: seq<byte>, j: nat, i: nat, key: seq<byte>, format: bool, indent: nat)
    requires Terminated(c) && NoNul(key) && At(c, i, KeyPart(key, format, indent))
    requires Blank(c, j, i + |IfFormat(format, Tabs(indent))|)
    requires var e := i + |KeyPart(key, format, indent)|; e < |c| && c[e] > 32
    ensures var r := ParseName(c, j);
      r.Parsed? && r.value == key && Skip(c, r.next) == i + |KeyPart(key, format, indent)|
  {
    hide Escape, At, Quoted, Skip, ParseString, Blank, Tabs, IfFormat;
    var t, q, a := IfFormat(format, Tabs(indent)), Quoted(Escape(key)), IfFormat(format, [TAB]);
    AtConcat(c, i, t + q + [COLON], a);
    AtConcat(c, i, t + q, [COLON]);
    AtConcat(c, i, t, q);
    var k := i + |t|;
    QuoteFirst(key);
    AtChar(c, k, q, 0);
    SkipTo(c, j, k);
    StringRoundTrip(c, k, key);
    var n := k + |q|;
    AtChar(c, n, [COLON], 0);
    AtInside(c, n, [COLON]);
    Still(c, n);
    IndentBlank(format, 0);
    BlankText(c, n + 1, a, n + 1 + |a|);
    SkipTo(c, n + 1, n + 1 + |a|);
  }

  lemma QuoteFirst(key: seq<byte>)
    ensures Quoted(Escape(key)) != [] && Quoted(Escape(key))[0] == QUOTE
  {
  }

  /** The end of an object: its indentation and the brace. */
  function Closing(format: bool, indent: nat): seq<byte> { IfFormat(format, Tabs(indent)) + [CLOSE_OBJECT] }

  lemma ClosingBlank(c: seq<byte>, i: nat, format: bool, indent: nat)
    requires At(c, i, Closing(format, indent))
    ensures var q := i + |IfFormat(format, Tabs(indent))|; q < |c| && Blank(c, i, q) && c[q] == CLOSE_OBJECT
  {
    hide At, Blank, Tabs, IfFormat;
    var t := IfFormat(format, Tabs(indent));
    AtConcat(c, i, t, [CLOSE_OBJECT]);
    AtChar(c, i + |t|, [CLOSE_OBJECT], 0);
    AtInside(c, i + |t|, [CLOSE_OBJECT]);
    IndentBlank(format, indent);
    BlankText(c, i, t, i + |t|);
  }

  /** What follows the last member: the end of its line and the closing brace. */
  lemma AfterLast(c: seq<byte>, n: nat, format: bool, indent: nat)
    requires At(c, n, LineEnd(true, format) + Closing(format, indent))
    ensures n < |c| && Skip(c, n) == n + |LineEnd(true, format)| + |Closing(format, indent)| - 1
    ensures c[Skip(c, n)] == CLOSE_OBJECT
    ensures Ends(c, n)
  {
    hide At, Blank, Tabs, IfFormat, Skip, Closing;
    var l := LineEnd(true, format);
    assert l == IfFormat(format, [LF]);
    AtConcat(c, n, l, Closing(format, indent));
    ClosingBlank(c, n + |l|, format, indent);
    IndentBlank(format, 0);
    BlankText(c, n, l, n + |l|);
    var q := n + |l| + |IfFormat(format, Tabs(indent))|;
    BlankJoin(c, n, n + |l|, q);
    SkipTo(c, n, q);
    assert |Closing(format, indent)| == |IfFormat(format, Tabs(indent))| + 1 by { ClosingLength(format, indent); }
    BlankEnds(c, n, q);
  }

  lemma ClosingLength(format: bool, indent: nat)
    ensures |Closing(format, indent)| == |IfFormat(format, Tabs(indent))| + 1
  {
  }

  lemma BlankEnds(c: seq<byte>, i: nat, j: nat)
    requires Blank(c, i, j) && c[j] == CLOSE_OBJECT
    ensures Ends(c, i)
  {
    assert i < j ==> c[i] <= 32;
  }

  /** What follows another member: a comma, then the end of the line. */
  lemma AfterComma(c: seq<byte>, n: nat, format: bool, indent: nat, rest: seq<byte>)
    requires At(c, n, LineEnd(false, format) + rest)
    requires IfFormat(format, Tabs(indent)) <= rest && |rest| > |IfFormat(format, Tabs(indent))|
    ensures n < |c| && Skip(c, n) == n && c[n] == COMMA && Ends(c, n)
    ensures At(c, n + |LineEnd(false, format)|, rest)
    ensures Blank(c, n + 1, n + |LineEnd(false, format)| + |IfFormat(format, Tabs(indent))|)
  {
    hide At, Blank, Tabs, IfFormat;
    var l, t := IfFormat(format, [LF]), IfFormat(format, Tabs(indent));
    assert LineEnd(false, format) == [COMMA] + l;
    AtConcat(c, n, LineEnd(false, format), rest);
    AtConcat(c, n, [COMMA], l);
    AtChar(c, n, [COMMA], 0);
    AtInside(c, n, [COMMA]);
    Still(c, n);
    AtInside(c, n + 1 + |l|, rest);
    assert rest == t + rest[|t|..];
    AtConcat(c, n + 1 + |l|, t, rest[|t|..]);
    IndentBlank(format, indent);
    BlankText(c, n + 1, l, n + 1 + |l|);
    BlankText(c, n + 1 + |l|, t, n + 1 + |l| + |t|);
    BlankJoin(c, n + 1, n + 1 + |l|, n + 1 + |l| + |t|);
  }

  lemma MembersHead(members: Members, format: bool, indent: nat, e: seq<byte>)
    requires members.Member?
    ensures var m := PrintedMembers(members, format, indent) + e; var t := IfFormat(format, Tabs(indent));
      t <= m && |m| > |t| && m[|t|] == QUOTE
  {
    hide Printed, PrintedMembers, Escape, Tabs, LineEnd;
    var key, value, rest := members.key, members.value, members.rest;
    var t, k := IfFormat(format, Tabs(indent)), KeyPart(key, format, indent);
    assert PrintedMembers(members, format, indent) ==
      k + Printed(value, format, indent) + LineEnd(rest.NoMembers?, format) + PrintedMembers(rest, format, indent)
      by { MembersUnfold(members, format, indent); }
    QuoteFirst(key);
    assert k == t + (Quoted(Escape(key)) + [COLON] + IfFormat(format, [TAB]));
    assert k[|t|] == Quoted(Escape(key))[0];
  }

  lemma MembersUnfold(members: Members, format: bool, indent: nat)
    requires members.Member?
    ensures PrintedMembers(members, format, indent) ==
      KeyPart(members.key, format, indent) + Printed(members.value, format, indent)
      + LineEnd(members.rest.NoMembers?, format) + PrintedMembers(members.rest, format, indent)
  {
  }

  /** Where the parts of a member stand. */
  lemma MemberPlaces(c: seq<byte>, i: nat, members: Members, format: bool, indent: nat)
    requires members.Member? && AreMembers(members)
    requires At(c, i, PrintedMembers(members, format, indent + 1) + Closing(format, indent))
    ensures var k, v := KeyPart(members.key, format, indent + 1), Printed(members.value, format, indent + 1);
      var l, m := LineEnd(members.rest.NoMembers?, format), PrintedMembers(members.rest, format, indent + 1);
      && At(c, i, k) && At(c, i + |k|, v) && At(c, i + |k| + |v|, l + (m + Closing(format, indent)))
      && v != [] && i + |k| < |c| && c[i + |k|] == v[0] && v[0] > 32
      && |PrintedMembers(members, format, indent + 1)| == |k| + |v| + |l| + |m|
  {
    hide At, Printed, PrintedMembers, KeyPart, LineEnd, Closing;
    var k, v := KeyPart(members.key, format, indent + 1), Printed(members.value, format, indent + 1);
    var l, m := LineEnd(members.rest.NoMembers?, format), PrintedMembers(members.rest, format, indent + 1);
    var e := Closing(format, indent);
    MembersUnfold(members, format, indent + 1);
    assert (k + v + l + m) + e == k + (v + (l + (m + e)));
    AtConcat(c, i, k, v + (l + (m + e)));
    AtConcat(c, i + |k|, v, l + (m + e));
    FirstChar(members.value, format, indent + 1);
    AtChar(c, i + |k|, v, 0);
    AtInside(c, i + |k|, v);
  }

  lemma {:induction false} MembersRoundTrip(c: seq<byte>, j: nat, i: nat, members: Members, format: bool, indent: nat, depth: nat)
    requires Terminated(c) && members.Member? && AreMembers(members) && depth <= NESTING_LIMIT
    requires At(c, i, PrintedMembers(members, format, indent + 1) + Closing(format, indent))
    requires Blank(c, j, i + |IfFormat(format, Tabs(indent + 1))|)
    ensures Returns(ParseMembers(c, j, depth), depth + MembersDepth(members) <= NESTING_LIMIT, members,
                    i + |PrintedMembers(members, format, indent + 1)| + |Closing(format, indent)|)
    decreases members, 0
  {
    hide ParseValue, ParseMembers, At, Printed, Blank, Skip, KeyPart, LineEnd, Closing, ParseName, IfFormat, Tabs, NoNul, Terminated,
         Depth;
    var value, rest := members.value, members.rest;
    var k, v := KeyPart(members.key, format, indent + 1), Printed(value, format, indent + 1);
    var l, m := LineEnd(rest.NoMembers?, format), PrintedMembers(rest, format, indent + 1);
    var e := Closing(format, indent);
    hide PrintedMembers;
    MemberPlaces(c, i, members, format, indent);
    NameRoundTrip(c, j, i, members.key, format, indent + 1);
    MemberStep(c, j, depth);
    var n := i + |k| + |v|;
    if rest.NoMembers? {
      assert m + e == e;
      AfterLast(c, n, format, indent);
      ValueRoundTrip(c, i + |k|, value, format, indent + 1, depth);
    } else {
      MembersHead(rest, format, indent + 1, e);
      AfterComma(c, n, format, indent + 1, m + e);
      ValueRoundTrip(c, i + |k|, value, format, indent + 1, depth);
      MembersRoundTrip(c, n + 1, n + |l|, rest, format, indent, depth);
    }
  }

  /** The grammar's step over one member. */
  lemma MemberStep(c: seq<byte>, j: nat, depth: nat)
    requires Terminated(c) && j < |c|
    ensures var k := ParseName(c, j);
      k.Parsed? ==>
        var v := ParseValue(c, Skip(c, k.next), depth);
        && (v.Failed? ==> ParseMembers(c, j, depth).Failed?)
        && (v.Parsed? && c[Skip(c, v.next)] == CLOSE_OBJECT ==>
             ParseMembers(c, j, depth) == Parsed(Member(k.value, v.value, NoMembers), Skip(c, v.next) + 1))
        && (v.Parsed? && c[Skip(c, v.next)] == COMMA ==>
             Skip(c, v.next) + 1 < |c| &&
             var r := ParseMembers(c, Skip(c, v.next) + 1, depth);
             ParseMembers(c, j, depth) ==
               if r.Parsed? then Parsed(Member(k.value, v.value, r.value), r.next) else Failed(r.at))
  {
    hide ParseName, ParseValue, Skip;
  }

  lemma {:induction false} ObjectRoundTrip(c: seq<byte>, i: nat, members: Members, format: bool, indent: nat, depth: nat)
    requires Terminated(c) && AreMembers(members) && depth <= NESTING_LIMIT
    requires At(c, i, Printed(Object(members), format, indent)) && i < |c| && c[i] == OPEN_OBJECT
    ensures Returns(ParseObject(c, i, depth), depth + Depth(Object(members)) <= NESTING_LIMIT, Object(members),
                    i + |Printed(Object(members), format, indent)|)
    decreases members, 1
  {
    hide ParseMembers, At, Printed, PrintedMembers, AreMembers, Closing, Blank, Skip, IfFormat, Tabs, Terminated;
    var l, m, e := IfFormat(format, [LF]), PrintedMembers(members, format, indent + 1), Closing(format, indent);
    var s, q := ObjectPlaces(c, i, members, format, indent);
    hide ParseObject, Depth, Returns;
    ObjectStarts(c, i, depth, q);
    DepthOf(members);
    if depth < NESTING_LIMIT {
      SkipTo(c, i + 1, q);
      if members.Member? {
        NoGap(c, q);
        MembersRoundTrip(c, q, s, members, format, indent, depth + 1);
        Passed(ParseMembers(c, q, depth + 1), ParseObject(c, i, depth), depth + Depth(Object(members)) <= NESTING_LIMIT, members,
               i + |Printed(Object(members), format, indent)|);
      } else {
        Arrived(Object(members), q + 1);
      }
    } else {
      Refused(ParseObject(c, i, depth), Object(members), i + |Printed(Object(members), format, indent)|);
    }
  }

  lemma DepthOf(members: Members)
    ensures Depth(Object(members)) == 1 + MembersDepth(members) && (members.NoMembers? ==> Depth(Object(members)) == 1)
  {
  }

  /** How parse_object goes on, by the first character after the brace and its blanks. */
  lemma ObjectStarts(c: seq<byte>, i: nat, depth: nat, q: nat)
    requires Terminated(c) && i < |c| && c[i] == OPEN_OBJECT && q < |c|
    ensures depth >= NESTING_LIMIT ==> ParseObject(c, i, depth).Failed?
    ensures depth < NESTING_LIMIT && Skip(c, i + 1) == q ==>
      ParseObject(c, i, depth) ==
        if c[q] == CLOSE_OBJECT then Parsed(Object(NoMembers), q + 1) else OfMembers(ParseMembers(c, q, depth + 1))
  {
    hide ParseMembers, Skip, Terminated;
  }

  function OfMembers(r: Parsed<Members>): Parsed<Json> {
    match r
    case Parsed(members, next) => Parsed(Object(members), next)
    case Failed(at) => Failed(at)
  }

  lemma Passed(r: Parsed<Members>, o: Parsed<Json>, fits: bool, members: Members, next: nat)
    requires Returns(r, fits, members, next) && o == OfMembers(r)
    ensures Returns(o, fits, Object(members), next)
  {
  }

  lemma Arrived(t: Json, next: nat)
    ensures Returns(Parsed(t, next), true, t, next)
  {
  }

  lemma Refused(r: Parsed<Json>, t: Json, next: nat)
    requires r.Failed?
    ensures Returns(r, false, t, next)
  {
  }

  /** Where the members of a printed object stand, and the first character after its blanks. */
  lemma ObjectPlaces(c: seq<byte>, i: nat, members: Members, format: bool, indent: nat) returns (s: nat, q: nat)
    requires At(c, i, Printed(Object(members), format, indent))
    ensures var m := PrintedMembers(members, format, indent + 1);
      && At(c, s, m + Closing(format, indent)) && Blank(c, i + 1, q) && q < |c| && c[q] > 32
      && i + |Printed(Object(members), format, indent)| == s + |m| + |Closing(format, indent)|
      && (if members.NoMembers? then c[q] == CLOSE_OBJECT && q + 1 == i + |Printed(Object(members), format, indent)|
          else c[q] == QUOTE && q == s + |IfFormat(format, Tabs(indent + 1))|)
  {
    hide At, Printed, PrintedMembers, Closing, Blank, IfFormat, Tabs;
    var l, m, e := IfFormat(format, [LF]), PrintedMembers(members, format, indent + 1), Closing(format, indent);
    ObjectUnfold(members, format, indent);
    AtConcat(c, i, [OPEN_OBJECT], l + (m + e));
    AtConcat(c, i + 1, l, m + e);
    AtInside(c, i + 1 + |l|, m + e);
    IndentBlank(format, indent + 1);
    s := i + 1 + |l|;
    if members.NoMembers? {
      NoMembersText(format, indent + 1);
      assert m + e == e;
      ClosingBlank(c, s, format, indent);
      ClosingLength(format, indent);
      BlankText(c, i + 1, l, s);
      q := s + |IfFormat(format, Tabs(indent))|;
    } else {
      var t := IfFormat(format, Tabs(indent + 1));
      MembersHead(members, format, indent + 1, e);
      assert m + e == t + (m + e)[|t|..];
      AtConcat(c, s, t, (m + e)[|t|..]);
      AtChar(c, s, m + e, |t|);
      BlankText(c, i + 1, l, s);
      BlankText(c, s, t, s + |t|);
      q := s + |t|;
    }
    BlankJoin(c, i + 1, s, q);
  }

  lemma NoGap(c: seq<byte>, i: nat)
    requires i < |c|
    ensures Blank(c, i, i)
  {
  }

  lemma NoMembersText(format: bool, indent: nat)
    ensures PrintedMembers(NoMembers, format, indent) == []
  {
  }

  lemma ObjectUnfold(members: Members, format: bool, indent: nat)
    ensures Printed(Object(members), format, indent) ==
      [OPEN_OBJECT] + (IfFormat(format, [LF]) + (PrintedMembers(members, format, indent + 1) + Closing(format, indent)))
  {
    hide PrintedMembers, Tabs;
  }

  // Whole texts

  /** Every tree of number tokens and NUL-free strings, printed in either format, parses
      back to itself exactly when it is nested at most 1000 deep. */
  lemma TreeRoundTrip(t: Json, format: bool, whole: bool)
    requires IsTree(t)
    ensures NoNul(Printed(t, format, 0))
    ensures Returns(ParseText(Printed(t, format, 0), whole), Depth(t) <= NESTING_LIMIT, t, |Printed(t, format, 0)|)
  {
    hide ParseValue, Printed, Depth, NESTING_LIMIT, IsTree, Skip;
    var text := Printed(t, format, 0);
    var c := text + [NUL];
    PrintedNoNul(t, format, 0);
    FirstChar(t, format, 0);
    assert c[0] == text[0] && c[0] != 0xEF;
    TextTerminated(text);
    assert At(c, 0, text) by { assert c[0..|text|] == text; }
    SkipTo(c, 0, 0) by { NoGap(c, 0); }
    assert c[|text|] == NUL;
    ValueRoundTrip(c, 0, t, format, 0, 0) by { assert 0 <= NESTING_LIMIT; }
    SkipTo(c, |text|, |text|) by { NoGap(c, |text|); }
  }

  lemma TextTerminated(text: seq<byte>)
    requires NoNul(text)
    ensures Terminated(text + [NUL])
  {
    var c := text + [NUL];
    forall i | 0 <= i < |c| - 1 ensures c[i] != NUL { assert c[i] == text[i] && text[i] in text; }
  }

  lemma {:induction false} EscapeNoNul(s: seq<byte>)
    requires NoNul(s)
    ensures NoNul(Escape(s))
    decreases |s|
  {
    if s != [] {
      EscapeNoNul(s[1..]);
      assert s[0] in s;
    }
  }

  lemma {:induction false} PrintedNoNul(t: Json, format: bool, depth: nat)
    requires IsTree(t)
    ensures NoNul(Printed(t, format, depth))
    decreases t
  {
    match t
    case String(s) =>
      EscapeNoNul(s);
    case Number(d) =>
    case Array(items) =>
      hide NoNul, PrintedItems, AreTrees;
      ItemsNoNul(items, format, depth + 1);
      NoNulJoin([OPEN_ARRAY], PrintedItems(items, format, depth + 1));
      NoNulJoin([OPEN_ARRAY] + PrintedItems(items, format, depth + 1), [CLOSE_ARRAY]);
      SignsNoNul();
    case Object(members) =>
      hide NoNul, PrintedMembers, AreMembers, IfFormat, Tabs;
      var m, l, e := PrintedMembers(members, format, depth + 1), IfFormat(format, [LF]), IfFormat(format, Tabs(depth));
      MembersNoNul(members, format, depth + 1);
      SignsNoNul();
      BlanksNoNul(format, depth);
      NoNulJoin([OPEN_OBJECT], l);
      NoNulJoin([OPEN_OBJECT] + l, m);
      NoNulJoin([OPEN_OBJECT] + l + m, e);
      NoNulJoin([OPEN_OBJECT] + l + m + e, [CLOSE_OBJECT]);
    case _ =>
  }

  lemma NoNulJoin(a: seq<byte>, b: seq<byte>)
    requires NoNul(a) && NoNul(b)
    ensures NoNul(a + b)
  {
  }

  lemma SignsNoNul()
    ensures NoNul([OPEN_ARRAY]) && NoNul([CLOSE_ARRAY]) && NoNul([OPEN_OBJECT]) && NoNul([CLOSE_OBJECT]) && NoNul([COLON])
  {
  }

  lemma BlanksNoNul(format: bool, depth: nat)
    ensures NoNul(IfFormat(format, [LF])) && NoNul(IfFormat(format, Tabs(depth))) && NoNul(IfFormat(format, [TAB]))
  {
  }

  lemma {:induction false} ItemsNoNul(items: Items, format: bool, depth: nat)
    requires AreTrees(items)
    ensures NoNul(PrintedItems(items, format, depth))
    decreases items
  {
    hide Printed;
    if items.Item? {
      PrintedNoNul(items.head, format, depth);
      ItemsNoNul(items.tail, format, depth);
    }
  }

  lemma {:induction false} MembersNoNul(members: Members, format: bool, depth: nat)
    requires AreMembers(members)
    ensures NoNul(PrintedMembers(members, format, depth))
    decreases members
  {
    hide Printed, Escape;
    if members.Member? {
      EscapeNoNul(members.key);
      PrintedNoNul(members.value, format, depth);
      MembersNoNul(members.rest, format, depth);
    }
  }
}
