/** The texts cJSON writes: escaped strings, and trees in compact or indented form. */
module CJsonText {
  import opened Bytes
  import opened JsonTree

  const BACKSLASH: byte := 92
  const SLASH: byte := 47

  // Strings

  function LowerHex(d: nat): (c: byte)
    requires d < 16
  {
    if d < 10 then 48 + d else 87 + d
  }

  /** The letter of a two-character escape, or 0. */
  function ShortEscape(c: byte): byte {
    if c == QUOTE then QUOTE else if c == BACKSLASH then BACKSLASH
    else if c == 8 then 98 else if c == 12 then 102 else if c == LF then 110
    else if c == CR then 114 else if c == TAB then 116 else 0
  }

  function EscapeByte(c: byte): (e: seq<byte>)
    ensures e != []
  {
    if ShortEscape(c) != 0 then [BACKSLASH, ShortEscape(c)]
    else if c < 32 then [BACKSLASH, 117, 48, 48, LowerHex(c / 16), LowerHex(c % 16)]
    else [c]
  }

  function Escape(s: seq<byte>): seq<byte> {
    if s == [] then [] else EscapeByte(s[0]) + Escape(s[1..])
  }

  lemma {:induction false} EscapeConcat(a: seq<byte>, b: seq<byte>)
    ensures Escape(a + b) == Escape(a) + Escape(b)
    decreases |a|
  {
    hide EscapeByte;
    if a == [] {
      assert a + b == b;
    } else {
      assert (a + b)[1..] == a[1..] + b;
      EscapeConcat(a[1..], b);
    }
  }

  predicate NoNul(s: seq<byte>) { NUL !in s }

  // Trees

  function Tabs(n: nat): (t: seq<byte>)
    ensures |t| == n && forall i :: 0 <= i < n ==> t[i] == TAB
  {
    seq(n, _ => TAB)
  }

  function IfFormat(format: bool, s: seq<byte>): seq<byte> { if format then s else [] }

  /** What print_value writes for a value met at this nesting depth. */
  function Printed(t: Json, format: bool, depth: nat): seq<byte> {
    match t
    case Null => NULL_TEXT
    case Bool(b) => BoolText(b)
    case Number(digits) => digits
    case String(s) => Quoted(Escape(s))
    case Array(items) => [OPEN_ARRAY] + PrintedItems(items, format, depth + 1) + [CLOSE_ARRAY]
    case Object(members) =>
      [OPEN_OBJECT] + IfFormat(format, [LF]) + PrintedMembers(members, format, depth + 1)
      + IfFormat(format, Tabs(depth)) + [CLOSE_OBJECT]
  }

  /** The comma between two elements. */
  function Between(last: bool, format: bool): seq<byte> {
    if last then [] else [COMMA] + IfFormat(format, [SPACE])
  }

  function PrintedItems(items: Items, format: bool, depth: nat): seq<byte> {
    match items
    case NoItems => []
    case Item(head, tail) =>
      Printed(head, format, depth) + Between(tail.NoItems?, format) + PrintedItems(tail, format, depth)
  }

  /** The end of a member: a comma unless it is the last, a new line when indenting. */
  function LineEnd(last: bool, format: bool): seq<byte> {
    (if last then [] else [COMMA]) + IfFormat(format, [LF])
  }

  function KeyPart(key: seq<byte>, format: bool, depth: nat): seq<byte> {
    IfFormat(format, Tabs(depth)) + Quoted(Escape(key)) + [COLON] + IfFormat(format, [TAB])
  }

  function PrintedMembers(members: Members, format: bool, depth: nat): seq<byte> {
    match members
    case NoMembers => []
    case Member(key, value, rest) =>
      KeyPart(key, format, depth) + Printed(value, format, depth) + LineEnd(rest.NoMembers?, format)
      + PrintedMembers(rest, format, depth)
  }

  // Numbers

  /** The characters parse_number copies before it calls strtod. */
  predicate IsNumberChar(c: byte) { IsDigit(c) || c == 43 || c == 45 || c == 101 || c == 69 || c == 46 }

  function DigitsEnd(s: seq<byte>, i: nat): (j: nat)
    requires i <= |s|
    ensures i <= j <= |s| && (forall k :: i <= k < j ==> IsDigit(s[k])) && (j < |s| ==> !IsDigit(s[j]))
    decreases |s| - i
  {
    if i < |s| && IsDigit(s[i]) then DigitsEnd(s, i + 1) else i
  }

  predicate IsSign(s: seq<byte>, i: nat) { i < |s| && (s[i] == 43 || s[i] == 45) }

  /** How much of a text made of number characters strtod reads: a sign, digits with at
      most one point and at least one digit, and an exponent if it has a digit. */
  function StrtodLength(s: seq<byte>): (n: nat)
    ensures n <= |s|
  {
    var i0 := if IsSign(s, 0) then 1 else 0;
    var i1 := DigitsEnd(s, i0);
    var point := i1 < |s| && s[i1] == 46;
    var i2 := if point then DigitsEnd(s, i1 + 1) else i1;
    if i1 == i0 && (!point || i2 == i1 + 1) then 0
    else if i2 < |s| && (s[i2] == 101 || s[i2] == 69) then
      var j := if IsSign(s, i2 + 1) then i2 + 2 else i2 + 1;
      var k := DigitsEnd(s, j);
      if k > j then k else i2
    else i2
  }

  /** The size of print_number's buffer without its terminator. */
  const NUMBER_TEXT_MAX: nat := 25

  /** A number token: what sprintf may have written and strtod reads back whole. */
  predicate IsNumberToken(d: seq<byte>) {
    && 0 < |d| <= NUMBER_TEXT_MAX && (d[0] == 45 || IsDigit(d[0]))
    && (forall i :: 0 <= i < |d| ==> IsNumberChar(d[i])) && StrtodLength(d) == |d|
  }

  /** Trees of C strings and number tokens. */
  predicate IsTree(t: Json) {
    match t
    case Number(digits) => IsNumberToken(digits)
    case String(s) => NoNul(s)
    case Array(items) => AreTrees(items)
    case Object(members) => AreMembers(members)
    case _ => true
  }

  predicate AreTrees(items: Items) {
    match items
    case NoItems => true
    case Item(head, tail) => IsTree(head) && AreTrees(tail)
  }

  predicate AreMembers(members: Members) {
    match members
    case NoMembers => true
    case Member(key, value, rest) => NoNul(key) && IsTree(value) && AreMembers(rest)
  }

  // The compact text is what the streaming writer sends, for strings without escapes

  predicate Plain(t: Json) {
    match t
    case String(s) => Escape(s) == s
    case Array(items) => PlainItems(items)
    case Object(members) => PlainMembers(members)
    case _ => true
  }

  predicate PlainItems(items: Items) {
    match items
    case NoItems => true
    case Item(head, tail) => Plain(head) && PlainItems(tail)
  }

  predicate PlainMembers(members: Members) {
    match members
    case NoMembers => true
    case Member(key, value, rest) => Escape(key) == key && Plain(value) && PlainMembers(rest)
  }

  /** The two printers of the repository agree on such trees. */
  lemma {:induction false} CompactIsText(t: Json, depth: nat)
    requires Plain(t)
    ensures Printed(t, false, depth) == Text(t)
    decreases t
  {
    match t
    case Array(items) =>
      CompactItems(items, depth + 1);
      assert Separator(true) == [];
      if items.Item? { assert ItemsText(items, true) == [] + Text(items.head) + ItemsText(items.tail, false); }
    case Object(members) =>
      CompactMembers(members, depth + 1);
      var m := MembersText(members, true);
      assert [OPEN_OBJECT] + [] + m + [] + [CLOSE_OBJECT] == [OPEN_OBJECT] + m + [CLOSE_OBJECT];
    case _ =>
  }

  lemma CompactItem(h: seq<byte>, rest: seq<byte>, last: bool)
    requires last ==> rest == []
    ensures h + Between(last, false) + rest == Separator(true) + h + (if last then [] else [COMMA] + rest)
    ensures Separator(false) + h + rest == [COMMA] + (Separator(true) + h + rest)
  {
    assert [COMMA] + [] == [COMMA];
  }

  lemma {:induction false} CompactItems(items: Items, depth: nat)
    requires PlainItems(items)
    ensures PrintedItems(items, false, depth) == ItemsText(items, true)
    ensures items.Item? ==> ItemsText(items, false) == [COMMA] + PrintedItems(items, false, depth)
    decreases items
  {
    match items
    case NoItems =>
    case Item(head, tail) =>
      hide Printed, Text, Between, Separator;
      CompactIsText(head, depth);
      CompactItems(tail, depth);
      CompactItem(Text(head), PrintedItems(tail, false, depth), tail.NoItems?);
      CompactItem(Text(head), ItemsText(tail, false), tail.NoItems?);
  }

  /** One member of either printer, its key and value already compared. */
  lemma CompactMember(key: seq<byte>, v: seq<byte>, rest: seq<byte>, depth: nat, last: bool)
    requires Escape(key) == key && (last ==> rest == [])
    ensures KeyPart(key, false, depth) + v + LineEnd(last, false) + rest
         == Separator(true) + Quoted(key) + [COLON] + v + (if last then [] else [COMMA] + rest)
    ensures Separator(false) + Quoted(key) + [COLON] + v + rest
         == [COMMA] + (Separator(true) + Quoted(key) + [COLON] + v + rest)
  {
    hide Quoted;
    var q := Quoted(key);
    assert KeyPart(key, false, depth) == q + [COLON];
    assert [COMMA] + [] == [COMMA];
  }

  lemma {:induction false} CompactMembers(members: Members, depth: nat)
    requires PlainMembers(members)
    ensures PrintedMembers(members, false, depth) == MembersText(members, true)
    ensures members.Member? ==> MembersText(members, false) == [COMMA] + PrintedMembers(members, false, depth)
    decreases members
  {
    match members
    case NoMembers =>
    case Member(key, value, rest) =>
      hide Printed, Text, LineEnd, KeyPart, Separator, Quoted, Escape;
      CompactIsText(value, depth);
      CompactMembers(rest, depth);
      CompactMember(key, Text(value), PrintedMembers(rest, false, depth), depth, rest.NoMembers?);
      CompactMember(key, Text(value), MembersText(rest, false), depth, rest.NoMembers?);
  }
}
