/** What cJSON's parser accepts and builds, position by position: the specification
    that the parser object of CJsonParser meets. */
module CJsonGrammar {
  import opened Bytes
  import opened JsonTree
  import opened CJsonText

  const NESTING_LIMIT: nat := 1000

  /** A result and the offset after it, or the offset of the failure. */
  datatype Parsed<T> = Parsed(value: T, next: nat) | Failed(at: nat)

  /** A C string with its terminator, as cJSON_ParseWithOpts hands it on. */
  predicate Terminated(c: seq<byte>) {
    c != [] && c[|c| - 1] == NUL && forall i :: 0 <= i < |c| - 1 ==> c[i] != NUL
  }

  function SkipSpace(c: seq<byte>, i: nat): (j: nat)
    requires i <= |c|
    ensures i <= j <= |c|
    decreases |c| - i
  {
    if i < |c| && c[i] <= 32 then SkipSpace(c, i + 1) else i
  }

  /** buffer_skip_whitespace: never past the last character. */
  function Skip(c: seq<byte>, i: nat): (j: nat)
    requires i < |c|
    ensures i <= j < |c|
  {
    var j := SkipSpace(c, i);
    if j == |c| then j - 1 else j
  }

  predicate At(c: seq<byte>, i: nat, word: seq<byte>) {
    i + |word| <= |c| && c[i..i + |word|] == word
  }

  // Strings

  /** The closing quote, stepping over escaped characters; |c| if there is none. */
  function ClosingQuote(c: seq<byte>, p: nat): (q: nat)
    ensures q >= |c| || (p <= q < |c| && c[q] == QUOTE)
    decreases |c| - p
  {
    if p >= |c| then |c|
    else if c[p] == QUOTE then p
    else if c[p] == BACKSLASH then ClosingQuote(c, p + 2)
    else ClosingQuote(c, p + 1)
  }

  predicate IsHexDigit(c: byte) { IsDigit(c) || 65 <= c <= 70 || 97 <= c <= 102 }

  function HexOf(c: byte): (d: nat)
    requires IsHexDigit(c)
    ensures d < 16
  {
    if IsDigit(c) then c - 48 else if c <= 70 then c - 55 else c - 87
  }

  predicate FourHex(c: seq<byte>, p: nat) {
    p + 4 <= |c| && forall k :: p <= k < p + 4 ==> IsHexDigit(c[k])
  }

  /** parse_hex4: 0 if one of the characters is no hexadecimal digit. */
  function Hex4(c: seq<byte>, p: nat): (h: nat)
    ensures h < 0x10000
  {
    if FourHex(c, p) then ((HexOf(c[p]) * 16 + HexOf(c[p + 1])) * 16 + HexOf(c[p + 2])) * 16 + HexOf(c[p + 3])
    else 0
  }

  /** RFC 3629, section 3. */
  function Utf8(cp: nat): (u: seq<byte>)
    requires cp <= 0x10FFFF
    ensures 1 <= |u| <= 4
  {
    if cp < 0x80 then [cp]
    else if cp < 0x800 then [0xC0 + cp / 64, 0x80 + cp % 64]
    else if cp < 0x10000 then [0xE0 + cp / 4096, 0x80 + cp / 64 % 64, 0x80 + cp % 64]
    else [0xF0 + cp / 262144, 0x80 + cp / 4096 % 64, 0x80 + cp / 64 % 64, 0x80 + cp % 64]
  }

  /** One \uXXXX escape or surrogate pair at p: how many characters it takes and the
      code point; 0 characters when it is malformed. */
  function Utf16(c: seq<byte>, p: nat, end: nat): (r: (nat, nat))
    requires p <= end <= |c|
    ensures (r.0 == 0 || r.0 == 6 || r.0 == 12) && p + r.0 <= end && r.1 <= 0x10FFFF
  {
    if end - p < 6 then (0, 0)
    else
      var first := Hex4(c, p + 2);
      if 0xDC00 <= first <= 0xDFFF then (0, 0)
      else if 0xD800 <= first <= 0xDBFF then
        if end - (p + 6) < 6 || c[p + 6] != BACKSLASH || c[p + 7] != 117 then (0, 0)
        else
          var second := Hex4(c, p + 8);
          if second < 0xDC00 || second > 0xDFFF then (0, 0)
          else (12, 0x10000 + (first % 0x400) * 0x400 + second % 0x400)
      else (6, first)
  }

  /** The character a short escape stands for, or 0. */
  function Unescaped(c: byte): byte {
    if c == 98 then 8 else if c == 102 then 12 else if c == 110 then LF else if c == 114 then CR
    else if c == 116 then TAB else if c == QUOTE || c == BACKSLASH || c == SLASH then c else NUL
  }

  /** The bytes of a string literal between p and its closing quote at end. */
  function Unescape(c: seq<byte>, p: nat, end: nat): Parsed<seq<byte>>
    requires end < |c|
    decreases |c| - p
  {
    if p >= end then Parsed([], end)
    else if c[p] != BACKSLASH then Before([c[p]], Unescape(c, p + 1, end))
    else if Unescaped(c[p + 1]) != 0 then Before([Unescaped(c[p + 1])], Unescape(c, p + 2, end))
    else if c[p + 1] == 117 then
      var (n, cp) := Utf16(c, p, end);
      if n == 0 then Failed(p) else Before(Utf8(cp), Unescape(c, p + n, end))
    else Failed(p)
  }

  function Before(front: seq<byte>, r: Parsed<seq<byte>>): Parsed<seq<byte>> {
    if r.Parsed? then r.(value := front + r.value) else r
  }

  function ParseString(c: seq<byte>, i: nat): (r: Parsed<seq<byte>>)
    requires i < |c|
    ensures r.Parsed? ==> i < r.next <= |c|
  {
    var end := ClosingQuote(c, i + 1);
    if c[i] != QUOTE || end >= |c| then Failed(i + 1)
    else
      var r := Unescape(c, i + 1, end);
      UnescapeEnds(c, i + 1, end);
      if r.Parsed? then Parsed(r.value, end + 1) else r
  }

  lemma {:induction false} UnescapeEnds(c: seq<byte>, p: nat, end: nat)
    requires end < |c|
    ensures Unescape(c, p, end).Parsed? ==> Unescape(c, p, end).next == end
    decreases |c| - p
  {
    if p < end {
      if c[p] != BACKSLASH { UnescapeEnds(c, p + 1, end); }
      else if Unescaped(c[p + 1]) != 0 { UnescapeEnds(c, p + 2, end); }
      else if c[p + 1] == 117 {
        var n := Utf16(c, p, end).0;
        if n != 0 { UnescapeEnds(c, p + n, end); }
      }
    }
  }

  // Numbers

  /** How many characters parse_number copies: at most 63. */
  function NumberEnd(c: seq<byte>, i: nat, n: nat): (m: nat)
    requires i + n <= |c|
    ensures n <= m && i + m <= |c| && (n <= 63 ==> m <= 63)
    decreases |c| - i - n
  {
    if n < 63 && i + n < |c| && IsNumberChar(c[i + n]) then NumberEnd(c, i, n + 1) else n
  }

  function ParseNumber(c: seq<byte>, i: nat): (r: Parsed<seq<byte>>)
    requires i < |c|
    ensures r.Parsed? ==> i < r.next <= |c|
    ensures r.Parsed? && Terminated(c) ==> r.next < |c|
  {
    var s := c[i..i + NumberEnd(c, i, 0)];
    var n := StrtodLength(s);
    if n == 0 then Failed(i)
    else
      NumberCharsAre(c, i, 0, n - 1);
      Parsed(s[..n], i + n)
  }

  lemma {:induction false} NumberCharsAre(c: seq<byte>, i: nat, n: nat, k: nat)
    requires i + n <= |c| && n <= k < NumberEnd(c, i, n)
    ensures IsNumberChar(c[i + k])
    decreases |c| - i - n
  {
    if n < k { NumberCharsAre(c, i, n + 1, k); }
  }

  // Values

  function ParseValue(c: seq<byte>, i: nat, depth: nat): (r: Parsed<Json>)
    requires Terminated(c) && i < |c|
    ensures r.Parsed? ==> i < r.next < |c|
    decreases |c| - i, 1
  {
    if At(c, i, NULL_TEXT) then WordIsShort(c, i, NULL_TEXT); Parsed(Null, i + 4)
    else if At(c, i, FALSE_TEXT) then WordIsShort(c, i, FALSE_TEXT); Parsed(Bool(false), i + 5)
    else if At(c, i, TRUE_TEXT) then WordIsShort(c, i, TRUE_TEXT); Parsed(Bool(true), i + 4)
    else if c[i] == QUOTE then
      match ParseString(c, i)
      case Parsed(s, next) => StringIsShort(c, i); Parsed(String(s), next)
      case Failed(at) => Failed(at)
    else if c[i] == 45 || IsDigit(c[i]) then
      match ParseNumber(c, i)
      case Parsed(d, next) => Parsed(Number(d), next)
      case Failed(at) => Failed(at)
    else if c[i] == OPEN_ARRAY then ParseArray(c, i, depth)
    else if c[i] == OPEN_OBJECT then ParseObject(c, i, depth)
    else Failed(i)
  }

  lemma WordIsShort(c: seq<byte>, i: nat, word: seq<byte>)
    requires Terminated(c) && At(c, i, word) && NUL !in word && word != []
    ensures i + |word| < |c|
  {
    var last := |word| - 1;
    assert c[i..i + |word|][last] == c[i + last];
    assert word[last] in word;
  }

  lemma StringIsShort(c: seq<byte>, i: nat)
    requires Terminated(c) && i < |c| && ParseString(c, i).Parsed?
    ensures ParseString(c, i).next < |c|
  {
    assert c[ClosingQuote(c, i + 1)] == QUOTE;
  }

  function ParseArray(c: seq<byte>, i: nat, depth: nat): (r: Parsed<Json>)
    requires Terminated(c) && i < |c| && c[i] == OPEN_ARRAY
    ensures r.Parsed? ==> i < r.next < |c|
    decreases |c| - i, 0
  {
    if depth >= NESTING_LIMIT then Failed(i)
    else
      var j := Skip(c, i + 1);
      if c[j] == CLOSE_ARRAY then Parsed(Array(NoItems), j + 1)
      else
        match ParseItems(c, j, depth + 1)
        case Parsed(items, next) => Parsed(Array(items), next)
        case Failed(at) => Failed(at)
  }

  /** Elements up to the closing bracket, the first after j. */
  function ParseItems(c: seq<byte>, j: nat, depth: nat): (r: Parsed<Items>)
    requires Terminated(c) && j < |c|
    ensures r.Parsed? ==> j < r.next < |c|
    decreases |c| - j, 2
  {
    var k := Skip(c, j);
    match ParseValue(c, k, depth)
    case Failed(at) => Failed(at)
    case Parsed(head, next) =>
      var n := Skip(c, next);
      if c[n] == COMMA then
        match ParseItems(c, n + 1, depth)
        case Parsed(tail, end) => Parsed(Item(head, tail), end)
        case Failed(at) => Failed(at)
      else if c[n] == CLOSE_ARRAY then Parsed(Item(head, NoItems), n + 1)
      else Failed(n)
  }

  function ParseObject(c: seq<byte>, i: nat, depth: nat): (r: Parsed<Json>)
    requires Terminated(c) && i < |c| && c[i] == OPEN_OBJECT
    ensures r.Parsed? ==> i < r.next < |c|
    decreases |c| - i, 0
  {
    if depth >= NESTING_LIMIT then Failed(i)
    else
      var j := Skip(c, i + 1);
      if c[j] == CLOSE_OBJECT then Parsed(Object(NoMembers), j + 1)
      else
        match ParseMembers(c, j, depth + 1)
        case Parsed(members, next) => Parsed(Object(members), next)
        case Failed(at) => Failed(at)
  }

  /** A name and its colon: the offset where the value may be looked for. */
  function ParseName(c: seq<byte>, j: nat): (r: Parsed<seq<byte>>)
    requires Terminated(c) && j < |c|
    ensures r.Parsed? ==> j < r.next < |c|
  {
    var k := Skip(c, j);
    match ParseString(c, k)
    case Failed(at) => Failed(at)
    case Parsed(key, next) =>
      StringIsShort(c, k);
      var n := Skip(c, next);
      if c[n] == COLON then Parsed(key, n + 1) else Failed(n)
  }

  function ParseMembers(c: seq<byte>, j: nat, depth: nat): (r: Parsed<Members>)
    requires Terminated(c) && j < |c|
    ensures r.Parsed? ==> j < r.next < |c|
    decreases |c| - j, 2
  {
    match ParseName(c, j)
    case Failed(at) => Failed(at)
    case Parsed(key, k) =>
      match ParseValue(c, Skip(c, k), depth)
      case Failed(at) => Failed(at)
      case Parsed(value, next) =>
        var n := Skip(c, next);
        if c[n] == COMMA then
          match ParseMembers(c, n + 1, depth)
          case Parsed(rest, end) => Parsed(Member(key, value, rest), end)
          case Failed(at) => Failed(at)
        else if c[n] == CLOSE_OBJECT then Parsed(Member(key, value, NoMembers), n + 1)
        else Failed(n)
  }

  // cJSON_ParseWithOpts

  /** The offset after a byte order mark, if the text has one. */
  function AfterMark(c: seq<byte>): (i: nat)
    requires c != []
    ensures i < |c|
  {
    if |c| > 4 && c[0] == 0xEF && c[1] == 0xBB && c[2] == 0xBF then 3 else 0
  }

  /** The tree of a NUL-free text; with `whole`, nothing but white space may follow it. A
      failure is reported no further than the terminator. */
  function ParseText(text: seq<byte>, whole: bool): (r: Parsed<Json>)
    requires NoNul(text)
  {
    var c := text + [NUL];
    var r := ParseValue(c, Skip(c, AfterMark(c)), 0);
    if r.Failed? then Failed(if r.at < |c| then r.at else |c| - 1)
    else if !whole then r
    else
      var end := Skip(c, r.next);
      if c[end] == NUL then r.(next := end) else Failed(end)
  }
}
