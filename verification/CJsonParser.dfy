/** cJSON's recursive-descent parser as it runs: one buffer object whose offset and
    depth every routine moves. Each routine is proved equal to CJsonGrammar. */
module CJsonParser {
  import opened Bytes
  import opened Options
  import opened JsonTree
  import opened CJsonText
  import opened CJsonGrammar
  import opened CJsonUnicode

  // Linked lists built at their end

  function ItemsOf(list: seq<Json>, rest: Items): Items {
    if list == [] then rest else Item(list[0], ItemsOf(list[1..], rest))
  }

  lemma {:induction false} ItemsSnoc(list: seq<Json>, last: Json, rest: Items)
    ensures ItemsOf(list + [last], rest) == ItemsOf(list, Item(last, rest))
    decreases |list|
  {
    if list == [] {
      assert [last][1..] == [];
    } else {
      assert (list + [last])[1..] == list[1..] + [last];
      ItemsSnoc(list[1..], last, rest);
    }
  }

  function MembersOf(list: seq<(seq<byte>, Json)>, rest: Members): Members {
    if list == [] then rest else Member(list[0].0, list[0].1, MembersOf(list[1..], rest))
  }

  lemma {:induction false} MembersSnoc(list: seq<(seq<byte>, Json)>, last: (seq<byte>, Json), rest: Members)
    ensures MembersOf(list + [last], rest) == MembersOf(list, Member(last.0, last.1, rest))
    decreases |list|
  {
    if list == [] {
      assert [last][1..] == [];
    } else {
      assert (list + [last])[1..] == list[1..] + [last];
      MembersSnoc(list[1..], last, rest);
    }
  }

  function AfterItems(list: seq<Json>, r: Parsed<Items>): Parsed<Items> {
    if r.Parsed? then r.(value := ItemsOf(list, r.value)) else r
  }

  function AfterMembers(list: seq<(seq<byte>, Json)>, r: Parsed<Members>): Parsed<Members> {
    if r.Parsed? then r.(value := MembersOf(list, r.value)) else r
  }

  /** A routine's outcome against the grammar's. */
  predicate Meets<T(==)>(r: Parsed<T>, got: Option<T>, offset: nat) {
    match r
    case Parsed(value, next) => got == Some(value) && offset == next
    case Failed(at) => got == None && offset == at
  }

  lemma EachItem(list: seq<Json>, v: Json, r: Parsed<Items>)
    ensures AfterItems(list + [v], r) ==
            AfterItems(list, if r.Parsed? then Parsed(Item(v, r.value), r.next) else r)
  {
    if r.Parsed? { ItemsSnoc(list, v, r.value); }
  }

  lemma EachMember(list: seq<(seq<byte>, Json)>, m: (seq<byte>, Json), r: Parsed<Members>)
    ensures AfterMembers(list + [m], r) ==
            AfterMembers(list, if r.Parsed? then Parsed(Member(m.0, m.1, r.value), r.next) else r)
  {
    if r.Parsed? { MembersSnoc(list, m, r.value); }
  }

  lemma NotLast(c: seq<byte>, i: nat)
    requires Terminated(c) && i < |c|
    ensures c[i] != NUL ==> i + 1 < |c|
  {
  }

  lemma StringShort(c: seq<byte>, i: nat)
    requires Terminated(c) && i < |c|
    ensures CJsonGrammar.ParseString(c, i).Parsed? ==> CJsonGrammar.ParseString(c, i).next < |c|
  {
    if CJsonGrammar.ParseString(c, i).Parsed? { StringIsShort(c, i); }
  }

  // Copying a string literal

  lemma BeforeTwice(a: seq<byte>, b: seq<byte>, r: Parsed<seq<byte>>)
    ensures Before(a, Before(b, r)) == Before(a + b, r)
  {
    if r.Parsed? { assert a + (b + r.value) == (a + b) + r.value; }
  }

  lemma BeforeNothing(r: Parsed<seq<byte>>)
    ensures Before([], r) == r
  {
    if r.Parsed? { assert [] + r.value == r.value; }
  }

  /** The length of a literal in characters is its length in bytes less one for each
      escape: what parse_string allocates. */
  lemma {:induction false} PairsCounted(c: seq<byte>, p: nat, end: nat)
    requires p <= end < |c| && ClosingQuote(c, p) == end
    ensures CharsLeft(c, p, end) + Pairs(c, p, end) == end - p
    decreases end - p
  {
    if p < end {
      if c[p] == BACKSLASH { PairsCounted(c, p + 2, end); } else { PairsCounted(c, p + 1, end); }
    }
  }

  function Pairs(c: seq<byte>, p: nat, end: nat): nat
    requires end <= |c|
    decreases |c| - p
  {
    if p >= end then 0 else if c[p] == BACKSLASH then 1 + Pairs(c, p + 2, end) else Pairs(c, p + 1, end)
  }

  /** One step of the copying loop, whatever the character: the bytes it adds to `done`. */
  lemma CopiedOne(c: seq<byte>, p: nat, end: nat, done: seq<byte>, now: seq<byte>)
    requires p < end < |c| && Step(c, p, end).0 != 0 && now == done + Step(c, p, end).1
    ensures Before(done, Unescape(c, p, end)) == Before(now, Unescape(c, p + Step(c, p, end).0, end))
  {
    BeforeTwice(done, Step(c, p, end).1, Unescape(c, p + Step(c, p, end).0, end));
  }

  /** The length of the character at p in the literal and the bytes it stands for. */
  function Step(c: seq<byte>, p: nat, end: nat): (nat, seq<byte>)
    requires p < end < |c|
  {
    if c[p] != BACKSLASH then (1, [c[p]])
    else if Unescaped(c[p + 1]) != 0 then (2, [Unescaped(c[p + 1])])
    else if c[p + 1] == 117 then (Utf16(c, p, end).0, Utf8(Utf16(c, p, end).1))
    else (0, [])
  }

  lemma NumberStep(c: seq<byte>, i: nat, n: nat)
    requires i + n <= |c|
    ensures NumberEnd(c, i, n) ==
      if n < 63 && i + n < |c| && IsNumberChar(c[i + n]) then NumberEnd(c, i, n + 1) else n
  {
  }

  class ParseBuffer {
    const content: seq<byte>
    var offset: nat
    var depth: nat

    constructor (text: seq<byte>)
      requires NoNul(text)
      ensures Terminated(content) && content == text + [NUL] && offset == 0 && depth == 0
    {
      content := text + [NUL];
      offset, depth := 0, 0;
      new;
      forall i | 0 <= i < |content| - 1 ensures content[i] != NUL { assert content[i] == text[i] && text[i] in text; }
    }

    /** buffer_skip_whitespace */
    method SkipWhitespace()
      requires offset < |content|
      modifies this`offset
      ensures offset == Skip(content, old(offset))
    {
      while offset < |content| && content[offset] <= 32
        invariant old(offset) <= offset <= |content|
        invariant SkipSpace(content, old(offset)) == SkipSpace(content, offset)
      {
        offset := offset + 1;
      }
      if offset == |content| { offset := offset - 1; }
    }

    /** The copy into number_c_string. */
    method CopyNumber() returns (text: seq<byte>)
      requires offset < |content|
      ensures text == content[offset..offset + NumberEnd(content, offset, 0)]
    {
      hide IsNumberChar, NumberEnd;
      var number := new byte[64](_ => 0);
      var i := 0;
      while i < 63 && offset + i < |content| && IsNumberChar(content[offset + i])
        invariant i <= 63 && offset + i <= |content|
        invariant NumberEnd(content, offset, 0) == NumberEnd(content, offset, i)
        invariant number[..i] == content[offset..offset + i]
      {
        NumberStep(content, offset, i);
        number[i] := content[offset + i];
        i := i + 1;
      }
      NumberStep(content, offset, i);
      number[i] := NUL;
      text := number[..i];
    }

    method ParseNumber() returns (digits: Option<seq<byte>>)
      requires offset < |content|
      modifies this`offset
      ensures Meets(CJsonGrammar.ParseNumber(content, old(offset)), digits, offset)
    {
      var text := CopyNumber();
      var n := StrtodLength(text);
      if n == 0 { return None; }
      offset := offset + n;
      digits := Some(text[..n]);
    }

    /** The scan for the closing quote, counting the escapes passed. */
    method FindQuote(from: nat) returns (end: nat, skipped: nat)
      requires from <= |content|
      ensures end == ClosingQuote(content, from)
      ensures end < |content| ==> from <= end && skipped == Pairs(content, from, end)
    {
      end, skipped := from, 0;
      ghost var q := ClosingQuote(content, from);
      while end < |content| && content[end] != QUOTE
        invariant from <= end <= |content| && ClosingQuote(content, end) == q
        invariant q < |content| ==> end <= q && skipped + Pairs(content, end, q) == Pairs(content, from, q)
        decreases |content| - end
      {
        if content[end] == BACKSLASH {
          if end + 1 >= |content| { return |content|, skipped; }
          skipped := skipped + 1;
          end := end + 1;
        }
        end := end + 1;
      }
    }

    /** utf16_literal_to_utf8: writes at o and returns the input and output lengths. */
    method WriteUtf8(p: nat, end: nat, output: array<byte>, o: nat) returns (taken: nat, written: nat)
      requires p <= end <= |content|
      requires var (n, cp) := Utf16(content, p, end); n != 0 ==> o + |Utf8(cp)| <= output.Length
      modifies output
      ensures taken == Utf16(content, p, end).0
      ensures taken == 0 ==> written == 0
      ensures taken != 0 ==> var u := Utf8(Utf16(content, p, end).1);
        written == |u| && output[..o + written] == old(output[..o]) + u
    {
      hide Utf8, Utf16;
      var (n, codepoint) := Utf16(content, p, end);
      taken, written := n, 0;
      if n == 0 { return; }
      Lead(codepoint);
      written := if codepoint < 0x80 then 1 else if codepoint < 0x800 then 2 else if codepoint < 0x10000 then 3 else 4;
      EncodeUtf8(codepoint, written, output, o);
    }

    /** The last byte first, six bits at a time, and the lead byte with its mark. */
    static method EncodeUtf8(codepoint: nat, written: nat, output: array<byte>, o: nat)
      requires codepoint <= 0x10FFFF && written == |Utf8(codepoint)| && o + written <= output.Length
      modifies output
      ensures output[..o + written] == old(output[..o]) + Utf8(codepoint)
    {
      hide Utf8, Sixth;
      var mark := if written == 1 then 0 else if written == 2 then 0xC0 else if written == 3 then 0xE0 else 0xF0;
      var k, left := written - 1, codepoint;
      ghost var u := Utf8(codepoint);
      Lead(codepoint);
      SixthNone(codepoint);
      while k > 0
        invariant 0 <= k < written && left == Sixth(codepoint, written - 1 - k)
        invariant forall j :: k < j < written ==> output[o + j] == u[j]
        invariant output[..o] == old(output[..o])
      {
        TailByte(codepoint, k);
        SixthNext(codepoint, written - 1 - k);
        output[o + k] := 0x80 + left % 64;
        left := left / 64;
        k := k - 1;
      }
      output[o] := mark + left;
      assert forall j :: 0 <= j < written ==> output[o + j] == u[j];
      assert output[..o + written][o..] == u;
    }

    /** The loop that copies the literal: on failure p stays at the offending escape. */
    method CopyString(from: nat, end: nat, output: array<byte>) returns (ok: bool, p: nat, o: nat)
      requires from <= end < |content| && CharsLeft(content, from, end) <= output.Length
      modifies output
      ensures o <= CharsLeft(content, from, end)
      ensures var r := Unescape(content, from, end);
        if ok then r == Parsed(output[..o], end) else r == Failed(p)
    {
      hide Utf16, Utf8;
      p, o := from, 0;
      assert output[..0] == [];
      BeforeNothing(Unescape(content, from, end));
      UnescapeEnds(content, from, end);
      while p < end
        invariant o + CharsLeft(content, p, end) <= CharsLeft(content, from, end)
        invariant Unescape(content, from, end) == Before(output[..o], Unescape(content, p, end))
        decreases |content| - p
      {
        ghost var done, here := output[..o], p;
        if content[p] != BACKSLASH {
          output[o] := content[p];
          o, p := o + 1, p + 1;
        } else if Unescaped(content[p + 1]) != 0 {
          output[o] := Unescaped(content[p + 1]);
          o, p := o + 1, p + 2;
        } else if content[p + 1] == 117 {
          if Utf16(content, p, end).0 != 0 { EscapeRoom(content, p, end); }
          var taken, written := WriteUtf8(p, end, output, o);
          if taken == 0 { return false, p, o; }
          o, p := o + written, p + taken;
        } else {
          return false, p, o;
        }
        CopiedOne(content, here, end, done, output[..o]);
      }
      ok := true;
      assert output[..o] + [] == output[..o];
    }

    /** On success the buffer is just after the closing quote. */
    method ParseString() returns (text: Option<seq<byte>>)
      requires offset < |content|
      modifies this`offset
      ensures Meets(CJsonGrammar.ParseString(content, old(offset)), text, offset)
    {
      var start := offset;
      if content[start] != QUOTE {
        offset := start + 1;
        return None;
      }
      var end, skipped := FindQuote(start + 1);
      if end >= |content| {
        offset := start + 1;
        return None;
      }
      PairsCounted(content, start + 1, end);
      var allocation := end - start - skipped;
      var output := new byte[allocation + 1](_ => 0);
      var ok, p, o := CopyString(start + 1, end, output);
      UnescapeEnds(content, start + 1, end);
      if !ok {
        offset := p;
        return None;
      }
      text := Some(output[..o]);
      output[o] := NUL;
      offset := end + 1;
    }

    method ParseValue() returns (item: Option<Json>)
      requires Terminated(content) && offset < |content|
      modifies this
      ensures Meets(CJsonGrammar.ParseValue(content, old(offset), old(depth)), item, offset)
      ensures item.Some? ==> depth == old(depth)
      decreases |content| - offset, 1
    {
      hide CJsonGrammar.ParseArray, CJsonGrammar.ParseObject, CJsonGrammar.ParseString, CJsonGrammar.ParseNumber, Terminated;
      if At(content, offset, NULL_TEXT) {
        item := Some(Null);
        offset := offset + 4;
      } else if At(content, offset, FALSE_TEXT) {
        item := Some(Bool(false));
        offset := offset + 5;
      } else if At(content, offset, TRUE_TEXT) {
        item := Some(Bool(true));
        offset := offset + 4;
      } else if content[offset] == QUOTE {
        var text := ParseString();
        item := if text.Some? then Some(String(text.value)) else None;
      } else if content[offset] == 45 || IsDigit(content[offset]) {
        var digits := ParseNumber();
        item := if digits.Some? then Some(Number(digits.value)) else None;
      } else if content[offset] == OPEN_ARRAY {
        item := ParseArray();
      } else if content[offset] == OPEN_OBJECT {
        item := ParseObject();
      } else {
        item := None;
      }
    }

    method ParseArray() returns (item: Option<Json>)
      requires Terminated(content) && offset < |content| && content[offset] == OPEN_ARRAY
      modifies this
      ensures Meets(CJsonGrammar.ParseArray(content, old(offset), old(depth)), item, offset)
      ensures item.Some? ==> depth == old(depth)
      decreases |content| - offset, 0
    {
      hide CJsonGrammar.ParseItems;
      if depth >= NESTING_LIMIT { return None; }
      depth := depth + 1;
      offset := offset + 1;
      SkipWhitespace();
      if content[offset] == CLOSE_ARRAY {
        item := Some(Array(NoItems));
        depth := depth - 1;
        offset := offset + 1;
        return;
      }
      var items := ParseItems();
      if items.None? { return None; }
      item := Some(Array(items.value));
    }

    /** The elements and the closing bracket. */
    method ParseItems() returns (items: Option<Items>)
      requires Terminated(content) && offset < |content| && 0 < depth
      modifies this
      ensures Meets(CJsonGrammar.ParseItems(content, old(offset), old(depth)), items, offset)
      ensures items.Some? ==> depth == old(depth) - 1
      decreases |content| - offset, 3
    {
      hide CJsonGrammar.ParseValue, Skip, Terminated;
      var list: seq<Json> := [];
      var more := true;
      var next := offset;
      while more
        invariant old(offset) <= next && depth == old(depth)
        invariant more ==> next < |content|
        invariant more ==>
          CJsonGrammar.ParseItems(content, old(offset), depth) == AfterItems(list, CJsonGrammar.ParseItems(content, next, depth))
        invariant !more ==> offset < |content| && offset + 1 == next && content[offset] != COMMA
        invariant !more ==>
          CJsonGrammar.ParseItems(content, old(offset), depth) ==
          (if content[offset] == CLOSE_ARRAY then Parsed(ItemsOf(list, NoItems), offset + 1) else Failed(offset))
        decreases |content| - next, if more then 1 else 0
      {
        offset := next;
        SkipWhitespace();
        var value := ParseValue();
        if value.None? { return None; }
        SkipWhitespace();
        NotLast(content, offset);
        ItemsSnoc(list, value.value, NoItems);
        if content[offset] == COMMA { EachItem(list, value.value, CJsonGrammar.ParseItems(content, offset + 1, depth)); }
        list := list + [value.value];
        more := content[offset] == COMMA;
        next := offset + 1;
      }
      if content[offset] != CLOSE_ARRAY { return None; }
      depth := depth - 1;
      offset := offset + 1;
      items := Some(ItemsOf(list, NoItems));
    }

    method ParseObject() returns (item: Option<Json>)
      requires Terminated(content) && offset < |content| && content[offset] == OPEN_OBJECT
      modifies this
      ensures Meets(CJsonGrammar.ParseObject(content, old(offset), old(depth)), item, offset)
      ensures item.Some? ==> depth == old(depth)
      decreases |content| - offset, 0
    {
      hide CJsonGrammar.ParseMembers;
      if depth >= NESTING_LIMIT { return None; }
      depth := depth + 1;
      offset := offset + 1;
      SkipWhitespace();
      if content[offset] == CLOSE_OBJECT {
        item := Some(Object(NoMembers));
        depth := depth - 1;
        offset := offset + 1;
        return;
      }
      var members := ParseMembers();
      if members.None? { return None; }
      item := Some(Object(members.value));
    }

    /** A name and its colon. */
    method ParseName() returns (key: Option<seq<byte>>)
      requires Terminated(content) && offset < |content|
      modifies this`offset
      ensures Meets(CJsonGrammar.ParseName(content, old(offset)), key, offset)
    {
      hide CJsonGrammar.ParseString, Skip, Terminated;
      SkipWhitespace();
      StringShort(content, offset);
      key := ParseString();
      if key.None? { return; }
      SkipWhitespace();
      if content[offset] != COLON { return None; }
      offset := offset + 1;
    }

    /** The members and the closing brace. */
    method ParseMembers() returns (members: Option<Members>)
      requires Terminated(content) && offset < |content| && 0 < depth
      modifies this
      ensures Meets(CJsonGrammar.ParseMembers(content, old(offset), old(depth)), members, offset)
      ensures members.Some? ==> depth == old(depth) - 1
      decreases |content| - offset, 3
    {
      hide CJsonGrammar.ParseValue, CJsonGrammar.ParseName, Skip, Terminated;
      var list: seq<(seq<byte>, Json)> := [];
      var more := true;
      var next := offset;
      while more
        invariant old(offset) <= next && depth == old(depth)
        invariant more ==> next < |content|
        invariant more ==>
          CJsonGrammar.ParseMembers(content, old(offset), depth) == AfterMembers(list, CJsonGrammar.ParseMembers(content, next, depth))
        invariant !more ==> offset < |content| && offset + 1 == next && content[offset] != COMMA
        invariant !more ==>
          CJsonGrammar.ParseMembers(content, old(offset), depth) ==
          (if content[offset] == CLOSE_OBJECT then Parsed(MembersOf(list, NoMembers), offset + 1) else Failed(offset))
        decreases |content| - next, if more then 1 else 0
      {
        offset := next;
        var key := ParseName();
        if key.None? { return None; }
        SkipWhitespace();
        var value := ParseValue();
        if value.None? { return None; }
        SkipWhitespace();
        var member := (key.value, value.value);
        NotLast(content, offset);
        MembersSnoc(list, member, NoMembers);
        if content[offset] == COMMA { EachMember(list, member, CJsonGrammar.ParseMembers(content, offset + 1, depth)); }
        list := list + [member];
        more := content[offset] == COMMA;
        next := offset + 1;
      }
      if content[offset] != CLOSE_OBJECT { return None; }
      depth := depth - 1;
      offset := offset + 1;
      members := Some(MembersOf(list, NoMembers));
    }

    /** skip_utf8_bom */
    method SkipMark()
      requires offset == 0 && content != []
      modifies this`offset
      ensures offset == AfterMark(content)
    {
      if |content| > 4 && content[0..3] == [0xEF, 0xBB, 0xBF] { offset := 3; }
      assert |content| > 4 ==> content[0..3] == [content[0], content[1], content[2]];
    }
  }

  /** cJSON_ParseWithOpts: the tree and where it ends, or where the parser gave up. */
  method Parse(text: seq<byte>, whole: bool) returns (item: Option<Json>, end: nat)
    requires NoNul(text)
    ensures Meets(ParseText(text, whole), item, end)
  {
    hide CJsonGrammar.ParseValue;
    var buffer := new ParseBuffer(text);
    buffer.SkipMark();
    buffer.SkipWhitespace();
    item := buffer.ParseValue();
    if item.Some? && whole {
      buffer.SkipWhitespace();
      if buffer.content[buffer.offset] != NUL { item := None; }
    }
    end := buffer.offset;
    if item.None? && end >= |buffer.content| { end := |buffer.content| - 1; }
  }

  /** n divided by 64 that many times. */
  function Sixth(n: nat, times: nat): nat { if times == 0 then n else Sixth(n, times - 1) / 64 }

  lemma SixthNone(n: nat)
    ensures Sixth(n, 0) == n
  {
  }

  lemma SixthNext(n: nat, times: nat)
    ensures Sixth(n, times + 1) == Sixth(n, times) / 64
  {
  }

  lemma TailByte(cp: nat, k: nat)
    requires cp <= 0x10FFFF && 0 < k < |Utf8(cp)|
    ensures Utf8(cp)[k] == 0x80 + Sixth(cp, |Utf8(cp)| - 1 - k) % 64
  {
    hide Utf8, Sixth;
    Forms(cp);
    Sixes(cp);
    SixthNone(cp);
    SixthNext(cp, 0);
    SixthNext(cp, 1);
  }

  lemma Lead(cp: nat)
    requires cp <= 0x10FFFF
    ensures var n := |Utf8(cp)|; var mark := if n == 1 then 0 else if n == 2 then 0xC0 else if n == 3 then 0xE0 else 0xF0;
      Utf8(cp)[0] == mark + Sixth(cp, n - 1)
    ensures |Utf8(cp)| == if cp < 0x80 then 1 else if cp < 0x800 then 2 else if cp < 0x10000 then 3 else 4
  {
    hide Utf8, Sixth;
    Forms(cp);
    Sixes(cp);
    SixthNone(cp);
    SixthNext(cp, 0);
    SixthNext(cp, 1);
    SixthNext(cp, 2);
  }
}
