/** cJSON's printer as it runs: a buffer that grows, an offset that is moved after the
    fact by measuring what was written, and strings whose length is computed before
    they are copied. */
module CJsonPrinter {
  import opened Bytes
  import opened Options
  import opened JsonTree
  import opened CJsonText
  import opened CJsonRoundTrip

  const INT_MAX: nat := 0x7FFF_FFFF

  // How much is left to print

  function Size(t: Json): nat {
    match t
    case Array(items) => 1 + ItemsSize(items)
    case Object(members) => 1 + MembersSize(members)
    case _ => 0
  }

  function ItemsSize(items: Items): nat {
    match items
    case NoItems => 0
    case Item(head, tail) => 1 + Size(head) + ItemsSize(tail)
  }

  function MembersSize(members: Members): nat {
    match members
    case NoMembers => 0
    case Member(_, value, rest) => 1 + Size(value) + MembersSize(rest)
  }

  // Escaping in two passes

  lemma EscapeNext(s: seq<byte>, i: nat)
    requires i < |s|
    ensures Escape(s[..i + 1]) == Escape(s[..i]) + EscapeByte(s[i])
  {
    hide EscapeByte;
    assert s[..i + 1] == s[..i] + [s[i]];
    EscapeConcat(s[..i], [s[i]]);
    assert [s[i]][1..] == [];
    assert EscapeByte(s[i]) + [] == EscapeByte(s[i]);
  }

  /** The second pass never leaves the room the first pass measured. */
  lemma EscapePart(s: seq<byte>, i: nat)
    requires i <= |s|
    ensures |Escape(s[..i])| <= |Escape(s)|
    ensures i < |s| ==> |Escape(s[..i])| + |EscapeByte(s[i])| <= |Escape(s)|
  {
    assert s == s[..i] + s[i..];
    EscapeConcat(s[..i], s[i..]);
  }

  lemma {:induction false} NothingEscaped(s: seq<byte>)
    ensures |s| <= |Escape(s)|
    ensures |Escape(s)| == |s| ==> Escape(s) == s
    decreases |s|
  {
    if s != [] { NothingEscaped(s[1..]); }
  }

  lemma EscapeText(c: byte)
    ensures c > 31 && c != QUOTE && c != BACKSLASH ==> ShortEscape(c) == 0
    ensures EscapeByte(c) == if c > 31 && c != QUOTE && c != BACKSLASH then [c]
      else if ShortEscape(c) != 0 then [BACKSLASH, ShortEscape(c)]
      else [BACKSLASH] + [117, 48, 48, LowerHex(c / 16), LowerHex(c % 16)]
  {
    hide LowerHex;
  }

  class PrintBuffer {
    var buffer: array<byte>
    var offset: nat
    var depth: nat
    const noalloc: bool
    const format: bool

    ghost predicate Valid() reads this {
      buffer.Length <= INT_MAX && (offset < buffer.Length || offset == buffer.Length == 0)
    }

    /** The largest buffer there may ever be. */
    ghost function Limit(): nat reads this { if noalloc then buffer.Length else INT_MAX }

    /** cJSON_PrintBuffered and cJSON_PrintPreallocated. */
    constructor (memory: array<byte>, noalloc: bool, format: bool)
      requires memory.Length <= INT_MAX
      ensures Valid() && buffer == memory && offset == 0 && depth == 0
      ensures this.noalloc == noalloc && this.format == format
    {
      buffer, offset, depth := memory, 0, 0;
      this.noalloc, this.format := noalloc, format;
    }

    /** ensure: room for that many more bytes and one beyond, or failure. Allocation
        itself never fails here. */
    method Ensure(needed: nat) returns (ok: bool)
      requires Valid()
      modifies this`buffer
      ensures Valid() && (buffer == old(buffer) || (fresh(buffer) && !noalloc)) && Limit() == old(Limit())
      ensures ok <==> offset + needed + 1 <= Limit()
      ensures ok ==> offset + needed + 1 <= buffer.Length
      ensures buffer[..offset] == old(buffer[..offset])
    {
      if buffer.Length > 0 && offset >= buffer.Length { return false; }
      if needed > INT_MAX { return false; }
      var total := needed + offset + 1;
      if total <= buffer.Length { return true; }
      if noalloc { return false; }
      var newsize;
      if total > INT_MAX / 2 {
        if total > INT_MAX { return false; }
        newsize := INT_MAX;
      } else {
        newsize := total * 2;
      }
      var newbuffer := new byte[newsize](_ => 0);
      Move(buffer, newbuffer, offset);
      buffer := newbuffer;
      ok := true;
    }

    method Move(from: array<byte>, to: array<byte>, n: nat)
      requires n <= from.Length && n <= to.Length && from != to
      modifies to
      ensures to[..n] == from[..n]
    {
      var i := 0;
      while i < n
        invariant i <= n && to[..i] == from[..i]
      {
        to[i] := from[i];
        i := i + 1;
      }
    }

    /** Bytes copied into the reserved room, from the offset plus `at`. */
    method Copy(at: nat, text: seq<byte>)
      requires offset + at + |text| <= buffer.Length
      modifies buffer
      ensures buffer[..offset + at + |text|] == old(buffer[..offset + at]) + text
    {
      var i := 0;
      while i < |text|
        invariant i <= |text|
        invariant buffer[..offset + at + i] == old(buffer[..offset + at]) + text[..i]
      {
        buffer[offset + at + i] := text[i];
        i := i + 1;
        assert buffer[..offset + at + i] == buffer[..offset + at + i - 1] + [text[i - 1]];
        assert text[..i] == text[..i - 1] + [text[i - 1]];
      }
    }

    /** What a routine that prints text leaves when it succeeds: the text from the old
        offset on, ended by NUL, and the offset somewhere in it. */
    twostate predicate Wrote(text: seq<byte>)
      requires old(offset) <= old(buffer.Length)
      reads this, buffer
    {
      && Valid() && (buffer == old(buffer) || (fresh(buffer) && !noalloc)) && Limit() == old(Limit())
      && depth == old(depth)
      && old(offset) <= offset <= old(offset) + |text| < buffer.Length
      && buffer[..old(offset) + |text|] == old(buffer[..offset]) + text && buffer[old(offset) + |text|] == NUL
    }

    /** What a routine that prints part of a text leaves: the offset after it. */
    twostate predicate Added(text: seq<byte>)
      requires old(offset) <= old(buffer.Length)
      reads this, buffer
    {
      && Valid() && (buffer == old(buffer) || (fresh(buffer) && !noalloc)) && Limit() == old(Limit())
      && depth == old(depth) && offset == old(offset) + |text| <= buffer.Length
      && buffer[..offset] == old(buffer[..offset]) + text
    }

    /** Room for the text and `slack` more, then the text; the offset moves past it. */
    method Append(text: seq<byte>, slack: nat) returns (ok: bool)
      requires Valid()
      modifies this`buffer, this`offset, buffer
      ensures ok <==> old(offset) + |text| + slack + 1 <= old(Limit())
      ensures ok ==> Added(text) && offset < buffer.Length
    {
      ok := Ensure(|text| + slack);
      if !ok { return; }
      Copy(0, text);
      offset := offset + |text|;
    }

    /** The same with a terminator behind the text. */
    method AppendString(text: seq<byte>) returns (ok: bool)
      requires Valid()
      modifies this`buffer, this`offset, buffer
      ensures ok <==> old(offset) + |text| + 2 <= old(Limit())
      ensures ok ==> Added(text) && offset < buffer.Length && buffer[offset] == NUL
    {
      ok := Ensure(|text| + 1);
      if !ok { return; }
      Copy(0, text);
      buffer[offset + |text|] := NUL;
      assert buffer[..offset + |text|] == old(buffer[..offset]) + text;
      offset := offset + |text|;
    }

    /** strcpy into reserved room; the offset stays. */
    method Strcpy(text: seq<byte>) returns (ok: bool)
      requires Valid()
      modifies this`buffer, buffer
      ensures ok <==> old(offset) + |text| + 2 <= old(Limit())
      ensures ok ==> Wrote(text)
    {
      ok := Ensure(|text| + 1);
      if !ok { return; }
      Copy(0, text);
      buffer[offset + |text|] := NUL;
      assert buffer[..offset + |text|] == old(buffer[..offset]) + text;
    }

    /** update_offset: strlen from the offset. */
    method UpdateOffset(ghost from: nat, ghost text: seq<byte>)
      requires Valid() && NoNul(text) && from <= offset <= from + |text| < buffer.Length
      requires buffer[from..from + |text|] == text && buffer[from + |text|] == NUL
      modifies this`offset
      ensures offset == from + |text|
    {
      forall k | from <= k < from + |text| ensures buffer[k] != NUL {
        assert buffer[from..from + |text|][k - from] == text[k - from] && text[k - from] in text;
      }
      while buffer[offset] != NUL
        invariant from <= offset <= from + |text|
        decreases from + |text| - offset
      {
        assert offset < from + |text|;
        offset := offset + 1;
      }
    }

    /** One character of a string copied or escaped, `at` bytes after the offset. */
    method EscapeInto(at: nat, c: byte) returns (next: nat)
      requires offset + at + |EscapeByte(c)| < buffer.Length
      modifies buffer
      ensures next == at + |EscapeByte(c)|
      ensures buffer[..offset + next] == old(buffer[..offset + at]) + EscapeByte(c)
    {
      hide EscapeByte, ShortEscape, LowerHex;
      ghost var was := buffer[..offset + at];
      EscapeText(c);
      if c > 31 && c != QUOTE && c != BACKSLASH {
        buffer[offset + at] := c;
        next := at + 1;
      } else {
        buffer[offset + at] := BACKSLASH;
        assert buffer[..offset + at + 1] == was + [BACKSLASH];
        if ShortEscape(c) != 0 {
          buffer[offset + at + 1] := ShortEscape(c);
          next := at + 2;
        } else {
          EscapeHex(at + 1, c);
          next := at + 6;
        }
      }
    }

    /** sprintf "u%04x", behind the backslash. */
    method EscapeHex(at: nat, c: byte)
      requires offset + at + 5 < buffer.Length
      modifies buffer
      ensures buffer[..offset + at + 5] == old(buffer[..offset + at]) + [117, 48, 48, LowerHex(c / 16), LowerHex(c % 16)]
    {
      hide LowerHex;
      Copy(at, [117, 48, 48, LowerHex(c / 16), LowerHex(c % 16)]);
      buffer[offset + at + 5] := NUL;
    }

    /** The first pass of print_string_ptr. */
    method CountEscapes(s: seq<byte>) returns (escapes: nat)
      ensures |s| + escapes == |Escape(s)|
    {
      hide Escape;
      escapes := 0;
      var i := 0;
      assert Escape(s[..0]) == [] by { NoText(s); }
      while i < |s|
        invariant i <= |s| && i + escapes == |Escape(s[..i])|
      {
        EscapeNext(s, i);
        if ShortEscape(s[i]) != 0 { escapes := escapes + 1; }
        else if s[i] < 32 { escapes := escapes + 5; }
        i := i + 1;
      }
      assert s[..i] == s;
    }

    /** The second pass: the escaped characters, one byte after the offset. */
    method CopyEscaped(s: seq<byte>)
      requires offset + 1 + |Escape(s)| < buffer.Length
      modifies buffer
      ensures buffer[..offset + 1 + |Escape(s)|] == old(buffer[..offset + 1]) + Escape(s)
    {
      hide Escape, EscapeByte;
      var i, at := 0, 1;
      assert Escape(s[..0]) == [] by { NoText(s); }
      while i < |s|
        invariant i <= |s| && at == 1 + |Escape(s[..i])| && at <= 1 + |Escape(s)|
        invariant buffer[..offset + at] == old(buffer[..offset + 1]) + Escape(s[..i])
      {
        EscapePart(s, i);
        EscapeNext(s, i);
        at := EscapeInto(at, s[i]);
        i := i + 1;
      }
      assert s[..i] == s;
    }

    /** print_string_ptr: what the first pass counted is what the second writes, and the
        closing quote lands right behind it. */
    method PrintString(s: seq<byte>) returns (ok: bool)
      requires Valid() && NoNul(s)
      modifies this`buffer, buffer
      ensures ok <==> old(offset) + |Quoted(Escape(s))| + 2 <= old(Limit())
      ensures ok ==> Wrote(Quoted(Escape(s)))
    {
      hide Escape;
      var escapes := CountEscapes(s);
      ok := Ensure(|s| + escapes + 3);
      if !ok { return; }
      FillString(s, escapes);
    }

    /** Into the room reserved: the quotes and what is between them. */
    method FillString(s: seq<byte>, escapes: nat)
      requires |s| + escapes == |Escape(s)| && offset + |Escape(s)| + 3 <= buffer.Length
      modifies buffer
      ensures buffer[..offset + |Quoted(Escape(s))|] == old(buffer[..offset]) + Quoted(Escape(s))
      ensures buffer[offset + |Quoted(Escape(s))|] == NUL
    {
      hide Escape;
      var length := |s| + escapes;
      FillText(s, escapes);
      buffer[offset + length + 1] := QUOTE;
      buffer[offset + length + 2] := NUL;
      assert buffer[..offset + length + 2] == buffer[..offset + 1 + length] + [QUOTE];
      assert old(buffer[..offset]) + [QUOTE] + Escape(s) + [QUOTE] == old(buffer[..offset]) + Quoted(Escape(s));
    }

    /** The opening quote and the text after it. */
    method FillText(s: seq<byte>, escapes: nat)
      requires |s| + escapes == |Escape(s)| && offset + |Escape(s)| + 3 <= buffer.Length
      modifies buffer
      ensures buffer[..offset + 1 + |Escape(s)|] == old(buffer[..offset]) + [QUOTE] + Escape(s)
    {
      hide Escape;
      buffer[offset] := QUOTE;
      assert buffer[..offset + 1] == old(buffer[..offset]) + [QUOTE];
      if escapes == 0 {
        NothingEscaped(s);
        Copy(1, s);
      } else {
        CopyEscaped(s);
      }
    }

    method PrintValue(t: Json) returns (ok: bool)
      requires Valid() && IsTree(t)
      modifies this, buffer
      ensures ok <==> old(offset) + |Printed(t, format, old(depth))| + 2 <= old(Limit())
      ensures ok ==> Wrote(Printed(t, format, old(depth)))
      decreases Size(t), 1
    {
      hide Escape, PrintedItems, PrintedMembers, Wrote;
      match t
      case Null => ok := Strcpy(NULL_TEXT);
      case Bool(b) => ok := Strcpy(BoolText(b));
      case Number(digits) =>
        ok := PrintNumber(digits);
      case String(s) => ok := PrintString(s);
      case Array(items) => ok := PrintArray(items);
      case Object(members) => ok := PrintObject(members);
    }

    /** print_number, once the number's text is in its buffer. */
    method PrintNumber(digits: seq<byte>) returns (ok: bool)
      requires Valid() && |digits| <= NUMBER_TEXT_MAX
      modifies this`buffer, this`offset, buffer
      ensures ok <==> old(offset) + |digits| + 2 <= old(Limit())
      ensures ok ==> Wrote(digits)
    {
      ok := AppendString(digits);
    }

    method PrintArray(items: Items) returns (ok: bool)
      requires Valid() && AreTrees(items)
      modifies this, buffer
      ensures ok <==> old(offset) + |Printed(Array(items), format, old(depth))| + 2 <= old(Limit())
      ensures ok ==> Wrote(Printed(Array(items), format, old(depth)))
      decreases Size(Array(items)), 0
    {
      hide PrintedItems, Printed;
      ghost var all, pre := PrintedItems(items, format, depth + 1), buffer[..offset];
      ArrayUnfold(items, format, depth);
      ArrayParts([OPEN_ARRAY], all, [CLOSE_ARRAY], pre);
      ok := OpenItems(items);
      if !ok { return; }
      ok := Strcpy([CLOSE_ARRAY]);
      depth := depth - 1;
    }

    /** The bracket and the elements, one level deeper. */
    method OpenItems(items: Items) returns (ok: bool)
      requires Valid() && AreTrees(items)
      modifies this, buffer
      ensures !ok ==> old(offset) + 1 + |PrintedItems(items, format, old(depth) + 1)| + 2 > old(Limit())
      ensures ok ==> Opened([OPEN_ARRAY], PrintedItems(items, format, old(depth) + 1))
      decreases ItemsSize(items), 2
    {
      hide PrintedItems;
      ok := Append([OPEN_ARRAY], 0);
      if !ok { return; }
      depth := depth + 1;
      ok := PrintItems(items);
    }

    /** What an opening bracket and what follows it leave. */
    twostate predicate Opened(head: seq<byte>, all: seq<byte>)
      requires old(offset) <= old(buffer.Length)
      reads this, buffer
    {
      && Valid() && (buffer == old(buffer) || (fresh(buffer) && !noalloc)) && Limit() == old(Limit())
      && depth == old(depth) + 1 && offset == old(offset) + |head| + |all| < buffer.Length
      && buffer[..offset] == (old(buffer[..offset]) + head) + all
    }

    /** The loop of print_array. */
    method PrintItems(items: Items) returns (ok: bool)
      requires Valid() && offset < buffer.Length && AreTrees(items)
      modifies this, buffer
      ensures !ok ==> old(offset) + |PrintedItems(items, format, old(depth))| + 2 > old(Limit())
      ensures ok ==> Added(PrintedItems(items, format, old(depth))) && offset < buffer.Length
      decreases ItemsSize(items), 1
    {
      hide PrintedItems, Printed, AreTrees, Between;
      var current := items;
      ghost var done: seq<byte> := [];
      ok := true;
      while current.Item?
        invariant ok && Added(done) && offset < buffer.Length
        invariant ItemsSize(current) <= ItemsSize(items) && AreTrees(current)
        invariant done + PrintedItems(current, format, depth) == PrintedItems(items, format, depth)
        decreases ItemsSize(current)
      {
        ItemsUnfold(current, format, depth);
        ghost var h := Printed(current.head, format, depth) + Between(current.tail.NoItems?, format);
        ghost var rest, pre := PrintedItems(current.tail, format, depth), old(buffer[..offset]);
        ok := PrintItem(current);
        if !ok { return; }
        assert (pre + done) + h == pre + (done + h);
        assert done + (h + rest) == (done + h) + rest;
        done := done + h;
        current := current.tail;
      }
      NoItemsText(format, depth);
      assert done + [] == done;
    }

    /** print_value followed by update_offset. */
    method PrintOn(t: Json) returns (ok: bool)
      requires Valid() && IsTree(t)
      modifies this, buffer
      ensures ok <==> old(offset) + |Printed(t, format, old(depth))| + 2 <= old(Limit())
      ensures ok ==> Added(Printed(t, format, old(depth))) && offset < buffer.Length
      decreases Size(t), 2
    {
      hide Printed;
      ghost var from, text, pre := offset, Printed(t, format, depth), buffer[..offset];
      ok := PrintValue(t);
      if !ok { return; }
      PrintedNoNul(t, format, old(depth));
      SliceTail(buffer, from, text, pre);
      UpdateOffset(from, text);
    }

    /** One turn of print_array's loop. */
    method PrintItem(current: Items) returns (ok: bool)
      requires Valid() && current.Item? && AreTrees(current)
      modifies this, buffer
      ensures !ok ==> old(offset) + |Printed(current.head, format, old(depth))| + |Between(current.tail.NoItems?, format)| + 2 > old(Limit())
      ensures ok ==> Added(Printed(current.head, format, old(depth)) + Between(current.tail.NoItems?, format))
      ensures ok ==> offset < buffer.Length
      decreases ItemsSize(current), 0
    {
      hide Printed;
      ghost var h, pre := Printed(current.head, format, depth), buffer[..offset];
      ok := PrintOn(current.head);
      if !ok { return; }
      if current.tail.Item? {
        ok := AppendString(Between(false, format));
        assert (pre + h) + Between(false, format) == pre + (h + Between(false, format));
      } else {
        assert h + Between(true, format) == h;
      }
    }

    /** print_object, the counterpart of print_array. */
    method PrintObject(members: Members) returns (ok: bool)
      requires Valid() && AreMembers(members)
      modifies this, buffer
      ensures ok <==> old(offset) + |Printed(Object(members), format, old(depth))| + 2 <= old(Limit())
      ensures ok ==> Wrote(Printed(Object(members), format, old(depth)))
      decreases Size(Object(members)), 0
    {
      hide PrintedMembers, Printed, Tabs, IfFormat, Closing;
      ghost var all, pre := PrintedMembers(members, format, depth + 1), buffer[..offset];
      var end := Closing(format, depth);
      ObjectParts(members, format, depth, pre);
      ok := OpenMembers(members);
      if !ok { return; }
      ok := Strcpy(end);
      depth := depth - 1;
    }

    /** The brace and the members, one level deeper. */
    method OpenMembers(members: Members) returns (ok: bool)
      requires Valid() && AreMembers(members)
      modifies this, buffer
      ensures var head := [OPEN_OBJECT] + IfFormat(format, [LF]); var all := PrintedMembers(members, format, old(depth) + 1);
        if ok then Opened(head, all) else old(offset) + |head| + |all| + 2 > old(Limit())
      decreases MembersSize(members), 2
    {
      hide PrintedMembers, IfFormat;
      ok := Append([OPEN_OBJECT] + IfFormat(format, [LF]), 1);
      if !ok { return; }
      depth := depth + 1;
      ok := PrintMembers(members);
    }

    /** The loop of print_object. */
    method PrintMembers(members: Members) returns (ok: bool)
      requires Valid() && offset < buffer.Length && AreMembers(members)
      modifies this, buffer
      ensures !ok ==> old(offset) + |PrintedMembers(members, format, old(depth))| + 2 > old(Limit())
      ensures ok ==> Added(PrintedMembers(members, format, old(depth))) && offset < buffer.Length
      decreases MembersSize(members), 1
    {
      hide PrintedMembers, AreMembers, MemberText;
      var current := members;
      ghost var done: seq<byte> := [];
      ok := true;
      while current.Member?
        invariant ok && Added(done) && offset < buffer.Length
        invariant MembersSize(current) <= MembersSize(members) && AreMembers(current)
        invariant done + PrintedMembers(current, format, depth) == PrintedMembers(members, format, depth)
        decreases MembersSize(current)
      {
        MembersParts(current, format, depth);
        ghost var h := MemberText(current, format, depth);
        ghost var rest, pre := PrintedMembers(current.rest, format, depth), old(buffer[..offset]);
        ok := PrintMember(current);
        if !ok { return; }
        assert (pre + done) + h == pre + (done + h);
        assert done + (h + rest) == (done + h) + rest;
        done := done + h;
        current := current.rest;
      }
      NoMembersText(format, depth);
      assert done + [] == done;
    }

    /** One turn of print_object's loop: indentation, key, value, end of line. */
    method PrintMember(current: Members) returns (ok: bool)
      requires Valid() && offset < buffer.Length && current.Member? && AreMembers(current)
      modifies this, buffer
      ensures !ok ==> old(offset) + |MemberText(current, format, old(depth))| + 2 > old(Limit())
      ensures ok ==> Added(MemberText(current, format, old(depth))) && offset < buffer.Length
      decreases MembersSize(current), 0
    {
      hide Printed, KeyPart, LineEnd;
      ghost var pre, k, v := buffer[..offset], KeyPart(current.key, format, depth), Printed(current.value, format, depth);
      ghost var l := LineEnd(current.rest.NoMembers?, format);
      ok := PrintKey(current.key);
      if !ok { return; }
      ok := PrintOn(current.value);
      if !ok { return; }
      assert ((pre + k) + v) + l == pre + (k + v + l);
      ok := AppendString(LineEnd(current.rest.NoMembers?, format));
    }

    method PrintKey(key: seq<byte>) returns (ok: bool)
      requires Valid() && offset < buffer.Length && NoNul(key)
      modifies this, buffer
      ensures !ok ==> old(offset) + |KeyPart(key, format, old(depth))| + 1 > old(Limit())
      ensures ok ==> Added(KeyPart(key, format, old(depth))) && offset < buffer.Length
    {
      hide Escape, Tabs;
      ghost var pre, t, q := buffer[..offset], IfFormat(format, Tabs(depth)), Quoted(Escape(key));
      ok := true;
      if format {
        ok := Append(Tabs(depth), 0);
        if !ok { return; }
      }
      assert buffer[..offset] == pre + t;
      ok := PrintKeyString(key);
      if !ok { return; }
      assert buffer[..offset] == (pre + t) + q;
      ok := Append([COLON] + (if format then [TAB] else []), 0);
      assert ((pre + t) + q) + ([COLON] + IfFormat(format, [TAB])) == pre + (t + q + [COLON] + IfFormat(format, [TAB]));
    }

    method PrintKeyString(key: seq<byte>) returns (ok: bool)
      requires Valid() && NoNul(key)
      modifies this, buffer
      ensures ok <==> old(offset) + |Quoted(Escape(key))| + 2 <= old(Limit())
      ensures ok ==> Added(Quoted(Escape(key))) && offset < buffer.Length
    {
      hide Escape;
      ghost var from, text, pre := offset, Quoted(Escape(key)), buffer[..offset];
      ok := PrintString(key);
      if !ok { return; }
      EscapeNoNul(key);
      SliceTail(buffer, from, text, pre);
      UpdateOffset(from, text);
    }
  }

  /** A member as it is printed, up to the next. */
  function MemberText(members: Members, format: bool, depth: nat): seq<byte>
    requires members.Member?
  {
    KeyPart(members.key, format, depth) + Printed(members.value, format, depth) + LineEnd(members.rest.NoMembers?, format)
  }

  lemma MembersParts(members: Members, format: bool, depth: nat)
    requires members.Member?
    ensures AreMembers(members) ==> NoNul(members.key) && IsTree(members.value) && AreMembers(members.rest)
    ensures PrintedMembers(members, format, depth)
         == MemberText(members, format, depth) + PrintedMembers(members.rest, format, depth)
  {
    hide KeyPart, Printed, LineEnd;
  }

  lemma ObjectParts(members: Members, format: bool, depth: nat, pre: seq<byte>)
    ensures var head := [OPEN_OBJECT] + IfFormat(format, [LF]);
      var all, end := PrintedMembers(members, format, depth + 1), Closing(format, depth);
      && ((pre + head) + all) + end == pre + Printed(Object(members), format, depth)
      && |head| + |all| + |end| == |Printed(Object(members), format, depth)|
  {
    hide PrintedMembers, Printed, IfFormat, Closing;
    ObjectUnfold(members, format, depth);
    var line, all, end := IfFormat(format, [LF]), PrintedMembers(members, format, depth + 1), Closing(format, depth);
    assert ((pre + ([OPEN_OBJECT] + line)) + all) + end == pre + ([OPEN_OBJECT] + (line + (all + end)));
  }

  lemma ArrayParts(head: seq<byte>, all: seq<byte>, end: seq<byte>, pre: seq<byte>)
    ensures ((pre + head) + all) + end == pre + (head + all + end)
  {
  }

  lemma NoText(s: seq<byte>)
    ensures Escape(s[..0]) == []
  {
  }

  lemma NoItemsText(format: bool, depth: nat)
    ensures PrintedItems(NoItems, format, depth) == []
  {
  }

  lemma SliceTail(buffer: array<byte>, from: nat, text: seq<byte>, before: seq<byte>)
    requires from + |text| <= buffer.Length && |before| == from
    requires buffer[..from + |text|] == before + text
    ensures buffer[from..from + |text|] == text
  {
    assert buffer[from..from + |text|] == buffer[..from + |text|][from..];
  }

  /** cJSON_Print and cJSON_PrintUnformatted: the text, whenever it can be held at all. */
  method Print(t: Json, format: bool) returns (text: Option<seq<byte>>)
    requires IsTree(t)
    ensures text == if |Printed(t, format, 0)| + 2 <= INT_MAX then Some(Printed(t, format, 0)) else None
  {
    hide Printed;
    var memory := new byte[256](_ => 0);
    var p := new PrintBuffer(memory, false, format);
    var ok := p.PrintOn(t);
    if !ok { return None; }
    assert p.buffer[..p.offset] == Printed(t, format, 0);
    text := Some(p.buffer[..p.offset]);
  }

  /** cJSON_PrintPreallocated: two bytes more than the text are needed, and are enough. */
  method PrintPreallocated(t: Json, memory: array<byte>, format: bool) returns (ok: bool)
    requires IsTree(t) && memory.Length <= INT_MAX
    modifies memory
    ensures ok <==> |Printed(t, format, 0)| + 2 <= memory.Length
    ensures var text := Printed(t, format, 0); ok ==> memory[..|text|] == text && memory[|text|] == NUL
  {
    hide Printed;
    var p := new PrintBuffer(memory, true, format);
    ok := p.PrintValue(t);
  }
}
