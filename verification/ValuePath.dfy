/** A TLV characteristic on its way out and back: list, bytes, Base64 text, JSON string,
    and the same in reverse. */
module ValuePath {
  import opened Bytes
  import opened Options
  import opened Tlv8
  import opened TlvList
  import opened Base64
  import opened JsonTree
  import opened CJsonText
  import opened CJsonGrammar
  import CJsonRoundTrip

  /** The text a characteristic read sends for a list. */
  function Sent(list: seq<Tlv>): seq<byte> { Encoded(Formatted(list)) }

  /** The value of a characteristic read. */
  method ReadValue(list: TlvValues) returns (text: seq<byte>)
    requires NonEmpty(list.values)
    ensures text == Sent(list.values)
  {
    hide Fragments, EncodeChar, Encoded;
    FormattedSize(list.values);
    NoEmpties(list.values);
    var size := list.Required();
    if size == 0 {
      EncodedNothing();
      return [];
    }
    var bytes := new byte[size](_ => 0);
    var r, n := list.Format(bytes, size);
    var room := EncodedSize(size);
    var chars := new byte[room + 1](_ => 0);
    assert bytes[..] == bytes[..size];
    var j := Encode(bytes[..], chars);
    chars[j] := NUL;
    text := chars[..j];
  }

  lemma {:induction false} NoEmpties(list: seq<Tlv>)
    requires NonEmpty(list)
    ensures Empties(list) == 0
    decreases |list|
  {
    if list != [] { NoEmpties(list[1..]); }
  }

  /** A characteristic write: the list, or none when the text is too long or no Base64.
      The size of the decoded bytes is taken from the end of the text, so it must be two
      characters at least, and padded canonically; and the bytes must be a TLV list. */
  method WriteValue(text: seq<byte>, maxLen: nat) returns (r: Option<TlvValues>)
    requires |text| >= 2
    requires |text| % 4 == 0 ==> Canonical(text) && Framed(Decoded(text))
    ensures r.Some? <==> |text| <= maxLen && |text| % 4 == 0
    ensures r.Some? ==> fresh(r.value) && r.value.values == ReadAll(Decoded(text))
  {
    hide Block, Framed;
    if |text| > maxLen { return None; }
    var size := DecodedSize(text);
    if |text| % 4 == 0 { DecodedFits(text); }
    var bytes := new byte[size](_ => 0);
    var j := Decode(text, bytes);
    if j < 0 { return None; }
    var list := new TlvValues();
    assert bytes[..] == bytes[..j];
    list.Parse(bytes[..]);
    assert [] + ReadAll(Decoded(text)) == ReadAll(Decoded(text));
    r := Some(list);
  }

  lemma EncodedCanonical(d: seq<byte>)
    requires d != []
    ensures Canonical(Encoded(d))
  {
    hide Encoded, Decoded, Canonical, DecodedSize;
    Base64.RoundTrip(d);
    SizesAgree(d);
    DecodedFits(Encoded(d));
  }

  /** The whole path: what a controller reads and writes back is the list it came from,
      glued, and the sizes computed on both sides are exact. */
  lemma PathRoundTrip(list: seq<Tlv>)
    requires NonEmpty(list) && list != []
    ensures var text := Sent(list);
      && |text| % 4 == 0 && |text| >= 4 && Canonical(text) && Framed(Decoded(text))
      && DecodedSize(text) == RequiredSize(list)
      && ReadAll(Decoded(text)) == Glue(list)
  {
    hide Encoded, Decoded, Canonical, Fragments, DecodedSize, ReadAll, Framed, Glue;
    Tlv8.RoundTrip(list);
    Base64.RoundTrip(Formatted(list));
    FormattedSize(list);
    NoEmpties(list);
    SomethingFormatted(list);
    SizesAgree(Formatted(list));
    EncodedCanonical(Formatted(list));
  }

  lemma SomethingFormatted(list: seq<Tlv>)
    requires list != []
    ensures Formatted(list) != []
  {
    assert |Fragments(list[0].kind, list[0].value)| > 0;
  }

  /** Base64 text goes through a JSON string untouched. */
  lemma {:induction false} NoEscapes(d: seq<byte>)
    ensures Escape(Encoded(d)) == Encoded(d) && NoNul(Encoded(d))
    decreases |d|
  {
    hide Escape, EscapeByte, EncodeChar, Sextet1, Sextet2, Sextet3, Sextet4;
    if |d| == 1 {
      PlainChar(Sextet1(d[0]));
      PlainChar(Sextet2(d[0], 0));
      var g := Group1(d[0]);
      PlainFour(g[0], g[1], g[2], g[3]);
    } else if |d| == 2 {
      PlainChar(Sextet1(d[0]));
      PlainChar(Sextet2(d[0], d[1]));
      PlainChar(Sextet3(d[1], 0));
      var g := Group2(d[0], d[1]);
      PlainFour(g[0], g[1], g[2], g[3]);
    } else if |d| > 2 {
      PlainChar(Sextet1(d[0]));
      PlainChar(Sextet2(d[0], d[1]));
      PlainChar(Sextet3(d[1], d[2]));
      PlainChar(Sextet4(d[2]));
      var g := Group3(d[0], d[1], d[2]);
      PlainFour(g[0], g[1], g[2], g[3]);
      NoEscapes(d[3..]);
      EscapeBoth(g, Encoded(d[3..]));
    } else {
      assert Escape([]) == [] by { EscapeNothing(); }
    }
  }

  lemma EscapeNothing()
    ensures Escape([]) == []
  {
  }

  predicate PlainByte(c: byte) { EscapeByte(c) == [c] && c != NUL }

  lemma PlainChar(c: nat)
    requires c < 64
    ensures PlainByte(EncodeChar(c)) && PlainByte(PAD)
  {
  }

  lemma PlainFour(a: byte, b: byte, c: byte, d: byte)
    requires PlainByte(a) && PlainByte(b) && PlainByte(c) && PlainByte(d)
    ensures Escape([a, b, c, d]) == [a, b, c, d] && NoNul([a, b, c, d])
  {
    hide Escape, EscapeByte, PlainByte, NoNul;
    PlainOne(a);
    PlainOne(b);
    PlainOne(c);
    PlainOne(d);
    EscapeBoth([a], [b]);
    EscapeBoth([c], [d]);
    EscapeBoth([a] + [b], [c] + [d]);
    assert [a, b, c, d] == ([a] + [b]) + ([c] + [d]);
  }

  lemma PlainOne(c: byte)
    requires PlainByte(c)
    ensures Escape([c]) == [c] && NoNul([c])
  {
    assert [c][1..] == [];
  }

  lemma EscapeBoth(a: seq<byte>, b: seq<byte>)
    requires Escape(a) == a && Escape(b) == b && NoNul(a) && NoNul(b)
    ensures Escape(a + b) == a + b && NoNul(a + b)
  {
    EscapeConcat(a, b);
  }

  /** Through JSON as well: the string sent, parsed anywhere in a request, decoded and
      read is the list it came from, glued. */
  lemma ThroughJson(list: seq<Tlv>, c: seq<byte>, i: nat)
    requires NonEmpty(list) && list != [] && At(c, i, Quoted(Sent(list)))
    ensures i < |c| && ParseString(c, i) == CJsonGrammar.Parsed(Sent(list), i + |Sent(list)| + 2)
    ensures Framed(Decoded(Sent(list))) && ReadAll(Decoded(Sent(list))) == Glue(list)
  {
    hide Encoded, Decoded, Escape, ParseString, Framed;
    NoEscapes(Formatted(list));
    CJsonRoundTrip.StringRoundTrip(c, i, Sent(list));
    PathRoundTrip(list);
  }
}
