/** Escapes of Unicode characters: what they decode to, and how much room they take. */
module CJsonUnicode {
  import opened Bytes
  import opened JsonTree
  import opened CJsonText
  import opened CJsonGrammar
  import opened Options

  /** The code points that are characters: no surrogates. */
  predicate IsScalar(cp: nat) { cp < 0xD800 || 0xE000 <= cp <= 0x10FFFF }

  /** Six more bits after those already read. */
  function Shift(high: nat, low: int): int { high * 64 + low }

  /** A decoder by the table of RFC 3629, section 4: the shortest form only, and no
      surrogates. */
  function FromUtf8(u: seq<byte>): Option<nat> {
    if |u| == 1 then Decode1(u[0])
    else if |u| == 2 then Decode2(u[0], u[1])
    else if |u| == 3 then Decode3(u[0], u[1], u[2])
    else if |u| == 4 then Decode4(u[0], u[1], u[2], u[3])
    else None
  }

  function Decode1(a: int): Option<nat> { if 0 <= a < 0x80 then Some(a) else None }

  function Decode2(a: int, b: int): Option<nat> {
    if 0xC2 <= a < 0xE0 && 0x80 <= b < 0xC0 then Some(Shift(a - 0xC0, b - 0x80)) else None
  }

  function Decode3(a: int, b: int, c: int): Option<nat> {
    if 0xE0 <= a < 0xF0 && 0x80 <= b < 0xC0 && 0x80 <= c < 0xC0 && (a == 0xE0 ==> b >= 0xA0) && (a == 0xED ==> b < 0xA0)
    then Some(Shift(Shift(a - 0xE0, b - 0x80), c - 0x80)) else None
  }

  function Decode4(a: int, b: int, c: int, d: int): Option<nat> {
    if 0xF0 <= a < 0xF5 && 0x80 <= b < 0xC0 && 0x80 <= c < 0xC0 && 0x80 <= d < 0xC0 &&
       (a == 0xF0 ==> b >= 0x90) && (a == 0xF4 ==> b < 0x90)
    then Some(Shift(Shift(Shift(a - 0xF0, b - 0x80), c - 0x80), d - 0x80)) else None
  }

  lemma Digit(m: nat, z: nat)
    requires z < 64
    ensures (m * 64 + z) / 64 == m && (m * 64 + z) % 64 == z
  {
  }

  /** The two upper divisions of Utf8 taken one step at a time. */
  lemma Sixes(n: nat)
    ensures n / 4096 == n / 64 / 64 && n / 262144 == n / 64 / 64 / 64
  {
  }

  /** What is written is the one UTF-8 encoding of the character. */
  lemma Utf8Decodes(cp: nat)
    requires IsScalar(cp)
    ensures FromUtf8(Utf8(cp)) == Some(cp)
  {
    hide FromUtf8, Utf8;
    Sixes(cp);
    var m := cp / 64;
    var n := m / 64;
    assert cp == m * 64 + cp % 64 && m == n * 64 + m % 64;
    if cp < 0x80 {
      assert Utf8(cp) == [cp] by { Forms(cp); }
      FromOne([cp]);
    } else if cp < 0x800 {
      Forms(cp);
      FromTwo(Utf8(cp));
    } else if cp < 0x10000 {
      Forms(cp);
      FromThree(Utf8(cp));
      assert n == 0xD ==> m % 64 < 0x20;
    } else {
      Forms(cp);
      assert n == n / 64 * 64 + n % 64;
      FromFour(Utf8(cp));
    }
  }

  lemma Forms(cp: nat)
    requires cp <= 0x10FFFF
    ensures cp < 0x80 ==> Utf8(cp) == [cp]
    ensures 0x80 <= cp < 0x800 ==> Utf8(cp) == [0xC0 + cp / 64, 0x80 + cp % 64]
    ensures 0x800 <= cp < 0x10000 ==> Utf8(cp) == [0xE0 + cp / 4096, 0x80 + cp / 64 % 64, 0x80 + cp % 64]
    ensures 0x10000 <= cp ==>
      Utf8(cp) == [0xF0 + cp / 262144, 0x80 + cp / 4096 % 64, 0x80 + cp / 64 % 64, 0x80 + cp % 64]
  {
  }

  lemma FromOne(u: seq<byte>)
    requires |u| == 1
    ensures FromUtf8(u) == Decode1(u[0])
  {
  }

  lemma FromTwo(u: seq<byte>)
    requires |u| == 2
    ensures FromUtf8(u) == Decode2(u[0], u[1])
  {
  }

  lemma FromThree(u: seq<byte>)
    requires |u| == 3
    ensures FromUtf8(u) == Decode3(u[0], u[1], u[2])
  {
  }

  lemma FromFour(u: seq<byte>)
    requires |u| == 4
    ensures FromUtf8(u) == Decode4(u[0], u[1], u[2], u[3])
  {
  }

  /** Nothing else decodes to it. */
  lemma OnlyUtf8(u: seq<byte>)
    requires FromUtf8(u).Some?
    ensures IsScalar(FromUtf8(u).value) && Utf8(FromUtf8(u).value) == u
  {
    hide Utf8;
    var cp := FromUtf8(u).value;
    if |u| == 1 {
      Forms(cp);
    } else if |u| == 2 {
      Digit(u[0] - 0xC0, u[1] - 0x80);
      Forms(cp);
    } else if |u| == 3 {
      var m := Shift(u[0] - 0xE0, u[1] - 0x80);
      Digit(u[0] - 0xE0, u[1] - 0x80);
      Digit(m, u[2] - 0x80);
      Sixes(cp);
      Forms(cp);
    } else {
      OnlyFour(u);
    }
  }

  lemma OnlyFour(u: seq<byte>)
    requires |u| == 4 && FromUtf8(u).Some?
    ensures IsScalar(FromUtf8(u).value) && Utf8(FromUtf8(u).value) == u
  {
    hide Utf8;
    var cp := FromUtf8(u).value;
    var n := Shift(u[0] - 0xF0, u[1] - 0x80);
    var m := Shift(n, u[2] - 0x80);
    Digit(u[0] - 0xF0, u[1] - 0x80);
    Digit(n, u[2] - 0x80);
    Digit(m, u[3] - 0x80);
    Sixes(cp);
    Forms(cp);
  }

  // UTF-16

  /** The code units of RFC 2781, section 2.1. */
  function Units16(cp: nat): (u: seq<nat>)
    requires IsScalar(cp)
    ensures |u| == 1 || |u| == 2
  {
    if cp < 0x10000 then [cp] else [0xD800 + (cp - 0x10000) / 0x400, 0xDC00 + (cp - 0x10000) % 0x400]
  }

  /** The characters from p on are \u escapes of these code units. */
  predicate Escapes(c: seq<byte>, p: nat, units: seq<nat>) {
    forall k :: 0 <= k < |units| ==> EscapesUnit(c, p + 6 * k, units[k])
  }

  predicate EscapesUnit(c: seq<byte>, p: nat, unit: nat) {
    p + 6 <= |c| && c[p] == BACKSLASH && c[p + 1] == 117 && FourHex(c, p + 2) && Hex4(c, p + 2) == unit
  }

  /** Every character, however its hexadecimal digits are written, is read as itself. */
  lemma EveryCharacter(c: seq<byte>, p: nat, end: nat, cp: nat)
    requires IsScalar(cp) && Escapes(c, p, Units16(cp)) && p + 6 * |Units16(cp)| <= end < |c|
    ensures Utf16(c, p, end) == (6 * |Units16(cp)|, cp)
    ensures Unescape(c, p, end) == Before(Utf8(cp), Unescape(c, p + 6 * |Units16(cp)|, end))
  {
    hide Utf16, Unescape, Utf8;
    assert EscapesUnit(c, p + 6 * 0, Units16(cp)[0]);
    if cp >= 0x10000 {
      assert EscapesUnit(c, p + 6 * 1, Units16(cp)[1]);
      Pair(c, p, end, cp - 0x10000);
    } else {
      Single(c, p, end, cp);
    }
    EscapeTaken(c, p, end);
  }

  lemma Single(c: seq<byte>, p: nat, end: nat, cp: nat)
    requires IsScalar(cp) && cp < 0x10000 && p + 6 <= end < |c| && Hex4(c, p + 2) == cp
    ensures Utf16(c, p, end) == (6, cp)
  {
  }

  lemma Pair(c: seq<byte>, p: nat, end: nat, n: nat)
    requires n < 0x100000 && p + 12 <= end < |c|
    requires Hex4(c, p + 2) == 0xD800 + n / 0x400 && EscapesUnit(c, p + 6, 0xDC00 + n % 0x400)
    ensures Utf16(c, p, end) == (12, 0x10000 + n)
  {
    hide Hex4, FourHex;
    Halves(n);
  }

  lemma EscapeTaken(c: seq<byte>, p: nat, end: nat)
    requires p + 6 <= end < |c| && c[p] == BACKSLASH && c[p + 1] == 117 && Utf16(c, p, end).0 != 0
    ensures var (n, cp) := Utf16(c, p, end); Unescape(c, p, end) == Before(Utf8(cp), Unescape(c, p + n, end))
  {
    hide Utf16, Utf8;
  }

  lemma Halves(n: nat)
    requires n < 0x100000
    ensures (0xD800 + n / 0x400) % 0x400 == n / 0x400 && (0xDC00 + n % 0x400) % 0x400 == n % 0x400
    ensures n / 0x400 < 0x400
  {
  }

  /** The other direction: when all the digits are hexadecimal, only the escapes of a
      character are accepted. */
  lemma OnlyCharacters(c: seq<byte>, p: nat, end: nat)
    requires p + 6 <= end < |c| && c[p] == BACKSLASH && c[p + 1] == 117 && FourHex(c, p + 2)
    ensures Utf16(c, p, end).0 != 0 <==>
            exists cp :: IsScalar(cp) && p + 6 * |Units16(cp)| <= end && Escapes(c, p, Units16(cp))
  {
    if Utf16(c, p, end).0 != 0 { AcceptedIsCharacter(c, p, end); }
    if cp :| IsScalar(cp) && p + 6 * |Units16(cp)| <= end && Escapes(c, p, Units16(cp)) {
      EveryCharacter(c, p, end, cp);
    }
  }

  lemma AcceptedIsCharacter(c: seq<byte>, p: nat, end: nat)
    requires p + 6 <= end < |c| && c[p] == BACKSLASH && c[p + 1] == 117 && FourHex(c, p + 2)
    requires Utf16(c, p, end).0 != 0
    ensures var (n, cp) := Utf16(c, p, end);
      IsScalar(cp) && n == 6 * |Units16(cp)| && Escapes(c, p, Units16(cp))
  {
    hide FourHex, IsHexDigit;
    var (n, cp) := Utf16(c, p, end);
    var first := Hex4(c, p + 2);
    if n == 12 {
      var second := Hex4(c, p + 8);
      HexOrNul(c, p + 8);
      PairOf(first, second);
      assert Units16(cp) == [first, second];
    } else {
      assert Units16(cp) == [first];
    }
  }

  lemma HexOrNul(c: seq<byte>, p: nat)
    ensures Hex4(c, p) != 0 ==> FourHex(c, p) && p + 4 <= |c|
  {
  }

  lemma PairOf(first: nat, second: nat)
    requires 0xD800 <= first < 0xDC00 && 0xDC00 <= second < 0xE000
    ensures var n := (first % 0x400) * 0x400 + second % 0x400;
      n < 0x100000 && 0xD800 + n / 0x400 == first && 0xDC00 + n % 0x400 == second
  {
    var high, low := first - 0xD800, second - 0xDC00;
    assert first % 0x400 == high && second % 0x400 == low;
    assert (high * 0x400 + low) / 0x400 == high && (high * 0x400 + low) % 0x400 == low;
  }

  /** Hexadecimal digits that are none make a NUL character, not an error: the text
      "\uZZZZ" parses to a string of one zero byte. */
  lemma BadDigitsAreNul()
    ensures var c := [QUOTE, BACKSLASH, 117, 90, 90, 90, 90, QUOTE, NUL];
      Terminated(c) && ParseString(c, 0) == Parsed([NUL], 8)
  {
    var c := [QUOTE, BACKSLASH, 117, 90, 90, 90, 90, QUOTE, NUL];
    assert ClosingQuote(c, 5) == ClosingQuote(c, 6) == 7;
    assert ClosingQuote(c, 3) == ClosingQuote(c, 4) == ClosingQuote(c, 5);
    assert !FourHex(c, 3) by { assert !IsHexDigit(c[3]); }
    assert Unescape(c, 7, 7) == Parsed([], 7);
    assert Utf16(c, 1, 7) == (6, 0);
    assert [NUL] + [] == [NUL];
  }

  // Room

  /** How many characters, counting an escape pair as one, lie between p and end. */
  function CharsLeft(c: seq<byte>, p: nat, end: nat): nat
    requires end <= |c|
    decreases |c| - p
  {
    if p >= end then 0 else if c[p] == BACKSLASH then 1 + CharsLeft(c, p + 2, end) else 1 + CharsLeft(c, p + 1, end)
  }

  lemma {:induction false} FewerFurther(c: seq<byte>, p: nat, q: nat, end: nat)
    requires end <= |c| && p <= q
    ensures CharsLeft(c, q, end) <= CharsLeft(c, p, end)
    decreases |c| - p, q - p
  {
    if q == p + 1 && p < end && c[p] == BACKSLASH && q < end {
      if c[q] == BACKSLASH { FewerFurther(c, p + 2, q + 2, end); }
    } else if p + 1 < q && p < end {
      FewerFurther(c, p, p + 1, end);
      FewerFurther(c, p + 1, q, end);
    }
  }

  /** The characters passed by one step of the copying loop, and the bytes it writes. */
  lemma EscapeRoom(c: seq<byte>, p: nat, end: nat)
    requires p < end < |c| && c[p] == BACKSLASH && c[p + 1] == 117 && Utf16(c, p, end).0 != 0
    ensures |Utf8(Utf16(c, p, end).1)| + CharsLeft(c, p + Utf16(c, p, end).0, end) <= CharsLeft(c, p, end)
  {
    var (n, cp) := Utf16(c, p, end);
    if FourHex(c, p + 2) {
      assert CharsLeft(c, p + 2, end) == 4 + CharsLeft(c, p + 6, end) by { FourPlain(c, p + 2, end); }
      if n == 12 { FewerFurther(c, p + 6, p + 12, end); }
    } else {
      FewerFurther(c, p + 2, p + 6, end);
    }
  }

  lemma FourPlain(c: seq<byte>, p: nat, end: nat)
    requires FourHex(c, p) && p + 4 <= end <= |c|
    ensures CharsLeft(c, p, end) == 4 + CharsLeft(c, p + 4, end)
  {
    assert IsHexDigit(c[p]) && IsHexDigit(c[p + 1]) && IsHexDigit(c[p + 2]) && IsHexDigit(c[p + 3]);
    assert CharsLeft(c, p + 2, end) == 2 + CharsLeft(c, p + 4, end);
  }

  /** The decoded string never has more bytes than the literal has characters, which is
      less than what parse_string allocates, whatever the literal holds. */
  lemma {:induction false} StringRoom(c: seq<byte>, p: nat, end: nat)
    requires end < |c|
    ensures Unescape(c, p, end).Parsed? ==> |Unescape(c, p, end).value| <= CharsLeft(c, p, end)
    decreases |c| - p
  {
    hide Utf16, Utf8;
    if p < end {
      if c[p] != BACKSLASH { StringRoom(c, p + 1, end); }
      else if Unescaped(c[p + 1]) != 0 { StringRoom(c, p + 2, end); }
      else if c[p + 1] == 117 && Utf16(c, p, end).0 != 0 {
        EscapeRoom(c, p, end);
        StringRoom(c, p + Utf16(c, p, end).0, end);
      }
    }
  }
}
