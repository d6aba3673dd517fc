/** TLV8 lists: values longer than 255 bytes are cut into fragments of one type, and
    fragments that follow each other are put together again. */
module Tlv8 {
  import opened Bytes

  datatype Tlv = Tlv(kind: byte, value: seq<byte>)

  // Writing

  function Fragments(kind: byte, v: seq<byte>): (b: seq<byte>)
    ensures b != []
  {
    if |v| <= 255 then [kind, |v|] + v else [kind, 255] + v[..255] + Fragments(kind, v[255..])
  }

  function Formatted(list: seq<Tlv>): seq<byte> {
    if list == [] then [] else Fragments(list[0].kind, list[0].value) + Formatted(list[1..])
  }

  function SizeOf(v: seq<byte>): nat { |v| + 2 * ((|v| + 254) / 255) }

  /** The size tlv_format announces. */
  function RequiredSize(list: seq<Tlv>): nat {
    if list == [] then 0 else SizeOf(list[0].value) + RequiredSize(list[1..])
  }

  function Empties(list: seq<Tlv>): nat {
    if list == [] then 0 else (if list[0].value == [] then 1 else 0) + Empties(list[1..])
  }

  lemma {:induction false} FragmentsSize(kind: byte, v: seq<byte>)
    ensures |Fragments(kind, v)| == SizeOf(v) + (if v == [] then 2 else 0)
    decreases |v|
  {
    if |v| > 255 {
      FragmentsSize(kind, v[255..]);
      assert (|v| + 254) / 255 == (|v[255..]| + 254) / 255 + 1;
    }
  }

  /** The announced size is the number of bytes written, short by two for each empty value. */
  lemma {:induction false} FormattedSize(list: seq<Tlv>)
    ensures |Formatted(list)| == RequiredSize(list) + 2 * Empties(list)
    decreases |list|
  {
    hide Fragments, SizeOf;
    if list != [] {
      FragmentsSize(list[0].kind, list[0].value);
      FormattedSize(list[1..]);
    }
  }

  // Reading

  /** Every length byte is present, is not zero, and is followed by that many bytes: on
      other input tlv_parse reads past the end or never stops. */
  predicate Framed(b: seq<byte>) {
    b == [] || (|b| >= 2 && 0 < b[1] && 2 + b[1] <= |b| && Framed(b[2 + b[1]..]))
  }

  /** The first value, glued from its fragments, and what follows it. */
  function First(b: seq<byte>): (r: (seq<byte>, seq<byte>))
    requires b != [] && Framed(b)
    ensures |r.1| < |b| && Framed(r.1) && r.0 != []
  {
    var rest := b[2 + b[1]..];
    if b[1] == 255 && rest != [] && rest[0] == b[0] then
      var (v, left) := First(rest);
      (b[2..257] + v, left)
    else (b[2..2 + b[1]], rest)
  }

  function ReadAll(b: seq<byte>): seq<Tlv>
    requires Framed(b)
    decreases |b|
  {
    if b == [] then [] else [Tlv(b[0], First(b).0)] + ReadAll(First(b).1)
  }

  // The round trip

  predicate Joins(a: Tlv, b: Tlv) { a.kind == b.kind && |a.value| % 255 == 0 }

  /** The list with every value whose size is a multiple of 255 glued to its right
      neighbour, if that has the same type. */
  function Glue(list: seq<Tlv>): (g: seq<Tlv>)
    ensures (g == [] <==> list == []) && (list != [] ==> g[0].kind == list[0].kind)
  {
    if list == [] then []
    else
      var rest := Glue(list[1..]);
      if rest != [] && Joins(list[0], rest[0])
      then [Tlv(list[0].kind, list[0].value + rest[0].value)] + rest[1..]
      else [list[0]] + rest
  }

  predicate NonEmpty(list: seq<Tlv>) { forall i :: 0 <= i < |list| ==> list[i].value != [] }

  lemma {:induction false} FragmentsFramed(kind: byte, v: seq<byte>, tail: seq<byte>)
    requires v != [] && Framed(tail)
    ensures Framed(Fragments(kind, v) + tail)
    decreases |v|
  {
    hide Fragments;
    FragmentsParts(kind, v, tail);
    if |v| > 255 { FragmentsFramed(kind, v[255..], tail); }
  }

  /** Reading back one value: all of it, and the next value too if the last fragment is
      full and the next type is the same. */
  lemma {:induction false} FirstOfFragments(kind: byte, v: seq<byte>, tail: seq<byte>)
    requires v != [] && Framed(tail)
    ensures Framed(Fragments(kind, v) + tail)
    ensures First(Fragments(kind, v) + tail) ==
      if |v| % 255 == 0 && tail != [] && tail[0] == kind then (v + First(tail).0, First(tail).1) else (v, tail)
    decreases |v|
  {
    hide Fragments, Framed, First;
    FragmentsFramed(kind, v, tail);
    if |v| > 255 {
      FirstOfFragments(kind, v[255..], tail);
      FirstOfMany(kind, v, tail);
      assert v[..255] + v[255..] == v;
      if tail != [] && tail[0] == kind { assert v[..255] + (v[255..] + First(tail).0) == v + First(tail).0; }
    } else {
      FirstOfOne(kind, v, tail);
    }
  }

  lemma FirstOfOne(kind: byte, v: seq<byte>, tail: seq<byte>)
    requires 0 < |v| <= 255 && Framed(tail) && Framed(Fragments(kind, v) + tail)
    ensures First(Fragments(kind, v) + tail) ==
      if |v| == 255 && tail != [] && tail[0] == kind then (v + First(tail).0, First(tail).1) else (v, tail)
  {
    hide Fragments, Framed, First;
    FragmentsParts(kind, v, tail);
    FirstStep(Fragments(kind, v) + tail);
  }

  lemma FirstOfMany(kind: byte, v: seq<byte>, tail: seq<byte>)
    requires |v| > 255 && Framed(Fragments(kind, v) + tail) && Framed(Fragments(kind, v[255..]) + tail)
    ensures var more := First(Fragments(kind, v[255..]) + tail);
      First(Fragments(kind, v) + tail) == (v[..255] + more.0, more.1)
  {
    hide Fragments, Framed, First;
    FragmentsParts(kind, v, tail);
    FirstStep(Fragments(kind, v) + tail);
    StartsWithKind(kind, v[255..]);
  }

  lemma FirstStep(b: seq<byte>)
    requires b != [] && Framed(b)
    ensures 2 + b[1] <= |b|
    ensures var rest := b[2 + b[1]..];
      && Framed(rest)
      && First(b) == if b[1] == 255 && rest != [] && rest[0] == b[0] then (b[2..257] + First(rest).0, First(rest).1)
                     else (b[2..2 + b[1]], rest)
  {
  }

  lemma FragmentsParts(kind: byte, v: seq<byte>, tail: seq<byte>)
    requires v != []
    ensures var b := Fragments(kind, v) + tail; var n := if |v| <= 255 then |v| else 255;
      && b[0] == kind && b[1] == n && 2 + n <= |b| && b[2..2 + n] == v[..n]
      && b[2 + n..] == if |v| <= 255 then tail else Fragments(kind, v[255..]) + tail
    ensures |v| <= 255 ==> v[..|v|] == v
  {
    if |v| <= 255 {
      FragmentParts(kind, v, tail);
    } else {
      var more := Fragments(kind, v[255..]);
      FragmentParts(kind, v[..255], more + tail);
      assert ([kind, 255] + v[..255] + more) + tail == [kind, 255] + v[..255] + (more + tail);
    }
  }

  lemma FragmentParts(kind: byte, v: seq<byte>, t: seq<byte>)
    requires |v| <= 255
    ensures var b := [kind, |v|] + v + t;
      b[0] == kind && b[1] == |v| && b[2..2 + |v|] == v && b[2 + |v|..] == t
  {
  }

  lemma StartsWithKind(kind: byte, v: seq<byte>)
    ensures Fragments(kind, v)[0] == kind
  {
  }

  /** The law of the codec: reading what was written gives the list back, glued. */
  lemma {:induction false} RoundTrip(list: seq<Tlv>)
    requires NonEmpty(list)
    ensures Framed(Formatted(list)) && ReadAll(Formatted(list)) == Glue(list)
    decreases |list|
  {
    hide Fragments, First;
    if list != [] {
      var t, tail := list[0], Formatted(list[1..]);
      RoundTrip(list[1..]);
      FirstOfFragments(t.kind, t.value, tail);
      StartsWithKind(t.kind, t.value);
      if |list| > 1 { StartsWithKind(list[1].kind, list[1].value); }
      assert tail != [] <==> |list| > 1;
      assert (Fragments(t.kind, t.value) + tail)[0] == t.kind;
    }
  }

  /** No value whose size is a multiple of 255 stands before one of the same type. */
  predicate Separate(list: seq<Tlv>) { forall i :: 0 <= i < |list| - 1 ==> !Joins(list[i], list[i + 1]) }

  lemma SeparateTail(list: seq<Tlv>)
    requires list != []
    ensures Separate(list) <==> Separate(list[1..]) && (|list| > 1 ==> !Joins(list[0], list[1]))
  {
    if Separate(list) {
      forall i | 0 <= i < |list[1..]| - 1 ensures !Joins(list[1..][i], list[1..][i + 1]) {
        assert !Joins(list[i + 1], list[i + 2]);
      }
    }
    if Separate(list[1..]) && (|list| > 1 ==> !Joins(list[0], list[1])) {
      forall i | 0 <= i < |list| - 1 ensures !Joins(list[i], list[i + 1]) {
        if i > 0 { assert !Joins(list[1..][i - 1], list[1..][i]); }
      }
    }
  }

  lemma {:induction false} GlueLength(list: seq<Tlv>)
    ensures |Glue(list)| <= |list|
    ensures Glue(list) == list <==> Separate(list)
    ensures !Separate(list) ==> |Glue(list)| < |list|
    decreases |list|
  {
    if list != [] {
      hide Separate, Joins;
      GlueLength(list[1..]);
      SeparateTail(list);
    } else {
      assert Separate(list);
    }
  }

  /** The codec is the identity exactly on the lists without such neighbours. */
  lemma IdentityWhenSeparate(list: seq<Tlv>)
    requires NonEmpty(list)
    ensures Framed(Formatted(list)) && (ReadAll(Formatted(list)) == list <==> Separate(list))
  {
    RoundTrip(list);
    GlueLength(list);
  }

  /** What is read has no empty values, and nothing in it is left to be glued. */
  lemma {:induction false} ReadNonEmpty(b: seq<byte>)
    requires Framed(b)
    ensures NonEmpty(ReadAll(b)) && Separate(ReadAll(b))
    decreases |b|
  {
    if b != [] {
      var (v, rest) := First(b);
      ReadNonEmpty(rest);
      var list := ReadAll(b);
      assert list[1..] == ReadAll(rest);
      FirstStops(b);
      forall i | 0 <= i < |list| ensures list[i].value != [] { if i > 0 { assert list[i] == ReadAll(rest)[i - 1]; } }
      forall i | 0 <= i < |list| - 1 ensures !Joins(list[i], list[i + 1]) {
        if i > 0 { assert !Joins(ReadAll(rest)[i - 1], ReadAll(rest)[i]); }
      }
    }
  }

  /** A glued value ends with a short fragment, or before another type. */
  lemma {:induction false} FirstStops(b: seq<byte>)
    requires b != [] && Framed(b)
    ensures var (v, rest) := First(b); rest != [] && rest[0] == b[0] ==> |v| % 255 != 0
    decreases |b|
  {
    var rest := b[2 + b[1]..];
    if b[1] == 255 && rest != [] && rest[0] == b[0] { FirstStops(rest); }
  }

  /** So whatever was read is written and read back unchanged. */
  lemma ReadBack(b: seq<byte>)
    requires Framed(b)
    ensures Framed(Formatted(ReadAll(b))) && ReadAll(Formatted(ReadAll(b))) == ReadAll(b)
  {
    ReadNonEmpty(b);
    IdentityWhenSeparate(ReadAll(b));
  }

  // Integers

  /** The value of a C int after its bits have been cut to 32. */
  function Int32(x: int): (r: int)
    ensures -0x8000_0000 <= r < 0x8000_0000
  {
    var m := x % 0x1_0000_0000;
    if m < 0x8000_0000 then m else m - 0x1_0000_0000
  }

  function LittleEndian(size: nat, x: int): (b: seq<byte>)
    ensures |b| == size
  {
    if size == 0 then [] else [x % 256] + LittleEndian(size - 1, x / 256)
  }

  /** The number read back, its highest byte first. */
  function FromLittleEndian(b: seq<byte>): int {
    if b == [] then 0 else Int32(FromLittleEndian(b[1..]) * 256 + b[0])
  }

  function Power256(n: nat): (p: nat)
    ensures p > 0
  {
    if n == 0 then 1 else 256 * Power256(n - 1)
  }

  lemma Int32Idempotent(x: int, y: int, k: int)
    requires x == y + k * 0x1_0000_0000
    ensures Int32(x) == Int32(y)
  {
  }

  lemma Int32Same(x: int)
    ensures exists k :: Int32(x) == x + k * 0x1_0000_0000
  {
    var q := x / 0x1_0000_0000;
    assert x == q * 0x1_0000_0000 + x % 0x1_0000_0000;
    if x % 0x1_0000_0000 < 0x8000_0000 { assert Int32(x) == x + (-q) * 0x1_0000_0000; }
    else { assert Int32(x) == x + (-q - 1) * 0x1_0000_0000; }
  }

  /** What is stored in `size` bytes is read back modulo 256 to that power, as a C int. */
  lemma {:induction false} IntegerBytes(size: nat, x: int)
    ensures FromLittleEndian(LittleEndian(size, x)) == Int32(x % Power256(size))
    decreases size
  {
    if size > 0 {
      hide Int32, Power256, LittleEndian, FromLittleEndian;
      IntegerBytes(size - 1, x / 256);
      SplitMod(x, Power256(size - 1));
      PowerNext(size);
      IntegerNext(size, x);
      ByteJoined(x / 256 % Power256(size - 1), x % 256);
    }
  }

  lemma PowerNext(n: nat)
    requires n > 0
    ensures Power256(n) == 256 * Power256(n - 1)
  {
  }

  lemma IntegerNext(size: nat, x: int)
    requires size > 0
    ensures FromLittleEndian(LittleEndian(size, x)) == Int32(FromLittleEndian(LittleEndian(size - 1, x / 256)) * 256 + x % 256)
  {
    hide Int32;
    var more := LittleEndian(size - 1, x / 256);
    assert ([x % 256] + more)[1..] == more;
  }

  lemma ByteJoined(high: int, b: byte)
    ensures Int32(Int32(high) * 256 + b) == Int32(high * 256 + b)
  {
    hide Int32;
    Int32Same(high);
    var k :| Int32(high) == high + k * 0x1_0000_0000;
    Int32Idempotent(Int32(high) * 256 + b, high * 256 + b, 256 * k);
  }

  lemma SplitMod(x: int, m: nat)
    requires m > 0
    ensures x % (256 * m) == x / 256 % m * 256 + x % 256
  {
    var q, r := x / 256 / m, x / 256 % m;
    assert x / 256 == q * m + r;
    assert x == 256 * (q * m + r) + x % 256;
    assert 256 * (q * m) == q * (256 * m);
    Remainder(x, 256 * m, q, r * 256 + x % 256);
  }

  lemma Remainder(x: int, m: nat, q: int, r: int)
    requires m > 0 && x == q * m + r && 0 <= r < m
    ensures x % m == r
  {
    assert (x / m - q) * m == r - x % m;
    if x / m > q { Grows(x / m - q, m); } else if x / m < q { Grows(q - x / m, m); }
  }

  lemma Grows(k: int, m: nat)
    requires k >= 1
    ensures k * m >= m
  {
  }

  /** Four bytes hold every C int; fewer hold the numbers that fit. */
  lemma IntegerRoundTrip(size: nat, x: int)
    requires -0x8000_0000 <= x < 0x8000_0000
    requires size >= 4 || 0 <= x < Power256(size)
    ensures FromLittleEndian(LittleEndian(size, x)) == x
  {
    hide Int32, Power256, LittleEndian, FromLittleEndian;
    IntegerBytes(size, x);
    if size >= 4 {
      PowerWide(size);
      var k :| Power256(size) == k * 0x1_0000_0000;
      WideModulus(x, Power256(size), k);
    } else {
      SmallMod(x, Power256(size));
    }
    Int32Small(x);
  }

  lemma Int32Small(x: int)
    requires -0x8000_0000 <= x < 0x8000_0000
    ensures Int32(x) == x
  {
  }

  lemma SmallMod(x: int, m: nat)
    requires 0 <= x < m
    ensures x % m == x
  {
  }

  lemma WideModulus(x: int, m: nat, k: int)
    requires m > 0 && m == k * 0x1_0000_0000
    ensures Int32(x % m) == Int32(x)
  {
    hide Int32;
    var q := x / m;
    assert x == q * m + x % m;
    assert q * (k * 0x1_0000_0000) == (q * k) * 0x1_0000_0000;
    Int32Idempotent(x, x % m, q * k);
  }

  lemma {:induction false} PowerWide(n: nat)
    requires n >= 4
    ensures exists k :: Power256(n) == k * 0x1_0000_0000
    decreases n
  {
    if n == 4 {
      assert Power256(2) == 65536;
      assert Power256(4) == 65536 * Power256(2);
      assert Power256(4) == 1 * 0x1_0000_0000;
    } else {
      PowerWide(n - 1);
      var k :| Power256(n - 1) == k * 0x1_0000_0000;
      assert Power256(n) == (256 * k) * 0x1_0000_0000;
    }
  }
}
