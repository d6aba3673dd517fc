/** Base64, RFC 4648 section 4: the loops over output arrays and the texts they write. */
module Base64 {
  import opened Bytes

  const PAD: byte := 61

  // The two character maps

  /** base64_chars[c] */
  function EncodeChar(c: nat): (ch: byte)
    requires c < 64
    ensures DecodeChar(ch) == c && ch != PAD
  {
    if c < 26 then 65 + c else if c < 52 then 71 + c else if c < 62 then c - 4 else if c == 62 then 43 else 47
  }

  /** A character outside the alphabet counts as the first letter of it. */
  function DecodeChar(c: byte): (v: nat)
    ensures v <= 64 && (v == 64 <==> c == PAD)
  {
    if IsUpper(c) then c - 65 else if IsLower(c) then c - 71 else if IsDigit(c) then c + 4
    else if c == 43 then 62 else if c == 47 then 63 else if c == PAD then 64 else 0
  }

  // Groups

  // The bits of three bytes, six at a time

  function Sextet1(a: byte): (v: nat) ensures v < 64 { a / 4 }

  function Sextet2(a: byte, b: byte): (v: nat) ensures v < 64 { a % 4 * 16 + b / 16 }

  function Sextet3(b: byte, c: byte): (v: nat) ensures v < 64 { b % 16 * 4 + c / 64 }

  function Sextet4(c: byte): (v: nat) ensures v < 64 { c % 64 }

  /** Three bytes as four characters. */
  function Group3(a: byte, b: byte, c: byte): (g: seq<byte>)
    ensures |g| == 4
  {
    [EncodeChar(Sextet1(a)), EncodeChar(Sextet2(a, b)), EncodeChar(Sextet3(b, c)), EncodeChar(Sextet4(c))]
  }

  function Group2(a: byte, b: byte): seq<byte> {
    [EncodeChar(Sextet1(a)), EncodeChar(Sextet2(a, b)), EncodeChar(Sextet3(b, 0)), PAD]
  }

  function Group1(a: byte): seq<byte> { [EncodeChar(Sextet1(a)), EncodeChar(Sextet2(a, 0)), PAD, PAD] }

  function Encoded(d: seq<byte>): (e: seq<byte>)
    ensures |e| == EncodedSize(|d|)
  {
    SmallSizes();
    if |d| == 0 then []
    else if |d| == 1 then Group1(d[0])
    else if |d| == 2 then Group2(d[0], d[1])
    else
      SizeStep(|d|);
      Group3(d[0], d[1], d[2]) + Encoded(d[3..])
  }

  function EncodedSize(n: nat): (size: nat)
    ensures size % 4 == 0
  {
    (n + 2) / 3 * 4
  }

  lemma SmallSizes()
    ensures EncodedSize(0) == 0 && EncodedSize(1) == 4 && EncodedSize(2) == 4
  {
  }

  lemma SizeStep(n: nat)
    requires n >= 3
    ensures EncodedSize(n) == EncodedSize(n - 3) + 4
  {
  }

  /** The size base64_decode_'s callers allocate. */
  function DecodedSize(e: seq<byte>): nat
    requires |e| >= 2
  {
    (|e| + 3) / 4 * 3 - (if e[|e| - 1] == PAD then 1 else 0) - (if e[|e| - 2] == PAD then 1 else 0)
  }

  /** The bytes of four characters: one, two or three of them. */
  function Block(a: byte, b: byte, c: byte, d: byte): (s: seq<byte>)
    ensures |s| == if c == PAD then 1 else if d == PAD then 2 else 3
  {
    var w, x, y, z := DecodeChar(a), DecodeChar(b), DecodeChar(c), DecodeChar(d);
    [Byte1(w, x)] + if y == 64 then [] else [Byte2(x, y)] + if z == 64 then [] else [Byte3(y, z)]
  }

  // The bytes of four values, cut to eight bits

  function Byte1(w: nat, x: nat): byte { (w * 4 + x / 16) % 256 }

  function Byte2(x: nat, y: nat): byte { (x % 16 * 16 + y / 4) % 256 }

  function Byte3(y: nat, z: nat): byte { (y % 4 * 64 + z) % 256 }

  /** Decoding ends with the first group that holds padding in its second half. */
  function Decoded(e: seq<byte>): seq<byte>
    requires |e| % 4 == 0
  {
    if e == [] then []
    else
      Quad(|e|);
      var b := Block(e[0], e[1], e[2], e[3]);
      b + if |b| < 3 then [] else Decoded(e[4..])
  }

  // The round trip

  lemma Sixteens(p: nat, q: nat)
    requires q < 16
    ensures (p * 16 + q) / 16 == p && (p * 16 + q) % 16 == q
  {
  }

  lemma Fours(p: nat, q: nat)
    requires q < 4
    ensures (p * 4 + q) / 4 == p && (p * 4 + q) % 4 == q
  {
  }

  /** The six-bit parts of neighbouring bytes put together again. */
  lemma Parts(a: byte, b: byte, c: byte)
    ensures Byte1(Sextet1(a), Sextet2(a, b)) == a && Byte2(Sextet2(a, b), Sextet3(b, c)) == b && Byte3(Sextet3(b, c), Sextet4(c)) == c
  {
    Part1(a, b);
    Part2(a, b, c);
    Part3(b, c);
  }

  lemma Part1(a: byte, b: byte)
    ensures Byte1(Sextet1(a), Sextet2(a, b)) == a
  {
    Sixteens(a % 4, b / 16);
  }

  lemma Part2(a: byte, b: byte, c: byte)
    ensures Byte2(Sextet2(a, b), Sextet3(b, c)) == b
  {
    Sixteens(a % 4, b / 16);
    Fours(b % 16, c / 64);
  }

  lemma Part3(b: byte, c: byte)
    ensures Byte3(Sextet3(b, c), Sextet4(c)) == c
  {
    Fours(b % 16, c / 64);
  }

  lemma BlockIs(a: byte, b: byte, c: byte, d: byte, w: nat, x: nat, y: nat, z: nat)
    requires DecodeChar(a) == w && DecodeChar(b) == x && DecodeChar(c) == y && DecodeChar(d) == z
    ensures Block(a, b, c, d)
         == [Byte1(w, x)] + if y == 64 then [] else [Byte2(x, y)] + if z == 64 then [] else [Byte3(y, z)]
  {
  }

  lemma BlockOf3(a: byte, b: byte, c: byte)
    ensures var g := Group3(a, b, c); Block(g[0], g[1], g[2], g[3]) == [a, b, c]
  {
    hide Block, EncodeChar, DecodeChar, Sextet1, Sextet2, Sextet3, Sextet4, Byte1, Byte2, Byte3;
    var g := Group3(a, b, c);
    Parts(a, b, c);
    BlockIs(g[0], g[1], g[2], g[3], Sextet1(a), Sextet2(a, b), Sextet3(b, c), Sextet4(c));
  }

  lemma BlockOf2(a: byte, b: byte)
    ensures var g := Group2(a, b); Block(g[0], g[1], g[2], g[3]) == [a, b]
  {
    hide Block, EncodeChar, DecodeChar, Sextet1, Sextet2, Sextet3, Sextet4, Byte1, Byte2, Byte3;
    var g := Group2(a, b);
    Parts(a, b, 0);
    BlockIs(g[0], g[1], g[2], g[3], Sextet1(a), Sextet2(a, b), Sextet3(b, 0), 64);
  }

  lemma BlockOf1(a: byte)
    ensures var g := Group1(a); Block(g[0], g[1], g[2], g[3]) == [a]
  {
    hide Block, EncodeChar, DecodeChar, Sextet1, Sextet2, Sextet3, Sextet4, Byte1, Byte2, Byte3;
    var g := Group1(a);
    Parts(a, 0, 0);
    BlockIs(g[0], g[1], g[2], g[3], Sextet1(a), Sextet2(a, 0), 64, 64);
  }

  /** Decoding what was encoded gives the bytes back. */
  lemma {:induction false} RoundTrip(d: seq<byte>)
    ensures Decoded(Encoded(d)) == d
    decreases |d|
  {
    hide Block, EncodeChar;
    if |d| == 1 {
      BlockOf1(d[0]);
      assert [d[0]] + [] == d;
    } else if |d| == 2 {
      BlockOf2(d[0], d[1]);
      assert [d[0], d[1]] + [] == d;
    } else if |d| > 2 {
      var g, rest := Group3(d[0], d[1], d[2]), Encoded(d[3..]);
      BlockOf3(d[0], d[1], d[2]);
      RoundTrip(d[3..]);
      assert (g + rest)[4..] == rest && (g + rest)[..4] == g;
      assert [d[0], d[1], d[2]] + d[3..] == d;
    }
  }

  /** Both sizes are the right ones: the room allocated for the decoded bytes is exactly
      as much as they need. */
  lemma {:induction false} SizesAgree(d: seq<byte>)
    requires d != []
    ensures |Encoded(d)| == EncodedSize(|d|) && DecodedSize(Encoded(d)) == |d|
    decreases |d|
  {
    hide EncodeChar, DecodedSize, Group3;
    if |d| > 3 {
      SizesAgree(d[3..]);
      SizeTail(Group3(d[0], d[1], d[2]), Encoded(d[3..])) by { SizeAtLeast(|d[3..]|); }
    } else {
      SizeShort(d);
    }
  }

  lemma SizeAtLeast(n: nat)
    requires n > 0
    ensures EncodedSize(n) >= 4
  {
  }

  lemma SizeShort(d: seq<byte>)
    requires 0 < |d| <= 3
    ensures |Encoded(d)| == 4 && DecodedSize(Encoded(d)) == |d|
  {
    hide EncodeChar;
  }

  lemma SizeTail(g: seq<byte>, rest: seq<byte>)
    requires |g| == 4 && |rest| >= 4
    ensures DecodedSize(g + rest) == DecodedSize(rest) + 3
  {
    var e := g + rest;
    assert e[|e| - 1] == rest[|rest| - 1] && e[|e| - 2] == rest[|rest| - 2];
  }

  /** Padding, if any, is one or two characters at the very end. */
  predicate Canonical(e: seq<byte>)
    requires |e| % 4 == 0
  {
    && (forall k :: 0 <= k < |e| / 4 - 1 ==> e[4 * k + 2] != PAD && e[4 * k + 3] != PAD)
    && (|e| >= 4 && e[|e| - 2] == PAD ==> e[|e| - 1] == PAD)
  }

  /** Whatever the text, the decoder stays within the room DecodedSize announces, and it
      fills it exactly when the padding is canonical. */
  lemma {:induction false} DecodedFits(e: seq<byte>)
    requires |e| % 4 == 0 && e != []
    ensures |Decoded(e)| <= DecodedSize(e)
    ensures |Decoded(e)| == DecodedSize(e) <==> Canonical(e)
    decreases |e|
  {
    hide Block;
    var b := Block(e[0], e[1], e[2], e[3]);
    if |e| == 4 {
      assert Decoded(e[4..]) == [];
    } else {
      var rest := e[4..];
      DecodedFits(rest);
      assert DecodedSize(e) == DecodedSize(rest) + 3;
      assert Canonical(e) <==> |b| == 3 && Canonical(rest) by { CanonicalTail(e); }
    }
  }

  lemma CanonicalTail(e: seq<byte>)
    requires |e| % 4 == 0 && |e| > 4
    ensures Canonical(e) <==> e[2] != PAD && e[3] != PAD && Canonical(e[4..])
  {
    var rest := e[4..];
    if Canonical(e) {
      assert e[4 * 0 + 2] != PAD;
      forall k | 0 <= k < |rest| / 4 - 1 ensures rest[4 * k + 2] != PAD && rest[4 * k + 3] != PAD {
        assert e[4 * (k + 1) + 2] != PAD;
      }
    }
    if e[2] != PAD && e[3] != PAD && Canonical(rest) {
      forall k | 0 <= k < |e| / 4 - 1 ensures e[4 * k + 2] != PAD && e[4 * k + 3] != PAD {
        if k > 0 { assert rest[4 * (k - 1) + 2] != PAD; }
      }
    }
  }

  // The loops

  lemma {:induction false} EncodedSplit(d: seq<byte>, k: nat)
    requires 3 * k <= |d|
    ensures Encoded(d) == Encoded(d[..3 * k]) + Encoded(d[3 * k..])
    decreases k
  {
    hide EncodeChar, EncodedSize;
    if k == 0 {
      assert d[..0] == [] && d[0..] == d;
    } else {
      var i := 3 * k;
      EncodedSplit(d[3..], k - 1);
      assert d[..i][3..] == d[3..][..i - 3] && d[i..] == d[3..][i - 3..];
      var g, x, y := Group3(d[0], d[1], d[2]), Encoded(d[3..][..i - 3]), Encoded(d[i..]);
      assert g + (x + y) == (g + x) + y;
    }
  }

  lemma EncodedThree(d: seq<byte>, k: nat)
    requires 3 * k + 3 <= |d|
    ensures var i := 3 * k; Encoded(d[..i + 3]) == Encoded(d[..i]) + Group3(d[i], d[i + 1], d[i + 2])
  {
    hide EncodeChar, EncodedSize;
    var i := 3 * k;
    EncodedSplit(d[..i + 3], k);
    assert d[..i + 3][..i] == d[..i] && d[..i + 3][i..] == [d[i], d[i + 1], d[i + 2]];
    assert [d[i], d[i + 1], d[i + 2]][3..] == [];
    var g := Group3(d[i], d[i + 1], d[i + 2]);
    assert g + Encoded([]) == g;
  }

  method Encode(data: seq<byte>, out: array<byte>) returns (j: nat)
    requires out.Length >= EncodedSize(|data|)
    modifies out
    ensures j == EncodedSize(|data|) && out[..j] == Encoded(data)
  {
    hide EncodeChar, Encoded, EncodedSize, Group3;
    var i, whole := 0, |data| - |data| % 3;
    j := 0;
    ghost var k := 0;
    assert data[..0] == [] && Encoded([]) == [] by { EncodedNothing(); }
    while i < whole
      invariant i <= whole && i == 3 * k && j == 4 * k && j <= EncodedSize(|data|)
      invariant out[..j] == Encoded(data[..i])
    {
      OneMore(|data|, k);
      EncodedThree(data, k);
      Copy(out, j, Group3(data[i], data[i + 1], data[i + 2]));
      i, j, k := i + 3, j + 4, k + 1;
    }
    EncodedSplit(data, k);
    WholeSize(|data|, k);
    EncodedEnd(data[i..]);
    if |data| % 3 == 1 {
      Copy(out, j, Group1(data[i]));
      j := j + 4;
    } else if |data| % 3 == 2 {
      Copy(out, j, Group2(data[i], data[i + 1]));
      j := j + 4;
    }
  }

  lemma OneMore(n: nat, k: nat)
    requires 3 * k < n - n % 3
    ensures 3 * k + 3 <= n - n % 3 && 4 * k + 4 <= EncodedSize(n)
  {
  }

  lemma WholeSize(n: nat, k: nat)
    requires n - n % 3 == 3 * k
    ensures EncodedSize(n) == 4 * k + if n % 3 == 0 then 0 else 4
  {
  }

  lemma EncodedNothing()
    ensures Encoded([]) == []
  {
  }

  lemma EncodedEnd(d: seq<byte>)
    requires |d| < 3
    ensures Encoded(d) == if |d| == 0 then [] else if |d| == 1 then Group1(d[0]) else Group2(d[0], d[1])
  {
  }

  /** -1 when the text is no multiple of four long. */
  method Decode(text: seq<byte>, data: array<byte>) returns (j: int)
    requires |text| % 4 == 0 ==> data.Length >= |Decoded(text)|
    modifies data
    ensures j == if |text| % 4 != 0 then -1 else |Decoded(text)|
    ensures j >= 0 ==> data[..j] == Decoded(text)
  {
    hide Block, Decoded;
    if |text| % 4 != 0 { return -1; }
    var i := 0;
    j := 0;
    ghost var rest := text;
    assert data[..0] == [];
    while i < |text|
      invariant i <= |text| && rest == text[i..] && |rest| % 4 == 0
      invariant 0 <= j <= |Decoded(text)| && Decoded(text) == data[..j] + Decoded(rest)
    {
      DecodedNext(rest);
      assert rest[..4] == text[i..i + 4];
      var b := Block(text[i], text[i + 1], text[i + 2], text[i + 3]);
      ghost var after := if |b| < 3 then [] else Decoded(rest[4..]);
      assert data[..j] + (b + after) == (data[..j] + b) + after;
      Copy(data, j, b);
      j := j + |b|;
      if |b| < 3 { return; }
      rest := rest[4..];
      i := i + 4;
    }
    DecodedNothing(rest);
  }

  lemma DecodedNext(e: seq<byte>)
    requires |e| % 4 == 0 && e != []
    ensures |e| >= 4 && |e[4..]| % 4 == 0
    ensures var b := Block(e[0], e[1], e[2], e[3]); Decoded(e) == b + if |b| < 3 then [] else Decoded(e[4..])
  {
    hide Block;
    Quad(|e|);
  }

  lemma Quad(n: nat)
    requires n % 4 == 0 && n > 0
    ensures n >= 4 && (n - 4) % 4 == 0
  {
  }

  lemma DecodedNothing(e: seq<byte>)
    requires e == []
    ensures Decoded(e) == []
  {
  }
}
