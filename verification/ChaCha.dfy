/** ChaCha20 as RFC 8439 describes it, and the portable code path that computes it in
    place on word and byte arrays. */
module ChaCha {
  import opened Bytes
  import opened Bits

  const TWO_TO_32: nat := 0x1_0000_0000

  type word = w: int | 0 <= w < 0x1_0000_0000

  // Words

  function Plus(a: word, b: word): word { (a + b) % TWO_TO_32 }

  function XorWord(a: word, b: word): word {
    Powers();
    XorBits(a, b, 32)
  }

  /** rotlFixed */
  function Rotate(w: word, n: nat): word
    requires 0 < n < 32
  {
    RotateFits(w, n);
    Mod(w, Power2(32 - n)) * Power2(n) + Div(w, Power2(32 - n))
  }

  lemma RotateFits(w: word, n: nat)
    requires n <= 32
    ensures 0 <= Mod(w, Power2(32 - n)) * Power2(n) + Div(w, Power2(32 - n)) < TWO_TO_32
    ensures Div(w, Power2(32 - n)) < Power2(n)
  {
    hide Power2, Div, Mod;
    Powers();
    PowerSplit(n);
    Quotient(w, Power2(32 - n), Power2(n));
  }

  /** Rotating left by n moves bit k to bit k + n, round the end of the word. */
  lemma RotateMovesBits(w: word, n: nat, k: nat)
    requires 0 < n < 32 && k < 32
    ensures Bit(Rotate(w, n), (k + n) % 32) == Bit(w, k)
  {
    hide Power2, Bit, Div, Mod, Rotate;
    var high, low := Mod(w, Power2(32 - n)), Div(w, Power2(32 - n));
    RotateParts(w, n);
    BitJoined(high, low, n, (k + n) % 32);
    if k < 32 - n {
      assert (k + n) % 32 == k + n;
      BitMasked(w, 32 - n, k);
    } else {
      assert (k + n) % 32 == k + n - 32;
      BitShifted(w, 32 - n, k - (32 - n));
    }
  }

  lemma RotateParts(w: word, n: nat)
    requires 0 < n < 32
    ensures Rotate(w, n) == Mod(w, Power2(32 - n)) * Power2(n) + Div(w, Power2(32 - n))
    ensures Div(w, Power2(32 - n)) < Power2(n)
  {
    hide Power2;
    Powers();
    PowerSplit(n);
    Quotient(w, Power2(32 - n), Power2(n));
  }

  lemma Quotient(w: nat, high: nat, low: nat)
    requires high > 0 && w < high * low
    ensures Div(w, high) < low && 0 <= Mod(w, high) * low + Div(w, high) < high * low
  {
    hide Div, Mod;
    var q, r := Div(w, high), Mod(w, high);
    Divided(w, high);
    if q >= low { Scale(low, q, high); }
    Scale(r, high - 1, low);
  }

  lemma Divided(w: nat, d: nat)
    requires d > 0
    ensures w == Div(w, d) * d + Mod(w, d)
  {
  }

  lemma Scale(a: int, b: int, c: nat)
    requires a <= b
    ensures a * c <= b * c
  {
  }

  // The block function

  /** A block is sixteen words. */
  predicate IsBlock(x: seq<word>) { |x| == 16 }

  /** The quarter round on four words, section 2.1 of RFC 8439. */
  function Quarter(a: word, b: word, c: word, d: word): (word, word, word, word) {
    var a1 := Plus(a, b);
    var d1 := Rotate(XorWord(d, a1), 16);
    var c1 := Plus(c, d1);
    var b1 := Rotate(XorWord(b, c1), 12);
    var a2 := Plus(a1, b1);
    var d2 := Rotate(XorWord(d1, a2), 8);
    var c2 := Plus(c1, d2);
    (a2, Rotate(XorWord(b1, c2), 7), c2, d2)
  }

  function QuarterAt(x: seq<word>, a: nat, b: nat, c: nat, d: nat): (y: seq<word>)
    requires IsBlock(x) && a < 16 && b < 16 && c < 16 && d < 16
    ensures IsBlock(y)
  {
    var (a', b', c', d') := Quarter(x[a], x[b], x[c], x[d]);
    x[a := a'][b := b'][c := c'][d := d']
  }

  /** A column round and a diagonal round, section 2.3. */
  function DoubleRound(x: seq<word>): (y: seq<word>)
    requires IsBlock(x)
    ensures IsBlock(y)
  {
    var c := QuarterAt(QuarterAt(QuarterAt(QuarterAt(x, 0, 4, 8, 12), 1, 5, 9, 13), 2, 6, 10, 14), 3, 7, 11, 15);
    QuarterAt(QuarterAt(QuarterAt(QuarterAt(c, 0, 5, 10, 15), 1, 6, 11, 12), 2, 7, 8, 13), 3, 4, 9, 14)
  }

  function DoubleRounds(x: seq<word>, n: nat): (y: seq<word>)
    requires IsBlock(x)
    ensures IsBlock(y)
  {
    if n == 0 then x else DoubleRound(DoubleRounds(x, n - 1))
  }

  function Sum(x: seq<word>, y: seq<word>): (z: seq<word>)
    requires IsBlock(x) && IsBlock(y)
    ensures IsBlock(z)
  {
    seq(16, i requires 0 <= i < 16 => Plus(x[i], y[i]))
  }

  /** Twenty rounds, then the input added. */
  function BlockWords(x: seq<word>): (y: seq<word>)
    requires IsBlock(x)
    ensures IsBlock(y)
  {
    Sum(DoubleRounds(x, 10), x)
  }

  function ByteOf(w: word, k: nat): byte
    requires k < 4
  {
    (if k == 0 then w else if k == 1 then w / 256 else if k == 2 then w / 65536 else w / 16777216) % 256
  }

  /** Byte i of the key stream that starts with the block of this state. */
  function KeyByte(x: seq<word>, i: nat): byte
    requires IsBlock(x)
  {
    var b := BlockWords(Advanced(x, i / 64));
    ByteOf(b[i % 64 / 4], i % 64 % 4)
  }

  /** The state n blocks on: the counter is a 32-bit word. */
  function Advanced(x: seq<word>, n: nat): (y: seq<word>)
    requires IsBlock(x)
    ensures IsBlock(y)
  {
    x[12 := (x[12] + n) % TWO_TO_32]
  }

  /** How many blocks a call of n bytes uses up. */
  function BlocksFor(n: nat): nat { (n + 63) / 64 }

  /** The message xored with the key stream, byte by byte. */
  function Stream(x: seq<word>, m: seq<byte>): (c: seq<byte>)
    requires IsBlock(x)
    ensures |c| == |m|
  {
    seq(|m|, i requires 0 <= i < |m| => Xor(m[i], KeyByte(x, i)))
  }

  lemma NoBlocks()
    ensures BlocksFor(0) == 0
  {
  }

  lemma OneMoreBlock(blocks: nat, n: nat)
    requires 0 < n <= 64
    ensures BlocksFor(64 * blocks + n) == blocks + 1
  {
  }

  lemma IsStream(x: seq<word>, m: seq<byte>, c: seq<byte>)
    requires IsBlock(x) && |c| == |m| && forall i :: 0 <= i < |m| ==> c[i] == Xor(m[i], KeyByte(x, i))
    ensures c == Stream(x, m)
  {
    hide Xor, KeyByte;
  }

  lemma StreamTwice(x: seq<word>, m: seq<byte>)
    requires IsBlock(x)
    ensures Stream(x, Stream(x, m)) == m
  {
    hide KeyByte, Xor;
    var c := Stream(x, m);
    forall i | 0 <= i < |m| ensures Stream(x, c)[i] == m[i] {
      XorTwice(m[i], KeyByte(x, i));
    }
  }

  lemma AdvancedTwice(x: seq<word>, a: nat, b: nat)
    requires IsBlock(x)
    ensures Advanced(Advanced(x, a), b) == Advanced(x, a + b)
  {
    assert ((x[12] + a) % TWO_TO_32 + b) % TWO_TO_32 == (x[12] + (a + b)) % TWO_TO_32;
  }

  /** Whole blocks may be cut off the front. */
  lemma KeyBytesLater(x: seq<word>, blocks: nat, i: nat)
    requires IsBlock(x)
    ensures KeyByte(Advanced(x, blocks), i) == KeyByte(x, 64 * blocks + i)
  {
    hide BlockWords, ByteOf, Advanced;
    AdvancedTwice(x, blocks, i / 64);
    assert (64 * blocks + i) / 64 == blocks + i / 64 && (64 * blocks + i) % 64 == i % 64;
  }

  lemma LaterBytes(x: seq<word>, blocks: nat, m: seq<byte>, mAt: nat, c: seq<byte>, cAt: nat, n: nat)
    requires IsBlock(x) && mAt + 64 * blocks + n <= |m| && cAt + 64 * blocks + n <= |c|
    requires forall k :: 0 <= k < n ==> c[cAt + 64 * blocks + k] == Xor(m[mAt + 64 * blocks + k], KeyByte(Advanced(x, blocks), k))
    ensures forall i :: 64 * blocks <= i < 64 * blocks + n ==> c[cAt + i] == Xor(m[mAt + i], KeyByte(x, i))
  {
    hide Xor, KeyByte, Advanced;
    forall i | 64 * blocks <= i < 64 * blocks + n ensures c[cAt + i] == Xor(m[mAt + i], KeyByte(x, i)) {
      var k := i - 64 * blocks;
      KeyBytesLater(x, blocks, k);
      assert c[cAt + 64 * blocks + k] == Xor(m[mAt + 64 * blocks + k], KeyByte(Advanced(x, blocks), k));
    }
  }

  /** Two calls make the stream of one exactly as far as the first call ends on a block:
      the rest of a block begun is thrown away. */
  lemma StreamCut(x: seq<word>, a: seq<byte>, b: seq<byte>)
    requires IsBlock(x) && |a| % 64 == 0
    ensures Stream(x, a + b) == Stream(x, a) + Stream(Advanced(x, BlocksFor(|a|)), b)
  {
    hide KeyByte, Xor, Advanced;
    var n := |a| / 64;
    assert BlocksFor(|a|) == n && |a| == 64 * n;
    forall i | 0 <= i < |b| ensures Stream(x, a + b)[|a| + i] == Stream(Advanced(x, n), b)[i] {
      KeyBytesLater(x, n, i);
    }
  }

  // The object

  function LittleWord(k: seq<byte>, i: nat): word
    requires i + 4 <= |k|
  {
    var a: int, b: int, c: int, d: int := k[i], k[i + 1], k[i + 2], k[i + 3];
    a + 256 * b + 65536 * c + 16777216 * d
  }

  const SIGMA: seq<word> := [0x61707865, 0x3320646e, 0x79622d32, 0x6b206574]
  const TAU: seq<word> := [0x61707865, 0x3120646e, 0x79622d36, 0x6b206574]

  predicate IsKey(key: seq<byte>) { |key| == 16 || |key| == 32 }

  function Constants(key: seq<byte>): seq<word> { if |key| == 32 then SIGMA else TAU }

  /** The i-th of the eight key words: a key of 16 bytes is used twice. */
  function KeyWord(key: seq<byte>, i: nat): word
    requires IsKey(key) && i < 8
  {
    LittleWord(key, if |key| == 32 then 4 * i else 4 * (i % 4))
  }

  /** The state of a key, a 12-byte nonce and a counter; section 2.3 for keys of 32 bytes. */
  function State(key: seq<byte>, iv: seq<byte>, counter: word): (x: seq<word>)
    requires IsKey(key) && |iv| == 12
    ensures IsBlock(x)
  {
    Constants(key) + seq(8, i requires 0 <= i < 8 => KeyWord(key, i))
    + [counter] + seq(3, i requires 0 <= i < 3 => LittleWord(iv, 4 * i))
  }

  method QuarterRound(x: array<word>, a: nat, b: nat, c: nat, d: nat)
    requires x.Length == 16 && a < 16 && b < 16 && c < 16 && d < 16
    requires a != b && a != c && a != d && b != c && b != d && c != d
    modifies x
    ensures x[..] == QuarterAt(old(x[..]), a, b, c, d)
  {
    hide Plus, XorWord, Rotate;
    x[a] := Plus(x[a], x[b]); x[d] := Rotate(XorWord(x[d], x[a]), 16);
    x[c] := Plus(x[c], x[d]); x[b] := Rotate(XorWord(x[b], x[c]), 12);
    x[a] := Plus(x[a], x[b]); x[d] := Rotate(XorWord(x[d], x[a]), 8);
    x[c] := Plus(x[c], x[d]); x[b] := Rotate(XorWord(x[b], x[c]), 7);
  }

  class ChaCha {
    const X: array<word>

    ghost predicate Valid() { X.Length == 16 }

    constructor ()
      ensures Valid() && fresh(X)
    {
      X := new word[16](_ => 0);
    }

    /** wc_Chacha_SetKey: keys of other sizes are refused. */
    method SetKey(key: seq<byte>) returns (ok: bool)
      requires Valid()
      modifies X
      ensures ok <==> IsKey(key)
      ensures !ok ==> X[..] == old(X[..])
      ensures ok ==> X[..4] == Constants(key) && X[12..] == old(X[12..])
      ensures ok ==> forall i :: 0 <= i < 8 ==> X[4 + i] == KeyWord(key, i)
    {
      hide LittleWord;
      if |key| != 16 && |key| != 32 { return false; }
      X[4], X[5], X[6], X[7] := LittleWord(key, 0), LittleWord(key, 4), LittleWord(key, 8), LittleWord(key, 12);
      var k := if |key| == 32 then 16 else 0;
      var constants := if |key| == 32 then SIGMA else TAU;
      X[8], X[9], X[10], X[11] :=
        LittleWord(key, k), LittleWord(key, k + 4), LittleWord(key, k + 8), LittleWord(key, k + 12);
      X[0], X[1], X[2], X[3] := constants[0], constants[1], constants[2], constants[3];
      ok := true;
    }

    method SetIV(iv: seq<byte>, counter: word)
      requires Valid() && |iv| == 12
      modifies X
      ensures X[12] == counter && forall i :: 0 <= i < 3 ==> X[13 + i] == LittleWord(iv, 4 * i)
      ensures X[..12] == old(X[..12])
    {
      hide LittleWord;
      X[12] := counter;
      X[13], X[14], X[15] := LittleWord(iv, 0), LittleWord(iv, 4), LittleWord(iv, 8);
    }

    method Start(key: seq<byte>, iv: seq<byte>, counter: word) returns (ok: bool)
      requires Valid() && |iv| == 12
      modifies X
      ensures ok <==> IsKey(key)
      ensures ok ==> X[..] == State(key, iv, counter)
    {
      hide LittleWord, KeyWord;
      ok := SetKey(key);
      if !ok { return; }
      SetIV(iv, counter);
      assert forall i :: 0 <= i < 8 ==> X[..12][4 + i] == KeyWord(key, i);
      assert X[..12][..4] == Constants(key);
    }

    /** wc_Chacha_wordtobyte */
    method WordToByte(output: array<word>)
      requires Valid() && output.Length == 16 && output != X
      modifies output
      ensures output[..] == BlockWords(X[..])
    {
      hide QuarterAt, DoubleRound;
      var x := new word[16](_ => 0);
      var i := 0;
      while i < 16
        invariant i <= 16 && x[..i] == X[..i]
      {
        x[i] := X[i];
        i := i + 1;
      }
      assert x[..] == X[..];
      i := 20;
      while i > 0
        invariant 0 <= i <= 20 && i % 2 == 0
        invariant x[..] == DoubleRounds(X[..], (20 - i) / 2)
      {
        Double(x);
        i := i - 2;
      }
      ghost var mixed := x[..];
      i := 0;
      while i < 16
        invariant i <= 16 && x[..] == mixed
        invariant forall j :: 0 <= j < i ==> output[j] == Plus(mixed[j], X[j])
      {
        output[i] := Plus(x[i], X[i]);
        i := i + 1;
      }
    }

    method Double(x: array<word>)
      requires x.Length == 16
      modifies x
      ensures x[..] == DoubleRound(old(x[..]))
    {
      hide QuarterAt;
      QuarterRound(x, 0, 4, 8, 12); QuarterRound(x, 1, 5, 9, 13);
      QuarterRound(x, 2, 6, 10, 14); QuarterRound(x, 3, 7, 11, 15);
      QuarterRound(x, 0, 5, 10, 15); QuarterRound(x, 1, 6, 11, 12);
      QuarterRound(x, 2, 7, 8, 13); QuarterRound(x, 3, 4, 9, 14);
    }

    /** wc_Chacha_encrypt_bytes: c may be the array m itself, at the same place. */
    method Process(c: array<byte>, cAt: nat, m: array<byte>, mAt: nat, bytes: nat)
      requires Valid() && bytes < TWO_TO_32 && cAt + bytes <= c.Length && mAt + bytes <= m.Length
      requires c == m ==> cAt == mAt
      modifies X, c
      ensures c[cAt..cAt + bytes] == Stream(old(X[..]), old(m[mAt..mAt + bytes]))
      ensures c[..cAt] == old(c[..cAt]) && c[cAt + bytes..] == old(c[cAt + bytes..])
      ensures X[..] == Advanced(old(X[..]), BlocksFor(bytes))
    {
      hide KeyByte, Xor, BlockWords, ByteOf, Advanced, Stream, BlocksFor;
      var done := 0;
      ghost var start, message, blocks := X[..], m[..], 0;
      AdvancedNone(start);
      assert BlocksFor(0) == 0 by { NoBlocks(); }
      while done < bytes
        invariant done <= bytes && done <= 64 * blocks && blocks == BlocksFor(done)
        invariant done < bytes ==> done == 64 * blocks
        invariant X[..] == Advanced(start, blocks)
        invariant forall i :: 0 <= i < done ==> c[cAt + i] == Xor(message[mAt + i], KeyByte(start, i))
        invariant forall i :: 0 <= i < c.Length && !(cAt <= i < cAt + done) ==> c[i] == old(c[i])
        invariant forall i :: mAt + done <= i < mAt + bytes ==> m[i] == message[i]
      {
        var n := if bytes - done <= 64 then bytes - done else 64;
        AdvancedTwice(start, blocks, 1);
        NextBlock(c, cAt + done, m, mAt + done, n);
        LaterBytes(start, blocks, message, mAt, c[..], cAt, n);
        OneMoreBlock(blocks, n);
        done := done + n;
        blocks := blocks + 1;
      }
      IsStream(start, message[mAt..mAt + bytes], c[cAt..cAt + bytes]);
    }

    /** One turn of the loop: a block of key stream, the counter, the exclusive or. */
    method NextBlock(c: array<byte>, cAt: nat, m: array<byte>, mAt: nat, n: nat)
      requires Valid() && n <= 64 && cAt + n <= c.Length && mAt + n <= m.Length
      requires c == m ==> cAt == mAt
      modifies X, c
      ensures X[..] == Advanced(old(X[..]), 1)
      ensures forall i :: 0 <= i < n ==> c[cAt + i] == Xor(old(m[mAt + i]), KeyByte(old(X[..]), i))
      ensures forall i :: 0 <= i < c.Length && !(cAt <= i < cAt + n) ==> c[i] == old(c[i])
    {
      hide KeyByte, Xor, BlockWords, ByteOf;
      var temp := new word[16](_ => 0);
      ghost var start := X[..];
      WordToByte(temp);
      ghost var block := temp[..];
      X[12] := Plus(X[12], 1);
      assert X[..] == Advanced(start, 1);
      forall i | 0 <= i < n ensures KeyByte(start, i) == ByteOf(block[i / 4], i % 4) {
        BlockByte(start, i);
      }
      XorBlock(c, cAt, m, mAt, n, block, temp);
    }

    /** One block, or the last part of one: byte i is xored with byte i of the words. */
    method XorBlock(c: array<byte>, cAt: nat, m: array<byte>, mAt: nat, n: nat, ghost block: seq<word>, temp: array<word>)
      requires n <= 64 && temp.Length == 16 && temp[..] == block && cAt + n <= c.Length && mAt + n <= m.Length
      requires c == m ==> cAt == mAt
      modifies c
      ensures forall i :: 0 <= i < n ==> c[cAt + i] == Xor(old(m[mAt + i]), ByteOf(block[i / 4], i % 4))
      ensures forall i :: 0 <= i < c.Length && !(cAt <= i < cAt + n) ==> c[i] == old(c[i])
    {
      hide Xor, ByteOf;
      var i := 0;
      while i < n
        invariant i <= n && temp[..] == block
        invariant forall j :: 0 <= j < i ==> c[cAt + j] == Xor(old(m[mAt + j]), ByteOf(block[j / 4], j % 4))
        invariant forall j :: 0 <= j < c.Length && !(cAt <= j < cAt + i) ==> c[j] == old(c[j])
      {
        c[cAt + i] := Xor(m[mAt + i], ByteOf(temp[i / 4], i % 4));
        i := i + 1;
      }
    }
  }

  lemma BlockByte(x: seq<word>, i: nat)
    requires IsBlock(x) && i < 64
    ensures KeyByte(x, i) == ByteOf(BlockWords(x)[i / 4], i % 4)
  {
    hide BlockWords, ByteOf, Advanced;
    AdvancedNone(x);
  }

  lemma AdvancedNone(x: seq<word>)
    requires IsBlock(x)
    ensures Advanced(x, 0) == x
  {
  }
}
