/** ChaCha20-Poly1305, RFC 8439 section 2.8. Poly1305 itself is a parameter: a function
    from a one-time key and a message to a tag. */
module Aead {
  import opened Bytes
  import opened Bits
  import opened ChaCha

  const TAG_SIZE: nat := 16

  type Mac = (seq<byte>, seq<byte>) -> seq<byte>

  ghost predicate GivesTags(mac: Mac) { forall k, m :: |mac(k, m)| == TAG_SIZE }

  function Zeros(n: nat): (z: seq<byte>)
    ensures |z| == n
  {
    seq(n, _ => 0)
  }

  // What is authenticated

  /** -(int)n & 15 */
  function PadLength(n: nat): (p: nat)
    ensures p < 16 && (n + p) % 16 == 0
  {
    (16 - n % 16) % 16
  }

  function Padded(d: seq<byte>): (p: seq<byte>)
    ensures |p| % 16 == 0 && |p| == |d| + PadLength(|d|) && p[..|d|] == d
  {
    d + Zeros(PadLength(|d|))
  }

  /** word32ToLittle64 */
  function Little64(n: nat): (b: seq<byte>)
    requires n < TWO_TO_32
    ensures |b| == 8
  {
    [n % 256, n / 256 % 256, n / 65536 % 256, n / 16777216, 0, 0, 0, 0]
  }

  function MacInput(aad: seq<byte>, text: seq<byte>): seq<byte>
    requires |aad| < TWO_TO_32 && |text| < TWO_TO_32
  {
    Padded(aad) + Padded(text) + Little64(|aad|) + Little64(|text|)
  }

  lemma Little64Injective(m: nat, n: nat)
    requires m < TWO_TO_32 && n < TWO_TO_32 && Little64(m) == Little64(n)
    ensures m == n
  {
    Digits(m);
    Digits(n);
    var a, b := Little64(m), Little64(n);
    assert a[0] == b[0] && a[1] == b[1] && a[2] == b[2] && a[3] == b[3];
  }

  lemma Digits(n: nat)
    ensures n == n % 256 + 256 * (n / 256 % 256) + 65536 * (n / 65536 % 256) + 16777216 * (n / 16777216)
  {
    assert n / 256 / 256 == n / 65536 && n / 65536 / 256 == n / 16777216;
  }

  /** The authenticated text is whole blocks, and tells its two parts apart: no other pair
      of additional data and ciphertext gives the same. */
  lemma MacInputInjective(aad: seq<byte>, text: seq<byte>, aad': seq<byte>, text': seq<byte>)
    requires |aad| < TWO_TO_32 && |text| < TWO_TO_32 && |aad'| < TWO_TO_32 && |text'| < TWO_TO_32
    ensures |MacInput(aad, text)| % 16 == 0
    ensures MacInput(aad, text) == MacInput(aad', text') ==> aad == aad' && text == text'
  {
    hide Little64, Padded, MacInput;
    WholeBlocks(aad, text);
    if MacInput(aad, text) == MacInput(aad', text') {
      Lengths(aad, text);
      Lengths(aad', text');
      Little64Injective(|aad|, |aad'|);
      Little64Injective(|text|, |text'|);
      Contents(aad, text);
      Contents(aad', text');
    }
  }

  lemma WholeBlocks(aad: seq<byte>, text: seq<byte>)
    requires |aad| < TWO_TO_32 && |text| < TWO_TO_32
    ensures |MacInput(aad, text)| % 16 == 0
  {
    hide Little64, Padded;
    MoreBlocks(|Padded(aad)|, |Padded(text)|);
  }

  lemma MoreBlocks(a: nat, b: nat)
    requires a % 16 == 0 && b % 16 == 0
    ensures (a + b + 8 + 8) % 16 == 0
  {
  }

  lemma Lengths(aad: seq<byte>, text: seq<byte>)
    requires |aad| < TWO_TO_32 && |text| < TWO_TO_32
    ensures var m := MacInput(aad, text); var n := |m|;
      n >= 16 && m[n - 16..n - 8] == Little64(|aad|) && m[n - 8..] == Little64(|text|)
  {
    hide Little64, Padded;
  }

  lemma Contents(aad: seq<byte>, text: seq<byte>)
    requires |aad| < TWO_TO_32 && |text| < TWO_TO_32
    ensures var m := MacInput(aad, text); var at := |aad| + PadLength(|aad|);
      at + |text| <= |m| && m[..|aad|] == aad && m[at..at + |text|] == text
  {
    hide Little64, Padded, PadLength;
    var m, p, q := MacInput(aad, text), Padded(aad), Padded(text);
    assert m[..|aad|] == p[..|aad|];
    assert m[|p|..|p| + |text|] == q[..|text|];
  }

  // Sealing and opening

  /** The one-time key: the first half of block 0. */
  function OneTimeKey(key: seq<byte>, iv: seq<byte>): (k: seq<byte>)
    requires |key| == 32 && |iv| == 12
    ensures |k| == 32
  {
    Stream(State(key, iv, 0), Zeros(32))
  }

  /** The message is xored with the key stream from block 1 on. */
  function Ciphered(key: seq<byte>, iv: seq<byte>, m: seq<byte>): (c: seq<byte>)
    requires |key| == 32 && |iv| == 12
    ensures |c| == |m|
  {
    Stream(State(key, iv, 1), m)
  }

  function TagOf(mac: Mac, key: seq<byte>, iv: seq<byte>, aad: seq<byte>, c: seq<byte>): seq<byte>
    requires |key| == 32 && |iv| == 12 && |aad| < TWO_TO_32 && |c| < TWO_TO_32
  {
    mac(OneTimeKey(key, iv), MacInput(aad, c))
  }

  datatype Opened = Plain(text: seq<byte>) | BadArguments | BadTag

  function Seal(mac: Mac, key: seq<byte>, iv: seq<byte>, aad: seq<byte>, m: seq<byte>): (s: seq<byte>)
    requires |key| == 32 && |iv| == 12 && |aad| < TWO_TO_32 && |m| < TWO_TO_32
  {
    var c := Ciphered(key, iv, m);
    c + TagOf(mac, key, iv, aad, c)
  }

  /** A text and its tag: nothing is deciphered when the tag is wrong. */
  function Open(mac: Mac, key: seq<byte>, iv: seq<byte>, aad: seq<byte>, sealed: seq<byte>): Opened
    requires |key| == 32 && |iv| == 12 && |aad| < TWO_TO_32 && |sealed| < TWO_TO_32
  {
    if |sealed| <= TAG_SIZE then BadArguments
    else
      var n := |sealed| - TAG_SIZE;
      if TagOf(mac, key, iv, aad, sealed[..n]) != sealed[n..] then BadTag
      else Plain(Ciphered(key, iv, sealed[..n]))
  }

  /** Opening what was sealed gives the message back, for every key, nonce, additional
      data and non-empty message. */
  lemma SealOpens(mac: Mac, key: seq<byte>, iv: seq<byte>, aad: seq<byte>, m: seq<byte>)
    requires GivesTags(mac) && |key| == 32 && |iv| == 12 && |aad| < TWO_TO_32 && 0 < |m| < TWO_TO_32 - TAG_SIZE
    ensures Open(mac, key, iv, aad, Seal(mac, key, iv, aad, m)) == Plain(m)
    ensures |Seal(mac, key, iv, aad, m)| == |m| + TAG_SIZE
  {
    hide Stream, State, MacInput, OneTimeKey;
    var c := Ciphered(key, iv, m);
    var tag := TagOf(mac, key, iv, aad, c);
    assert |tag| == TAG_SIZE;
    assert (c + tag)[..|m|] == c && (c + tag)[|m|..] == tag;
    StreamTwice(State(key, iv, 1), m);
  }

  /** Only what the key and nonce seal is opened. */
  lemma OnlySealedOpens(mac: Mac, key: seq<byte>, iv: seq<byte>, aad: seq<byte>, s: seq<byte>)
    requires |key| == 32 && |iv| == 12 && |aad| < TWO_TO_32 && |s| < TWO_TO_32
    requires Open(mac, key, iv, aad, s).Plain?
    ensures Seal(mac, key, iv, aad, Open(mac, key, iv, aad, s).text) == s
  {
    hide Stream, State, MacInput, OneTimeKey;
    var n := |s| - TAG_SIZE;
    StreamTwice(State(key, iv, 1), s[..n]);
    assert s == s[..n] + s[n..];
  }

  // The routines

  /** calculateAuthTag: the pieces given to Poly1305 one after the other. */
  method CalculateAuthTag(mac: Mac, authKey: seq<byte>, aad: seq<byte>, text: seq<byte>) returns (tag: seq<byte>)
    requires |aad| < TWO_TO_32 && |text| < TWO_TO_32
    ensures tag == mac(authKey, MacInput(aad, text))
  {
    hide Little64;
    var fed: seq<byte> := [];
    if aad != [] {
      fed := fed + aad;
      var padding := PadLength(|aad|);
      if padding != 0 { fed := fed + Zeros(padding); }
    }
    assert fed == Padded(aad);
    ghost var first := fed;
    fed := fed + text;
    var padding := PadLength(|text|);
    if padding != 0 { fed := fed + Zeros(padding); }
    assert fed == first + Padded(text);
    fed := fed + Little64(|aad|);
    fed := fed + Little64(|text|);
    assert fed == MacInput(aad, text);
    tag := mac(authKey, fed);
  }

  /** The one-time key, and the cipher left at block 1. */
  method Prepare(key: seq<byte>, iv: seq<byte>) returns (ctx: ChaCha, authKey: seq<byte>)
    requires |key| == 32 && |iv| == 12
    ensures ctx.Valid() && fresh(ctx) && fresh(ctx.X)
    ensures authKey == OneTimeKey(key, iv) && ctx.X[..] == State(key, iv, 1)
  {
    hide Stream;
    ctx := new ChaCha();
    var ok := ctx.Start(key, iv, 0);
    var memory := new byte[32](_ => 0);
    assert memory[0..32] == Zeros(32);
    ctx.Process(memory, 0, memory, 0, 32);
    authKey := memory[0..32];
    NextCounter(key, iv);
  }

  lemma NextCounter(key: seq<byte>, iv: seq<byte>)
    requires |key| == 32 && |iv| == 12
    ensures Advanced(State(key, iv, 0), BlocksFor(32)) == State(key, iv, 1)
  {
    assert State(key, iv, 0)[12 := 1] == State(key, iv, 1);
  }

  /** crypto_chacha20poly1305_encrypt: 0 and the sealed message in the output, or -1. An
      empty message is refused with an argument error. */
  method Encrypt(mac: Mac, key: seq<byte>, iv: seq<byte>, aad: seq<byte>, m: array<byte>, mAt: nat, n: nat,
                 out: array<byte>, outAt: nat, room: nat)
    returns (ok: bool, size: nat)
    requires GivesTags(mac) && |key| == 32 && |iv| == 12 && |aad| < TWO_TO_32 && n < TWO_TO_32 - TAG_SIZE
    requires mAt + n <= m.Length && outAt + room <= out.Length && m != out
    modifies out
    ensures size == n + TAG_SIZE
    ensures ok <==> n > 0 && size <= room
    ensures ok ==> out[outAt..outAt + size] == Seal(mac, key, iv, aad, m[mAt..mAt + n])
    ensures out[..outAt] == old(out[..outAt])
  {
    hide Stream, State, MacInput, OneTimeKey, Zeros;
    size := n + TAG_SIZE;
    if room < size { return false, size; }
    if n == 0 { return false, size; }
    var ctx, authKey := Prepare(key, iv);
    ctx.Process(out, outAt, m, mAt, n);
    var tag := CalculateAuthTag(mac, authKey, aad, out[outAt..outAt + n]);
    ghost var c := out[outAt..outAt + n];
    ghost var front := out[..outAt];
    assert out[..outAt + n] == front + c;
    assert |tag| == TAG_SIZE;
    Copy(out, outAt + n, tag);
    assert out[..outAt + size] == (front + c) + tag;
    assert out[outAt..outAt + size] == out[..outAt + size][outAt..];
    assert out[..outAt] == out[..outAt + size][..outAt];
    ok := true;
  }

  /** The exclusive ors of two texts, byte by byte, or'ed together. */
  function Differences(a: seq<byte>, b: seq<byte>): byte
    requires |a| == |b|
    decreases |a|
  {
    if a == [] then 0 else Or(Differences(a[..|a| - 1], b[..|a| - 1]), Xor(a[|a| - 1], b[|a| - 1]))
  }

  /** They leave nothing exactly when the texts are equal. */
  lemma {:induction false} NoDifference(a: seq<byte>, b: seq<byte>)
    requires |a| == |b|
    ensures Differences(a, b) == 0 <==> a == b
    decreases |a|
  {
    hide Or, Xor;
    if a != [] {
      var n := |a| - 1;
      NoDifference(a[..n], b[..n]);
      OctetLaws(a[n], b[n]);
      OctetLaws(Differences(a[..n], b[..n]), Xor(a[n], b[n]));
      assert a == a[..n] + [a[n]] && b == b[..n] + [b[n]];
    }
  }

  /** ConstantCompare: every byte is folded in, whether or not one differed already. */
  method ConstantCompare(a: seq<byte>, b: seq<byte>) returns (compareSum: byte)
    requires |a| == |b|
    ensures compareSum == Differences(a, b) && (compareSum == 0 <==> a == b)
  {
    hide Or, Xor;
    compareSum := 0;
    var i := 0;
    while i < |a|
      invariant i <= |a| && compareSum == Differences(a[..i], b[..i])
    {
      assert a[..i + 1][..i] == a[..i] && b[..i + 1][..i] == b[..i];
      compareSum := Or(compareSum, Xor(a[i], b[i]));
      i := i + 1;
    }
    assert a[..i] == a && b[..i] == b;
    NoDifference(a, b);
  }

  /** crypto_chacha20poly1305_decrypt */
  method Decrypt(mac: Mac, key: seq<byte>, iv: seq<byte>, aad: seq<byte>, sealed: array<byte>, at: nat, n: nat,
                 out: array<byte>)
    returns (ok: bool)
    requires GivesTags(mac) && |key| == 32 && |iv| == 12 && |aad| < TWO_TO_32 && n < TWO_TO_32
    requires at + n <= sealed.Length && out != sealed && n <= out.Length + TAG_SIZE
    modifies out
    ensures var r := Open(mac, key, iv, aad, old(sealed[at..at + n]));
      if ok then n > TAG_SIZE && r == Plain(out[..n - TAG_SIZE]) && out[n - TAG_SIZE..] == old(out[n - TAG_SIZE..])
      else !r.Plain? && out[..] == old(out[..])
  {
    hide Stream, State, MacInput, OneTimeKey;
    if n <= TAG_SIZE { return false; }
    var len := n - TAG_SIZE;
    var ctx, authKey := Prepare(key, iv);
    ghost var s := sealed[at..at + n];
    assert s[..len] == sealed[at..at + len] && s[len..] == sealed[at + len..at + n];
    var tag := CalculateAuthTag(mac, authKey, aad, sealed[at..at + len]);
    var compareSum := ConstantCompare(sealed[at + len..at + n], tag);
    ok := compareSum == 0;
    if ok {
      ctx.Process(out, 0, sealed, at, len);
      assert out[0..len] == out[..len];
    }
  }
}
