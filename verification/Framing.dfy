/** The encrypted transport of a verified session: frames of at most 1024 bytes, each
    sealed under a nonce that counts (HAP specification R2, section 6.5.2). */
module Framing {
  import opened Bytes
  import opened Tlv8
  import opened ChaCha
  import opened Aead

  const FRAME_MAX: nat := 1024

  /** The counter of a frame is a C int that must not overflow. */
  const COUNT_LIMIT: nat := 0x8000_0000

  /** Four zero bytes and the counter in eight bytes, lowest first. */
  function Nonce(count: nat): (n: seq<byte>)
    ensures |n| == 12
  {
    [0, 0, 0, 0] + LittleEndian(8, count)
  }

  lemma {:induction false} LittleEndianInjective(size: nat, a: nat, b: nat)
    requires a < Power256(size) && b < Power256(size) && LittleEndian(size, a) == LittleEndian(size, b)
    ensures a == b
    decreases size
  {
    if size > 0 {
      var x, y := LittleEndian(size, a), LittleEndian(size, b);
      assert x[0] == a % 256 && y[0] == b % 256;
      assert x[1..] == LittleEndian(size - 1, a / 256) && y[1..] == LittleEndian(size - 1, b / 256);
      LittleEndianInjective(size - 1, a / 256, b / 256);
    }
  }

  /** No two counters share a nonce. */
  lemma NonceInjective(a: nat, b: nat)
    requires a < COUNT_LIMIT && b < COUNT_LIMIT && Nonce(a) == Nonce(b)
    ensures a == b
  {
    hide LittleEndian, Power256;
    assert Nonce(a)[4..] == LittleEndian(8, a) && Nonce(b)[4..] == LittleEndian(8, b);
    PowerEight();
    LittleEndianInjective(8, a, b);
  }

  lemma PowerEight()
    ensures Power256(8) > COUNT_LIMIT
  {
    assert Power256(4) == 0x1_0000_0000;
    assert Power256(8) == 256 * (256 * (256 * (256 * Power256(4))));
  }

  // Writing the counter's digits over the last nonce

  /** How many base-256 digits the loop writes. */
  function DigitCount(x: nat): nat { if x == 0 then 0 else 1 + DigitCount(x / 256) }

  lemma {:induction false} DigitsGrow(a: nat, b: nat)
    requires a <= b
    ensures DigitCount(a) <= DigitCount(b)
    decreases b
  {
    if a > 0 { DigitsGrow(a / 256, b / 256); }
  }

  lemma {:induction false} DigitsBeyond(size: nat, x: nat, k: nat)
    requires DigitCount(x) <= k < size
    ensures LittleEndian(size, x)[k] == 0
    decreases size
  {
    if k > 0 { DigitsBeyond(size - 1, x / 256, k - 1); }
  }

  lemma {:induction false} DigitsFit(x: nat, n: nat)
    requires x < Power256(n)
    ensures DigitCount(x) <= n
    decreases n
  {
    if x > 0 { DigitsFit(x / 256, n - 1); }
  }

  /** The count'th digit, as the loop's divisions reach it. */
  lemma {:induction false} DigitAt(size: nat, x: nat, k: nat)
    requires k < size
    ensures LittleEndian(size, x)[k] == Divided(x, k) % 256
    decreases size
  {
    if k > 0 {
      DigitAt(size - 1, x / 256, k - 1);
      DividedShift(x, k - 1);
    }
  }

  function Divided(x: nat, k: nat): nat { if k == 0 then x else Divided(x, k - 1) / 256 }

  lemma {:induction false} DividedShift(x: nat, k: nat)
    ensures Divided(x / 256, k) == Divided(x, k + 1)
    decreases k
  {
    if k > 0 { DividedShift(x, k - 1); }
  }

  lemma {:induction false} DigitsDivided(x: nat, k: nat)
    requires k <= DigitCount(x)
    ensures DigitCount(Divided(x, k)) == DigitCount(x) - k
    decreases k
  {
    if k > 0 { DigitsDivided(x, k - 1); }
  }

  /** The digits written over a nonce that is zero or an earlier counter's make the nonce
      of this counter: the earlier one never had more digits. */
  method WriteCounter(nonce: array<byte>, count: nat, ghost earlier: nat)
    requires nonce.Length == 12 && nonce[..] == Nonce(earlier) && earlier <= count < COUNT_LIMIT
    modifies nonce
    ensures nonce[..] == Nonce(count)
  {
    hide Power256;
    PowerFour();
    DigitsFit(count, 4);
    DigitsGrow(earlier, count);
    var i, x := 4, count;
    while x != 0
      invariant 4 <= i <= 4 + DigitCount(count) && x == Divided(count, i - 4)
      invariant forall k :: 0 <= k < 4 ==> nonce[k] == 0
      invariant forall k :: 4 <= k < i ==> nonce[k] == Nonce(count)[k]
      invariant forall k :: i <= k < 12 ==> nonce[k] == Nonce(earlier)[k]
      decreases x
    {
      DigitsDivided(count, i - 4);
      DigitAt(8, count, i - 4);
      nonce[i] := x % 256;
      i, x := i + 1, x / 256;
    }
    DigitsDivided(count, i - 4);
    forall k | i <= k < 12 ensures nonce[k] == Nonce(count)[k] {
      DigitsBeyond(8, count, k - 4);
      DigitsBeyond(8, earlier, k - 4);
    }
  }

  lemma PowerFour()
    ensures Power256(4) == 0x1_0000_0000
  {
    assert Power256(2) == 65536;
  }

  // Frames

  function Header(n: nat): (h: seq<byte>)
    requires n <= FRAME_MAX
    ensures |h| == 2
  {
    [n % 256, n / 256]
  }

  /** One frame: the length, authenticated but not enciphered, and the sealed chunk. */
  function Frame(mac: Mac, key: seq<byte>, count: nat, chunk: seq<byte>): seq<byte>
    requires |key| == 32 && |chunk| <= FRAME_MAX
  {
    Header(|chunk|) + Seal(mac, key, Nonce(count), Header(|chunk|), chunk)
  }

  function FirstChunk(data: seq<byte>): (c: seq<byte>)
    ensures |c| <= FRAME_MAX && c <= data && (data != [] ==> c != [])
  {
    if |data| > FRAME_MAX then data[..FRAME_MAX] else data
  }

  /** The frames of one send, from this counter on. */
  function Frames(mac: Mac, key: seq<byte>, count: nat, data: seq<byte>): seq<seq<byte>>
    requires |key| == 32
    decreases |data|
  {
    if data == [] then []
    else
      var c := FirstChunk(data);
      [Frame(mac, key, count, c)] + Frames(mac, key, count + 1, data[|c|..])
  }

  function FrameCount(n: nat): nat { (n + FRAME_MAX - 1) / FRAME_MAX }

  lemma {:induction false} FramesCounted(mac: Mac, key: seq<byte>, count: nat, data: seq<byte>)
    requires |key| == 32
    ensures |Frames(mac, key, count, data)| == FrameCount(|data|)
    decreases |data|
  {
    hide Frame;
    if data != [] {
      var c := FirstChunk(data);
      FramesCounted(mac, key, count + 1, data[|c|..]);
    }
  }

  // Receiving

  datatype Received = Chunk(text: seq<byte>) | Unfinished | Forged

  /** What the peer makes of one frame with its own key and counter. */
  function Unframe(mac: Mac, key: seq<byte>, count: nat, frame: seq<byte>): Received
    requires |key| == 32 && |frame| < TWO_TO_32
  {
    if |frame| < 2 then Unfinished
    else
      var n := LengthOf(frame[0], frame[1]);
      if n + 18 > |frame| then Unfinished
      else
        match Open(mac, key, Nonce(count), frame[..2], frame[2..n + 18])
        case Plain(text) => Chunk(text)
        case _ => Forged
  }

  function LengthOf(low: int, high: int): int { low + high * 256 }

  /** Frames received one by one, the counter moving with each: the chunks, joined. */
  function UnframeAll(mac: Mac, key: seq<byte>, count: nat, frames: seq<seq<byte>>): Received
    requires |key| == 32 && forall i :: 0 <= i < |frames| ==> |frames[i]| < TWO_TO_32
    decreases |frames|
  {
    if frames == [] then Chunk([])
    else
      match Unframe(mac, key, count, frames[0])
      case Unfinished => Unfinished
      case Forged => Forged
      case Chunk(a) =>
        match UnframeAll(mac, key, count + 1, frames[1..])
        case Chunk(b) => Chunk(a + b)
        case other => other
  }

  lemma FrameOpens(mac: Mac, key: seq<byte>, count: nat, chunk: seq<byte>)
    requires GivesTags(mac) && |key| == 32 && 0 < |chunk| <= FRAME_MAX
    ensures |Frame(mac, key, count, chunk)| == |chunk| + 18
    ensures Unframe(mac, key, count, Frame(mac, key, count, chunk)) == Chunk(chunk)
  {
    hide Seal, Open, Nonce;
    SealOpens(mac, key, Nonce(count), Header(|chunk|), chunk);
    var h, s := Header(|chunk|), Seal(mac, key, Nonce(count), Header(|chunk|), chunk);
    var f := h + s;
    assert f[0] == h[0] && f[1] == h[1] && f[..2] == h && f[2..|chunk| + 18] == s;
    assert LengthOf(h[0], h[1]) == |chunk|;
  }

  lemma {:induction false} FramesSized(mac: Mac, key: seq<byte>, count: nat, data: seq<byte>)
    requires GivesTags(mac) && |key| == 32
    ensures forall i :: 0 <= i < |Frames(mac, key, count, data)| ==> 19 <= |Frames(mac, key, count, data)[i]| <= FRAME_MAX + 18
    decreases |data|
  {
    hide Frame;
    if data != [] {
      var c := FirstChunk(data);
      FrameOpens(mac, key, count, c);
      FramesSized(mac, key, count + 1, data[|c|..]);
    }
  }

  /** Every send is received whole, in order, with the two counters in step. */
  lemma {:induction false} FramesArrive(mac: Mac, key: seq<byte>, count: nat, data: seq<byte>)
    requires GivesTags(mac) && |key| == 32
    ensures forall i :: 0 <= i < |Frames(mac, key, count, data)| ==> 19 <= |Frames(mac, key, count, data)[i]| <= FRAME_MAX + 18
    ensures UnframeAll(mac, key, count, Frames(mac, key, count, data)) == Chunk(data)
    decreases |data|
  {
    hide Frame, Unframe;
    FramesSized(mac, key, count, data);
    if data != [] {
      var c := FirstChunk(data);
      FrameOpens(mac, key, count, c);
      FramesArrive(mac, key, count + 1, data[|c|..]);
      var rest := Frames(mac, key, count + 1, data[|c|..]);
      assert ([Frame(mac, key, count, c)] + rest)[1..] == rest;
      assert c + data[|c|..] == data;
    }
  }

  // A series of sends

  function AllFrames(mac: Mac, key: seq<byte>, count: nat, sends: seq<seq<byte>>): seq<seq<byte>>
    requires |key| == 32
    decreases |sends|
  {
    if sends == [] then []
    else Frames(mac, key, count, sends[0]) + AllFrames(mac, key, count + FrameCount(|sends[0]|), sends[1..])
  }

  /** The nonces of a series, frame by frame. */
  function Nonces(count: nat, frames: nat): seq<seq<byte>> { seq(frames, i requires 0 <= i => Nonce(count + i)) }

  /** The k-th frame of a send is sealed under the nonce of the counter k on. */
  lemma {:induction false} FrameNonce(mac: Mac, key: seq<byte>, count: nat, data: seq<byte>, k: nat)
    requires |key| == 32 && k < |Frames(mac, key, count, data)|
    ensures exists chunk :: 0 < |chunk| <= FRAME_MAX && Frames(mac, key, count, data)[k] == Frame(mac, key, count + k, chunk)
    decreases k
  {
    hide Frame;
    var c := FirstChunk(data);
    if k > 0 {
      assert Frames(mac, key, count, data)[k] == Frames(mac, key, count + 1, data[|c|..])[k - 1];
      hide Frames;
      FrameNonce(mac, key, count + 1, data[|c|..], k - 1);
    } else {
      assert Frames(mac, key, count, data)[0] == Frame(mac, key, count, c);
    }
  }

  /** No nonce repeats under a key, however many sends share it. */
  lemma NoncesDistinct(count: nat, frames: nat)
    requires count + frames <= COUNT_LIMIT
    ensures forall i, j :: 0 <= i < j < frames ==> Nonces(count, frames)[i] != Nonces(count, frames)[j]
  {
    hide Nonce;
    forall i, j | 0 <= i < j < frames ensures Nonces(count, frames)[i] != Nonces(count, frames)[j] {
      if Nonce(count + i) == Nonce(count + j) { NonceInjective(count + i, count + j); }
    }
  }

  lemma {:induction false} UnframeBoth(mac: Mac, key: seq<byte>, count: nat, a: seq<seq<byte>>, b: seq<seq<byte>>)
    requires |key| == 32 && (forall i :: 0 <= i < |a| ==> |a[i]| < TWO_TO_32) && forall i :: 0 <= i < |b| ==> |b[i]| < TWO_TO_32
    requires UnframeAll(mac, key, count, a).Chunk? && UnframeAll(mac, key, count + |a|, b).Chunk?
    ensures UnframeAll(mac, key, count, a + b)
         == Chunk(UnframeAll(mac, key, count, a).text + UnframeAll(mac, key, count + |a|, b).text)
    decreases |a|
  {
    hide Unframe;
    if a == [] {
      assert a + b == b;
      var t := UnframeAll(mac, key, count, b).text;
      assert [] + t == t;
    } else {
      UnframeBoth(mac, key, count + 1, a[1..], b);
      assert (a + b)[1..] == a[1..] + b && (a + b)[0] == a[0];
      var x, y, z := Unframe(mac, key, count, a[0]).text, UnframeAll(mac, key, count + 1, a[1..]).text,
                     UnframeAll(mac, key, count + |a|, b).text;
      assert (x + y) + z == x + (y + z);
    }
  }

  function Joined(sends: seq<seq<byte>>): seq<byte> { if sends == [] then [] else sends[0] + Joined(sends[1..]) }

  lemma UnframeNone(mac: Mac, key: seq<byte>, count: nat)
    requires |key| == 32
    ensures UnframeAll(mac, key, count, []) == Chunk([])
  {
  }

  /** A whole conversation: the peer reads exactly what was sent, for any series of sends. */
  lemma {:induction false} SendsArrive(mac: Mac, key: seq<byte>, count: nat, sends: seq<seq<byte>>)
    requires GivesTags(mac) && |key| == 32
    ensures var frames := AllFrames(mac, key, count, sends);
      && (forall i :: 0 <= i < |frames| ==> 19 <= |frames[i]| <= FRAME_MAX + 18)
      && UnframeAll(mac, key, count, frames) == Chunk(Joined(sends))
    decreases |sends|
  {
    hide Frames, Unframe, UnframeAll, FrameCount;
    if sends == [] {
      assert UnframeAll(mac, key, count, []) == Chunk([]) by { UnframeNone(mac, key, count); }
    } else {
      var c := count + FrameCount(|sends[0]|);
      FramesArrive(mac, key, count, sends[0]);
      FramesCounted(mac, key, count, sends[0]);
      SendsArrive(mac, key, c, sends[1..]);
      UnframeBoth(mac, key, count, Frames(mac, key, count, sends[0]), AllFrames(mac, key, c, sends[1..]));
    }
  }

  // The routines

  class Transport {
    const mac: Mac
    const readKey: seq<byte>
    const writeKey: seq<byte>
    var countReads: nat
    var countWrites: nat
    /** What has been handed to write, call by call. */
    var sent: seq<seq<byte>>

    ghost predicate Valid() reads this {
      GivesTags(mac) && |readKey| == 32 && |writeKey| == 32 && countReads < COUNT_LIMIT && countWrites < COUNT_LIMIT
    }

    constructor (mac: Mac, readKey: seq<byte>, writeKey: seq<byte>)
      requires GivesTags(mac) && |readKey| == 32 && |writeKey| == 32
      ensures Valid() && countReads == 0 && countWrites == 0 && sent == []
      ensures this.mac == mac && this.readKey == readKey && this.writeKey == writeKey
    {
      this.mac, this.readKey, this.writeKey := mac, readKey, writeKey;
      countReads, countWrites, sent := 0, 0, [];
    }

    /** client_send_encrypted_ */
    method SendEncrypted(payload: array<byte>, size: nat)
      requires Valid() && size <= payload.Length && countReads + FrameCount(size) < COUNT_LIMIT
      modifies this`countReads, this`sent
      ensures Valid() && countReads == old(countReads) + FrameCount(size)
      ensures sent == old(sent) + Frames(mac, readKey, old(countReads), payload[..size])
    {
      hide Frame, Nonce, Frames, FrameCount;
      var nonce := new byte[12](_ => 0);
      ghost var last: nat, k: nat := 0, 0;
      ZeroNonce();
      assert nonce[..] == Nonce(0);
      var encrypted := new byte[FRAME_MAX + 18](_ => 0);
      var offset := 0;
      ghost var start, all := countReads, Frames(mac, readKey, countReads, payload[..size]);
      assert payload[..size] == payload[offset..size];
      while offset < size
        invariant offset <= size && nonce[..] == Nonce(last) && last <= countReads
        invariant countReads == start + k && k <= FrameCount(size)
        invariant offset == if k * FRAME_MAX <= size then k * FRAME_MAX else size
        invariant old(sent) + all == sent + Frames(mac, readKey, countReads, payload[offset..size])
        invariant Valid()
      {
        var n := if size - offset > FRAME_MAX then FRAME_MAX else size - offset;
        FrameLeft(k, size);
        k := k + 1;
        ghost var rest := payload[offset..size];
        FramesNext(mac, readKey, countReads, rest, n);
        assert rest[..n] == payload[offset..offset + n] && rest[n..] == payload[offset + n..size];
        WriteCounter(nonce, countReads, last);
        last := countReads;
        countReads := countReads + 1;
        var frame := SealFrame(payload, offset, n, nonce, encrypted, last);
        ghost var more := Frames(mac, readKey, countReads, payload[offset + n..size]);
        assert sent + ([frame] + more) == (sent + [frame]) + more;
        sent := sent + [frame];
        offset := offset + n;
      }
      FramesDone(k, size);
      FramesNext(mac, readKey, countReads, [], 0);
      assert payload[offset..size] == [];
      assert sent + [] == sent;
    }

    /** One chunk sealed into the frame buffer: the bytes given to write. */
    method SealFrame(payload: array<byte>, offset: nat, n: nat, nonce: array<byte>, encrypted: array<byte>,
                     ghost count: nat)
      returns (frame: seq<byte>)
      requires Valid() && 0 < n <= FRAME_MAX && offset + n <= payload.Length
      requires encrypted.Length == FRAME_MAX + 18 && encrypted != payload && nonce != encrypted
      requires nonce.Length == 12 && nonce[..] == Nonce(count)
      modifies encrypted
      ensures frame == Frame(mac, readKey, count, payload[offset..offset + n])
    {
      hide Nonce, Seal;
      var aead := [n % 256, n / 256];
      Copy(encrypted, 0, aead);
      ghost var key := nonce[..];
      var ok, available :=
        Encrypt(mac, readKey, nonce[..], aead, payload, offset, n, encrypted, 2, encrypted.Length - 2);
      frame := encrypted[..available + 2];
      assert frame == encrypted[..2] + encrypted[2..2 + available];
      assert encrypted[..2] == aead;
    }

    /** client_decrypt_: -2 and the room needed when there is less; otherwise every complete
        frame is opened, each over the output of the one before, and the bytes of all of them
        are counted; -1 when one is forged or longer than the room left. The counter moves
        for every frame tried. */
    method Decrypt(payload: array<byte>, size: nat, decrypted: array<byte>, room: nat) returns (r: int, needed: nat)
      requires Valid() && size <= payload.Length && size < TWO_TO_32 && countWrites + size / 18 + 1 < COUNT_LIMIT
      requires decrypted != payload && room <= decrypted.Length
      modifies this`countWrites, decrypted
      ensures Valid() && needed == RoomNeeded(size)
      ensures room < needed ==> r == -2 && countWrites == old(countWrites) && decrypted[..] == old(decrypted[..])
      ensures room >= needed ==>
        var reading := Read(mac, writeKey, old(countWrites), old(payload[..size]), needed);
        && r == reading.r && decrypted[..] == Overlaid(old(decrypted[..]), reading.texts)
        && countWrites == old(countWrites) + |reading.texts| + (if r < 0 then 1 else 0)
    {
      hide Read, Overlaid, Nonce, Total, Continued, Unframe, Overlay;
      needed := RoomNeeded(size);
      if room < needed { return -2, needed; }
      var nonce := new byte[12](_ => 0);
      ZeroNonce();
      assert nonce[..] == Nonce(0);
      ghost var last: nat, done: seq<seq<byte>> := 0, [];
      ghost var p, was, count := payload[..size], decrypted[..], countWrites;
      NothingRead(mac, writeKey, count, p, needed, was);
      var offset, written := 0, 0;
      while offset < size
        invariant Valid() && offset <= size && 18 * |done| <= offset && countWrites == count + |done|
        invariant nonce[..] == Nonce(last) && last <= countWrites && written == Total(done) <= needed
        invariant payload[..size] == p && decrypted[..] == Overlaid(was, done)
        invariant Goes(mac, writeKey, count, p, needed, done, offset)
      {
        Advance(mac, writeKey, count, p, needed, done, offset);
        if size - offset < 2 { return offset, needed; }
        var n := LengthOf(payload[offset], payload[offset + 1]);
        assert p[offset] == payload[offset] && p[offset + 1] == payload[offset + 1];
        if n + 18 > size - offset { return offset, needed; }
        WriteCounter(nonce, countWrites, last);
        last := countWrites;
        countWrites := countWrites + 1;
        assert p[offset..offset + n + 18] == payload[offset..offset + n + 18];
        var ok := OpenInto(payload, offset, n, nonce, decrypted, needed - written, last);
        if !ok { return -1, needed; }
        OverlaidNext(was, done, decrypted[..n]);
        TotalNext(done, decrypted[..n]);
        done := done + [decrypted[..n]];
        written := written + n;
        offset := offset + n + 18;
      }
      Advance(mac, writeKey, count, p, needed, done, offset);
      r := offset;
    }

    /** One frame opened at the front of the output. */
    method OpenInto(payload: array<byte>, offset: nat, n: nat, nonce: array<byte>, decrypted: array<byte>, room: int,
                    ghost count: nat)
      returns (ok: bool)
      requires Valid() && offset + n + 18 <= payload.Length && n + 18 < TWO_TO_32 && n == LengthOf(payload[offset], payload[offset + 1])
      requires decrypted != payload && decrypted != nonce && payload != nonce && room <= decrypted.Length
      requires nonce.Length == 12 && nonce[..] == Nonce(count)
      modifies decrypted
      ensures var u := Unframe(mac, writeKey, count, old(payload[offset..offset + n + 18]));
        if ok then n <= room && u == Chunk(decrypted[..n]) && decrypted[..] == Overlay(old(decrypted[..]), decrypted[..n])
        else (u == Forged || (u.Chunk? && |u.text| > room)) && decrypted[..] == old(decrypted[..])
    {
      hide Open, Nonce;
      ghost var f := payload[offset..offset + n + 18];
      assert f[..2] == payload[offset..offset + 2] && f[2..n + 18] == payload[offset + 2..offset + n + 18];
      assert f[0] == payload[offset] && f[1] == payload[offset + 1];
      PlainSize(mac, writeKey, Nonce(count), f[..2], f[2..n + 18]);
      ok := false;
      if n <= room {
        ok := Aead.Decrypt(mac, writeKey, nonce[..], payload[offset..offset + 2], payload, offset + 2, n + 16, decrypted);
      }
    }
  }

  // Several frames in one call

  /** The texts of the frames opened, and the answer of the call. */
  datatype Reading = Reading(texts: seq<seq<byte>>, r: int)

  lemma ChunkSize(mac: Mac, key: seq<byte>, count: nat, frame: seq<byte>)
    requires |key| == 32 && |frame| < TWO_TO_32
    ensures var u := Unframe(mac, key, count, frame);
      u.Chunk? ==> 0 < |u.text| && |u.text| + 18 <= |frame| && |u.text| == LengthOf(frame[0], frame[1])
  {
    hide Open, Nonce;
    if |frame| >= 2 && LengthOf(frame[0], frame[1]) + 18 <= |frame| {
      var n := LengthOf(frame[0], frame[1]);
      PlainSize(mac, key, Nonce(count), frame[..2], frame[2..n + 18]);
      NoEmptyChunk(mac, key, Nonce(count), frame[..2], frame[2..n + 18]);
    }
  }

  lemma NoEmptyChunk(mac: Mac, key: seq<byte>, iv: seq<byte>, aad: seq<byte>, sealed: seq<byte>)
    requires |key| == 32 && |iv| == 12 && |aad| < TWO_TO_32 && |sealed| < TWO_TO_32
    ensures |sealed| <= TAG_SIZE ==> !Open(mac, key, iv, aad, sealed).Plain?
  {
    hide Stream, State, MacInput, OneTimeKey;
  }

  /** Frames read from the front of the input while they are complete and fit the room. */
  function Read(mac: Mac, key: seq<byte>, count: nat, input: seq<byte>, room: int): Reading
    requires |key| == 32 && |input| < TWO_TO_32
    decreases |input|
  {
    ChunkSize(mac, key, count, input);
    match Unframe(mac, key, count, input)
    case Unfinished => Reading([], 0)
    case Forged => Reading([], -1)
    case Chunk(text) =>
      if |text| > room then Reading([], -1)
      else Continued([text], |text| + 18, Read(mac, key, count + 1, input[|text| + 18..], room - |text|))
  }

  function Continued(done: seq<seq<byte>>, offset: nat, rest: Reading): Reading {
    Reading(done + rest.texts, if rest.r < 0 then -1 else offset + rest.r)
  }

  /** A text written over the front of a buffer. */
  function Overlay(buffer: seq<byte>, text: seq<byte>): seq<byte> {
    if |text| <= |buffer| then text + buffer[|text|..] else text
  }

  /** Texts written over each other, in order. */
  function Overlaid(buffer: seq<byte>, texts: seq<seq<byte>>): seq<byte> {
    if texts == [] then buffer else Overlay(Overlaid(buffer, texts[..|texts| - 1]), texts[|texts| - 1])
  }

  function Total(texts: seq<seq<byte>>): nat {
    if texts == [] then 0 else Total(texts[..|texts| - 1]) + |texts[|texts| - 1]|
  }

  /** The call has opened these texts, up to this offset of its input. */
  predicate Goes(mac: Mac, key: seq<byte>, count: nat, p: seq<byte>, room: int, done: seq<seq<byte>>, offset: nat)
    requires |key| == 32 && |p| < TWO_TO_32 && offset <= |p|
  {
    Read(mac, key, count, p, room) == Continued(done, offset, Read(mac, key, count + |done|, p[offset..], room - Total(done)))
  }

  lemma NothingRead(mac: Mac, key: seq<byte>, count: nat, p: seq<byte>, room: int, buffer: seq<byte>)
    requires |key| == 32 && |p| < TWO_TO_32
    ensures Overlaid(buffer, []) == buffer && Total([]) == 0 && Goes(mac, key, count, p, room, [], 0)
  {
    hide Read;
    ReadAnswer(mac, key, count, p, room);
    assert p[0..] == p;
    assert [] + Read(mac, key, count, p, room).texts == Read(mac, key, count, p, room).texts;
  }

  /** One frame on: where the input is over, where a frame is refused, and where it is opened. */
  lemma Advance(mac: Mac, key: seq<byte>, count: nat, p: seq<byte>, room: int, done: seq<seq<byte>>, offset: nat)
    requires |key| == 32 && |p| < TWO_TO_32 && offset <= |p| && Goes(mac, key, count, p, room, done, offset)
    ensures var all := Read(mac, key, count, p, room);
      if offset + 2 > |p| || offset + LengthOf(p[offset], p[offset + 1]) + 18 > |p| then all == Reading(done, offset)
      else
        var end := offset + LengthOf(p[offset], p[offset + 1]) + 18;
        var u := Unframe(mac, key, count + |done|, p[offset..end]);
        && !u.Unfinished? && (u.Chunk? ==> |u.text| == end - offset - 18)
        && (u.Forged? || |u.text| > room - Total(done) ==> all == Reading(done, -1))
        && (u.Chunk? && |u.text| <= room - Total(done) ==> Goes(mac, key, count, p, room, done + [u.text], end))
  {
    hide Read, Unframe, Total;
    var rest := p[offset..];
    ReadNext(mac, key, count + |done|, rest, room - Total(done));
    assert done + [] == done;
    if offset + 2 <= |p| && offset + LengthOf(p[offset], p[offset + 1]) + 18 <= |p| {
      var n := LengthOf(p[offset], p[offset + 1]);
      assert rest[..n + 18] == p[offset..offset + n + 18] && rest[n + 18..] == p[offset + n + 18..];
      var u := Unframe(mac, key, count + |done|, rest[..n + 18]);
      if u.Chunk? {
        var more := Read(mac, key, count + |done| + 1, p[offset + n + 18..], room - Total(done) - n);
        ReadAnswer(mac, key, count + |done| + 1, p[offset + n + 18..], room - Total(done) - n);
        ContinuedNext(done, offset, u.text, more);
        TotalNext(done, u.text);
      }
    }
  }

  lemma {:induction false} ReadAnswer(mac: Mac, key: seq<byte>, count: nat, input: seq<byte>, room: int)
    requires |key| == 32 && |input| < TWO_TO_32
    ensures Read(mac, key, count, input, room).r >= -1
    decreases |input|
  {
    hide Unframe;
    ChunkSize(mac, key, count, input);
    match Unframe(mac, key, count, input)
    case Chunk(text) => if |text| <= room { ReadAnswer(mac, key, count + 1, input[|text| + 18..], room - |text|); }
    case _ =>
  }

  lemma ReadNext(mac: Mac, key: seq<byte>, count: nat, input: seq<byte>, room: int)
    requires |key| == 32 && |input| < TWO_TO_32
    ensures |input| < 2 ==> Read(mac, key, count, input, room) == Reading([], 0)
    ensures |input| >= 2 ==>
      var n := LengthOf(input[0], input[1]);
      if n + 18 > |input| then Read(mac, key, count, input, room) == Reading([], 0)
      else
        match Unframe(mac, key, count, input[..n + 18])
        case Unfinished => false
        case Forged => Read(mac, key, count, input, room) == Reading([], -1)
        case Chunk(text) =>
          |text| == n && Read(mac, key, count, input, room) ==
            (if n > room then Reading([], -1)
             else Continued([text], n + 18, Read(mac, key, count + 1, input[n + 18..], room - n)))
  {
    hide Open, Nonce, Read;
    ReadUnfold(mac, key, count, input, room);
    ChunkSize(mac, key, count, input);
    if |input| >= 2 && LengthOf(input[0], input[1]) + 18 <= |input| {
      var n := LengthOf(input[0], input[1]);
      var f := input[..n + 18];
      assert f[..2] == input[..2] && f[2..n + 18] == input[2..n + 18] && f[0] == input[0] && f[1] == input[1];
    }
  }

  lemma ReadUnfold(mac: Mac, key: seq<byte>, count: nat, input: seq<byte>, room: int)
    requires |key| == 32 && |input| < TWO_TO_32
    ensures var u := Unframe(mac, key, count, input);
      && (u.Chunk? ==> |u.text| + 18 <= |input|)
      && Read(mac, key, count, input, room) ==
           match u
           case Unfinished => Reading([], 0)
           case Forged => Reading([], -1)
           case Chunk(text) =>
             if |text| > room then Reading([], -1)
             else Continued([text], |text| + 18, Read(mac, key, count + 1, input[|text| + 18..], room - |text|))
  {
    hide Unframe, Continued;
    ChunkSize(mac, key, count, input);
  }

  lemma OverlaidNext(buffer: seq<byte>, done: seq<seq<byte>>, text: seq<byte>)
    ensures Overlaid(buffer, done + [text]) == Overlay(Overlaid(buffer, done), text)
  {
    assert (done + [text])[..|done|] == done;
  }

  lemma TotalNext(done: seq<seq<byte>>, text: seq<byte>)
    ensures Total(done + [text]) == Total(done) + |text|
  {
    assert (done + [text])[..|done|] == done;
  }

  lemma ContinuedNext(done: seq<seq<byte>>, offset: nat, text: seq<byte>, rest: Reading)
    requires rest.r >= -1
    ensures Continued(done, offset, Continued([text], |text| + 18, rest)) == Continued(done + [text], offset + |text| + 18, rest)
  {
    assert done + ([text] + rest.texts) == (done + [text]) + rest.texts;
  }

  /** Frames of chunks, one behind the other, as they may arrive in one read. */
  function Wrapped(mac: Mac, key: seq<byte>, count: nat, chunks: seq<seq<byte>>): seq<byte>
    requires |key| == 32 && forall i :: 0 <= i < |chunks| ==> |chunks[i]| <= FRAME_MAX
    decreases |chunks|
  {
    if chunks == [] then [] else Frame(mac, key, count, chunks[0]) + Wrapped(mac, key, count + 1, chunks[1..])
  }

  lemma {:induction false} JoinedTotal(texts: seq<seq<byte>>)
    ensures |Joined(texts)| == Total(texts)
    decreases |texts|
  {
    if texts != [] {
      var init, last := texts[..|texts| - 1], texts[|texts| - 1];
      JoinedTotal(init);
      JoinedSnoc(init, last);
      assert texts == init + [last];
    }
  }

  lemma {:induction false} JoinedSnoc(texts: seq<seq<byte>>, last: seq<byte>)
    ensures Joined(texts + [last]) == Joined(texts) + last
    decreases |texts|
  {
    if texts == [] {
      assert [] + [last] == [last] && [last][1..] == [];
      assert last + [] == last && [] + last == last;
    } else {
      assert (texts + [last])[1..] == texts[1..] + [last];
      JoinedSnoc(texts[1..], last);
    }
  }

  /** Every one of them is opened. */
  lemma {:induction false} AllOpened(mac: Mac, key: seq<byte>, count: nat, chunks: seq<seq<byte>>, room: int)
    requires GivesTags(mac) && |key| == 32 && (forall i :: 0 <= i < |chunks| ==> 0 < |chunks[i]| <= FRAME_MAX)
    requires |Joined(chunks)| <= room && |Joined(chunks)| + 18 * |chunks| < TWO_TO_32
    ensures |Wrapped(mac, key, count, chunks)| == |Joined(chunks)| + 18 * |chunks|
    ensures Read(mac, key, count, Wrapped(mac, key, count, chunks), room) == Reading(chunks, |Wrapped(mac, key, count, chunks)|)
    decreases |chunks|
  {
    hide Read, Unframe, Frame;
    var input := Wrapped(mac, key, count, chunks);
    if chunks == [] {
      ReadNext(mac, key, count, input, room);
    } else {
      var c, rest := chunks[0], Wrapped(mac, key, count + 1, chunks[1..]);
      var f := Frame(mac, key, count, c);
      FrameOpens(mac, key, count, c);
      AllOpened(mac, key, count + 1, chunks[1..], room - |c|);
      FrameLength(mac, key, count, c);
      assert input[0] == f[0] && input[1] == f[1];
      assert input[..|c| + 18] == f && input[|c| + 18..] == rest;
      ReadNext(mac, key, count, input, room);
      assert [c] + chunks[1..] == chunks;
    }
  }

  lemma FrameLength(mac: Mac, key: seq<byte>, count: nat, chunk: seq<byte>)
    requires GivesTags(mac) && |key| == 32 && 0 < |chunk| <= FRAME_MAX
    ensures var f := Frame(mac, key, count, chunk); |f| == |chunk| + 18 && LengthOf(f[0], f[1]) == |chunk|
  {
    hide Seal, Nonce;
    FrameOpens(mac, key, count, chunk);
    var h, s := Header(|chunk|), Seal(mac, key, Nonce(count), Header(|chunk|), chunk);
    assert (h + s)[0] == h[0] && (h + s)[1] == h[1];
  }

  /** Whatever its memory held, the output begins with all that was sent. */
  ghost predicate Delivered(texts: seq<seq<byte>>) {
    forall buffer: seq<byte> :: |buffer| >= |Joined(texts)| ==> Joined(texts) <= Overlaid(buffer, texts)
  }

  lemma {:induction false} OverlaidAt(buffer: seq<byte>, texts: seq<seq<byte>>, k: nat)
    requires k < |buffer| && forall i :: 0 <= i < |texts| ==> |texts[i]| <= k
    ensures |Overlaid(buffer, texts)| == |buffer| && Overlaid(buffer, texts)[k] == buffer[k]
    decreases |texts|
  {
    if texts != [] { OverlaidAt(buffer, texts[..|texts| - 1], k); }
  }

  lemma {:induction false} EachShorter(texts: seq<seq<byte>>, i: nat)
    requires i < |texts| && |texts| >= 2 && forall j :: 0 <= j < |texts| ==> texts[j] != []
    ensures |texts[i]| < |Joined(texts)|
    decreases |texts|
  {
    var rest := texts[1..];
    assert rest[0] == texts[1];
    if i > 0 {
      assert texts[i] == rest[i - 1];
      if |rest| >= 2 {
        EachShorter(rest, i - 1);
      } else {
        assert rest[1..] == [];
      }
    } else {
      assert Joined(rest) == rest[0] + Joined(rest[1..]);
    }
  }

  /** Texts that are not empty are delivered exactly when there is one at most: the next one
      is written over it, and the end of the output is never written. */
  lemma DeliveredAlone(texts: seq<seq<byte>>)
    requires forall i :: 0 <= i < |texts| ==> texts[i] != []
    ensures Delivered(texts) <==> |texts| <= 1
  {
    if |texts| <= 1 {
      forall buffer: seq<byte> | |buffer| >= |Joined(texts)| ensures Joined(texts) <= Overlaid(buffer, texts) {
        if |texts| == 1 {
          assert texts[1..] == [] && texts[..0] == [] && texts[0] + [] == texts[0];
          assert Overlaid(buffer, texts) == Overlay(buffer, texts[0]);
        }
      }
    } else {
      var n := |Joined(texts)|;
      EachShorter(texts, 0);
      var other: byte := if Joined(texts)[n - 1] == 0 then 1 else 0;
      var buffer: seq<byte> := seq(n, _ => other);
      forall i | 0 <= i < |texts| ensures |texts[i]| <= n - 1 { EachShorter(texts, i); }
      OverlaidAt(buffer, texts, n - 1);
      assert !(Joined(texts) <= Overlaid(buffer, texts));
    }
  }

  /** So chunks that arrive in one read are delivered exactly when they are one at most. */
  lemma FramesInOneRead(mac: Mac, key: seq<byte>, count: nat, chunks: seq<seq<byte>>, room: int)
    requires GivesTags(mac) && |key| == 32 && (forall i :: 0 <= i < |chunks| ==> 0 < |chunks[i]| <= FRAME_MAX)
    requires |Joined(chunks)| <= room && |Joined(chunks)| + 18 * |chunks| < TWO_TO_32
    ensures |Wrapped(mac, key, count, chunks)| < TWO_TO_32
    ensures var input := Wrapped(mac, key, count, chunks); var reading := Read(mac, key, count, input, room);
      reading.r == |input| && (Delivered(reading.texts) <==> |chunks| <= 1)
  {
    hide Read, Frame, Delivered;
    AllOpened(mac, key, count, chunks, room);
    DeliveredAlone(chunks);
  }

  /** The room client_decrypt_ asks for, in 32-bit arithmetic: for fewer than 18 bytes after
      the whole blocks the subtraction wraps round. */
  function RoomNeeded(size: nat): nat {
    (size / 1042 * 1024 + (if size % 1042 > 0 then (size % 1042 - 18) % TWO_TO_32 else 0)) % TWO_TO_32
  }

  /** Input too short for any frame is refused, whatever room there is. */
  lemma ShortInput(size: nat)
    requires size > 0
    ensures size < 18 ==> RoomNeeded(size) >= TWO_TO_32 - 18
  {
    if size < 18 { assert size / 1042 == 0 && size % 1042 == size; }
  }

  /** The room asked for is what the chunk of a frame needs. */
  lemma RoomForFrame(n: nat)
    requires n <= FRAME_MAX
    ensures RoomNeeded(n + 18) == n
  {
  }

  lemma PlainSize(mac: Mac, key: seq<byte>, iv: seq<byte>, aad: seq<byte>, sealed: seq<byte>)
    requires |key| == 32 && |iv| == 12 && |aad| < TWO_TO_32 && |sealed| < TWO_TO_32
    ensures Open(mac, key, iv, aad, sealed).Plain? ==> |Open(mac, key, iv, aad, sealed).text| + TAG_SIZE == |sealed|
  {
    hide Stream, State, MacInput, OneTimeKey;
  }

  lemma FramesNext(mac: Mac, key: seq<byte>, count: nat, data: seq<byte>, n: nat)
    requires |key| == 32 && n == if |data| > FRAME_MAX then FRAME_MAX else |data|
    ensures Frames(mac, key, count, data) ==
      if data == [] then [] else [Frame(mac, key, count, data[..n])] + Frames(mac, key, count + 1, data[n..])
  {
    assert data[..|data|] == data;
  }

  lemma FrameLeft(k: nat, size: nat)
    requires k * FRAME_MAX < size
    ensures k + 1 <= FrameCount(size)
  {
  }

  lemma FramesDone(k: nat, size: nat)
    requires k * FRAME_MAX >= size && k <= FrameCount(size)
    ensures k == FrameCount(size)
  {
  }

  lemma ZeroNonce()
    ensures Nonce(0) == [0, 0, 0, 0, 0, 0, 0, 0, 0, 0, 0, 0]
  {
    assert LittleEndian(4, 0) == [0, 0, 0, 0];
    assert LittleEndian(8, 0) == [0, 0, 0, 0] + LittleEndian(4, 0);
  }
}
