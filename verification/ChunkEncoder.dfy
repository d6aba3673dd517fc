/** client_send_chunk, and the whole way of a JSON document: from the writer's blocks
    through the chunked coding and back out of the parser. */
module ChunkEncoder {
  import opened Bytes
  import opened HttpTypes
  import opened HttpMachine
  import opened HttpInvariant
  import opened HttpCut
  import opened HttpMessage
  import opened JsonTree
  import JsonDocument

  function HexChar(d: nat): (c: byte)
    requires d < 16
    ensures Unhex(c) == d
  {
    if d < 10 then 48 + d else 87 + d
  }

  /** %x */
  function Hex(n: nat): (text: seq<byte>)
    ensures text != []
  {
    if n < 16 then [HexChar(n)] else Hex(n / 16) + [HexChar(n % 16)]
  }

  lemma {:induction false} HexIsSize(n: nat)
    ensures IsHexText(Hex(n)) && HexValue(Hex(n)) == n
    decreases n
  {
    hide Unhex, HexChar;
    if n < 16 {
      var c := HexChar(n);
      assert [c][..0] == [];
      assert HexValue([]) == 0 && HexDigit(c) == n;
      assert HexValue([c]) == HexValue([c][..|[c]| - 1]) * 16 + HexDigit([c][|[c]| - 1]);
    } else {
      HexIsSize(n / 16);
      var t, c := Hex(n / 16), HexChar(n % 16);
      assert (t + [c])[..|t + [c]| - 1] == t && (t + [c])[|t|] == c;
      assert HexValue(t + [c]) == HexValue((t + [c])[..|t + [c]| - 1]) * 16 + HexDigit((t + [c])[|t + [c]| - 1]);
    }
  }

  /** How many digits a size has: never more than four below 65536. */
  lemma {:induction false} HexLength(n: nat, k: nat)
    requires n < Power16(k) && k > 0
    ensures |Hex(n)| <= k
    decreases k
  {
    if n >= 16 {
      assert k > 1;
      assert n / 16 < Power16(k - 1);
      HexLength(n / 16, k - 1);
    }
  }

  function Power16(k: nat): nat { if k == 0 then 1 else 16 * Power16(k - 1) }

  lemma FourDigits(n: nat)
    requires n < 0x10000
    ensures |Hex(n)| <= 4
  {
    assert Power16(1) == 16 && Power16(2) == 256 && Power16(3) == 4096;
    HexLength(n, 4);
  }

  /** The payload array has eight bytes more than the data: four digits, two line ends.
      A larger size would run over its end. */
  method ClientSendChunk(data: seq<byte>) returns (sent: seq<byte>)
    requires |data| < 0x10000
    ensures sent == ChunkText(Hex(|data|), [], data)
  {
    hide Hex, ChunkText;
    var payload := new byte[|data| + 8](_ => 0);
    FourDigits(|data|);
    var line := Hex(|data|) + CRLF;
    var offset := |line|;
    Copy(payload, 0, line + [NUL]);
    assert payload[..offset] == payload[..offset + 1][..offset] == line;
    Copy(payload, offset, data);
    var end := offset + |data|;
    assert payload[..end] == line + data;
    payload[end], payload[end + 1] := CR, LF;
    sent := payload[..end + 2];
    assert payload[..end] == line + data;
    assert sent == payload[..end] + CRLF;
    PlainChunk(Hex(|data|), data);
  }

  lemma PlainChunk(size: seq<byte>, data: seq<byte>)
    ensures ChunkText(size, [], data) == size + CRLF + data + CRLF
  {
    assert size + [] == size;
  }

  /** The chunks the blocks become. */
  function ChunksOf(blocks: seq<seq<byte>>): seq<Chunk> {
    if blocks == [] then [] else [Chunk(Hex(|blocks[0]|), [], blocks[0])] + ChunksOf(blocks[1..])
  }

  /** What the server writes: every block as a chunk, then the empty chunk. */
  function Wire(blocks: seq<seq<byte>>): seq<byte> {
    if blocks == [] then ChunkText(Hex(0), [], [])
    else ChunkText(Hex(|blocks[0]|), [], blocks[0]) + Wire(blocks[1..])
  }

  predicate Sendable(blocks: seq<seq<byte>>) {
    forall i :: 0 <= i < |blocks| ==> 0 < |blocks[i]| < 0x10000
  }

  lemma ChunkIsRight(b: seq<byte>)
    requires 0 < |b| < 0x10000
    ensures IsChunk(Chunk(Hex(|b|), [], b))
  {
    HexIsSize(|b|);
    FourDigits(|b|);
    hide Hex, HexValue, IsHexText;
  }

  lemma {:induction false} WireIsChunks(blocks: seq<seq<byte>>)
    requires Sendable(blocks)
    ensures var chunks := ChunksOf(blocks);
      && (forall i :: 0 <= i < |chunks| ==> IsChunk(chunks[i]))
      && Wire(blocks) == ChunksText(chunks) + LastText([48], [])
      && Payload(chunks) == Concat(blocks)
    decreases |blocks|
  {
    if blocks == [] {
      assert Hex(0) == [48];
      assert ChunkText(Hex(0), [], []) == LastText([48], []);
      assert [] + LastText([48], []) == LastText([48], []);
    } else {
      hide Hex, IsChunk;
      var c := Chunk(Hex(|blocks[0]|), [], blocks[0]);
      ChunkIsRight(blocks[0]);
      WireIsChunks(blocks[1..]);
      var rest := ChunksOf(blocks[1..]);
      assert ChunksOf(blocks) == [c] + rest && ([c] + rest)[1..] == rest;
      assert (ChunkText(c.size, c.ext, c.data) + ChunksText(rest)) + LastText([48], [])
          == ChunkText(c.size, c.ext, c.data) + (ChunksText(rest) + LastText([48], []));
    }
  }

  lemma ZeroLine()
    ensures IsSizeLine([48], [], 0)
  {
    var zero: seq<byte> := [48];
    assert zero[..0] == [] && HexValue([]) == 0;
    assert HexValue(zero) == HexValue(zero[..|zero| - 1]) * 16 + HexDigit(zero[|zero| - 1]);
  }

  /** Blocks sent as chunks, cut anywhere on the way, come out of the parser's body
      callback as the blocks' bytes, and the message is complete exactly once. */
  lemma BlocksArrive(p: Parser, blocks: seq<seq<byte>>, pieces: seq<seq<byte>>)
    requires Inv(p) && p.state.ChunkSizeStart? && Sendable(blocks)
    requires Concat(pieces) == Wire(blocks) && forall i :: 0 <= i < |pieces| ==> pieces[i] != []
    ensures var all := ExecuteAll(p, pieces);
      && all.p.errno.Ok? && all.p.state == NewMessage(p)
      && BodyOf(Merge(all.calls)) == Concat(blocks)
      && Merge(all.calls) == ChunkCalls(ChunksOf(blocks)) + EndCalls
      && all.consumed == |Wire(blocks)|
  {
    hide Inv, ExecuteAll, Merge, BodyOf, ChunkCalls, ChunksText, Wire, ChunksOf, IsChunk, Payload, NewMessage;
    WireIsChunks(blocks);
    ZeroLine();
    ChunkedBody(p, ChunksOf(blocks), [48], [], pieces);
    InvOk(p);
  }

  lemma EndCompletes()
    ensures Completions(EndCalls) == 1
  {
    NoCompletion(EndCalls[0], EndCalls[1..]);
    NoCompletion(EndCalls[1], EndCalls[2..]);
    assert [EndCalls[0]] + EndCalls[1..] == EndCalls && [EndCalls[1]] + EndCalls[2..] == EndCalls[1..];
    assert EndCalls[2..][1..] == [];
  }

  lemma {:induction false} CompletesOnce(chunks: seq<Chunk>)
    ensures Completions(ChunkCalls(chunks) + EndCalls) == 1
    decreases |chunks|
  {
    hide Completions;
    if chunks == [] {
      assert [] + EndCalls == EndCalls;
      EndCompletes();
    } else {
      CompletesOnce(chunks[1..]);
      ChunkCompletes(chunks);
    }
  }

  lemma ChunkCompletes(chunks: seq<Chunk>)
    requires chunks != []
    ensures Completions(ChunkCalls(chunks) + EndCalls) == Completions(ChunkCalls(chunks[1..]) + EndCalls)
  {
    hide Completions, EndCalls;
    var rest := ChunkCalls(chunks[1..]);
    var three := [Notify(ChunkHeader), Data(Body, chunks[0].data), Notify(ChunkComplete)];
    assert (three + rest) + EndCalls == three + (rest + EndCalls);
    NoneOfThree(Notify(ChunkHeader), Data(Body, chunks[0].data), Notify(ChunkComplete), rest + EndCalls);
  }

  lemma NoneOfThree(a: Call, b: Call, c: Call, rest: seq<Call>)
    requires Notify(MessageComplete) !in {a, b, c}
    ensures Completions([a, b, c] + rest) == Completions(rest)
  {
    hide Completions;
    NoCompletion(a, [b, c] + rest);
    assert [a] + ([b, c] + rest) == [a, b, c] + rest;
    NoCompletion(b, [c] + rest);
    assert [b] + ([c] + rest) == [b, c] + rest;
    NoCompletion(c, rest);
  }

  /** End to end: a tree written through a buffer of `size` bytes, chunk by chunk, and
      read back through any cut of the stream is the tree's text exactly when every piece
      of it fits the buffer; the message completes once. */
  lemma DocumentArrives(size: nat, t: Json, p: Parser, pieces: seq<seq<byte>>)
    requires 0 < size <= 0x10000 && Inv(p) && p.state.ChunkSizeStart?
    requires Concat(pieces) == Wire(JsonDocument.DocumentBlocks(size, t))
    requires forall i :: 0 <= i < |pieces| ==> pieces[i] != []
    ensures var all := ExecuteAll(p, pieces);
      && all.p.errno.Ok?
      && (BodyOf(Merge(all.calls)) == Text(t) <==> JsonDocument.Widest(t) < size)
      && Completions(Merge(all.calls)) == 1
  {
    hide Inv, ExecuteAll, Merge, BodyOf, ChunkCalls, Wire, ChunksOf, JsonDocument.DocumentBlocks, Concat;
    JsonDocument.DocumentText(size, t);
    var blocks := JsonDocument.DocumentBlocks(size, t);
    BlocksArrive(p, blocks, pieces);
    CompletesOnce(ChunksOf(blocks));
  }
}
