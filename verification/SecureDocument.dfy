/** A JSON document all the way through a verified session: written in blocks, sent as
    chunks, cut into encrypted frames, opened by the peer and parsed. */
module SecureDocument {
  import opened Bytes
  import opened HttpTypes
  import opened HttpMachine
  import opened HttpInvariant
  import opened HttpMessage
  import HttpCut
  import opened ChunkEncoder
  import opened Aead
  import opened Framing
  import JsonTree
  import JsonDocument

  /** The calls of client_send a document makes: one for each block, one for the end. */
  function Sends(blocks: seq<seq<byte>>): seq<seq<byte>> {
    if blocks == [] then [ChunkText(Hex(0), [], [])]
    else [ChunkText(Hex(|blocks[0]|), [], blocks[0])] + Sends(blocks[1..])
  }

  lemma {:induction false} SendsAreWire(blocks: seq<seq<byte>>)
    ensures Joined(Sends(blocks)) == Wire(blocks)
    decreases |blocks|
  {
    hide Hex;
    if blocks == [] {
      var last := ChunkText(Hex(0), [], []);
      var one: seq<seq<byte>> := [last];
      assert one[1..] == [] && last + Joined(one[1..]) == last;
    } else {
      SendsAreWire(blocks[1..]);
      assert Sends(blocks)[1..] == Sends(blocks[1..]);
    }
  }

  /** The peer that opens the frames in order, and feeds what it gets to a parser in any
      pieces, has one complete message, and in it the document's text exactly when its widest
      piece fits the buffer. */
  lemma DocumentArrivesSecurely(size: nat, t: JsonTree.Json, mac: Mac, key: seq<byte>, count: nat, p: Parser,
                                pieces: seq<seq<byte>>)
    requires 0 < size <= 0x10000
    requires GivesTags(mac) && |key| == 32 && Inv(p) && p.state.ChunkSizeStart?
    requires forall i :: 0 <= i < |pieces| ==> pieces[i] != []
    ensures var frames := AllFrames(mac, key, count, Sends(JsonDocument.DocumentBlocks(size, t)));
      && (forall i :: 0 <= i < |frames| ==> |frames[i]| <= FRAME_MAX + 18)
      && UnframeAll(mac, key, count, frames).Chunk?
      && (UnframeAll(mac, key, count, frames).text == HttpCut.Concat(pieces) ==>
           var calls := HttpCut.Merge(ExecuteAll(p, pieces).calls);
           (BodyOf(calls) == JsonTree.Text(t) <==> JsonDocument.Widest(t) < size) && Completions(calls) == 1)
  {
    hide JsonDocument.DocumentBlocks, JsonDocument.Widest, AllFrames, UnframeAll, Inv, ExecuteAll, Wire, Sends,
         HttpCut.Concat, HttpCut.Merge, BodyOf, Completions, Joined;
    var blocks := JsonDocument.DocumentBlocks(size, t);
    SendsArrive(mac, key, count, Sends(blocks));
    SendsAreWire(blocks);
    if HttpCut.Concat(pieces) == Wire(blocks) { DocumentArrives(size, t, p, pieces); }
  }
}
