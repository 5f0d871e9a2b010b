/** The packets the sender emits for one file (`diode_send/src/main.rs`), as functions of the file. */
module Protocol {
  import opened Basics
  import opened Batches
  import opened Wire
  import opened Erasure

  datatype Source = Source(path: string, data: Bytes)

  function PathHash(libs: Libraries, src: Source): Field {
    libs.md5(libs.utf8(src.path))
  }

  function StartPacket(libs: Libraries, src: Source): Packet {
    Packet(START, |src.data|, PathHash(libs, src), EncodeParityField(BATCH_PARITY_CHUNKS), libs.utf8(src.path))
  }

  function EndPacket(libs: Libraries, src: Source): Packet {
    Packet(END, TotalChunks(|src.data|), EMPTY_HASH, EMPTY_HASH, libs.utf8(src.path))
  }

  function DataPacket(libs: Libraries, src: Source, c: nat): Packet
    requires c < TotalChunks(|src.data|)
  {
    var chunk := Chunk(src.data, c);
    Packet(DATA, c, PathHash(libs, src), libs.md5(chunk), chunk)
  }

  /** Chunk `i` of batch `b`, padded. */
  function Shard(data: Bytes, b: nat, i: nat): (shard: Bytes)
    requires i < BatchDataSize(b, |data|)
    ensures |shard| == SHARD_SIZE
  {
    Pad(Chunk(data, b * BATCH_DATA_CHUNKS + i))
  }

  /** What the encoder is given for batch `b`. */
  function BatchShards(data: Bytes, b: nat): (shards: seq<Bytes>)
    ensures |shards| == BatchDataSize(b, |data|) && AreShards(shards)
    ensures forall i :: 0 <= i < |shards| ==> shards[i] == Shard(data, b, i)
  {
    seq(BatchDataSize(b, |data|), i requires 0 <= i < BatchDataSize(b, |data|) => Shard(data, b, i))
  }

  function ParityShards(libs: Libraries, data: Bytes, b: nat): seq<Bytes> {
    libs.encode(BATCH_PARITY_CHUNKS, BatchShards(data, b))
  }

  function ParityPacket(libs: Libraries, src: Source, b: nat, i: nat): Packet
    requires i < |ParityShards(libs, src.data, b)|
  {
    var shard := ParityShards(libs, src.data, b)[i];
    Packet(PARITY, b * BATCH_PARITY_CHUNKS + i, PathHash(libs, src), libs.md5(shard), shard)
  }

  /** A reliable library gives every batch of a file its hundred parity shards. */
  lemma ParityShardsComplete(libs: Libraries, data: Bytes, b: nat)
    requires Reliable(libs) && b < BatchCount(|data|)
    ensures |ParityShards(libs, data, b)| == BATCH_PARITY_CHUNKS && AreShards(ParityShards(libs, data, b))
  {
    BatchSizes(b, |data|);
    assert Recovers(libs.encode, libs.decode, BatchDataSize(b, |data|), BATCH_PARITY_CHUNKS);
  }

  /**
    Sender and receiver agree on numbering: the parity number decodes to the batch and the index it was
    made from, and a chunk number decodes to the batch whose encoder call includes that chunk.
  */
  lemma NumbersAgree(b: nat, i: nat, c: nat, fileSize: nat)
    requires i < BATCH_PARITY_CHUNKS
    ensures BatchForParity(b * BATCH_PARITY_CHUNKS + i) == b
    ensures (b * BATCH_PARITY_CHUNKS + i) % BATCH_PARITY_CHUNKS == i
    ensures c < TotalChunks(fileSize) ==>
              var b' := BatchForData(c);
              b' < BatchCount(fileSize) && c - b' * BATCH_DATA_CHUNKS < BatchDataSize(b', fileSize)
  {
    BatchSizes(BatchForData(c), fileSize);
    ChunkInBatch(c, BatchForData(c), fileSize);
  }

  /** What END tells: the number of chunks and the path, without hashes, in a packet of its own that fits the wire. */
  lemma EndTells(libs: Libraries, src: Source)
    requires |src.data| < COUNT_LIMIT && libs.lossyUtf8(libs.utf8(src.path)) == src.path
    ensures var p := Decode(EncodePacket(EndPacket(libs, src)));
            && p.Some? && p.value.pkgType == END && libs.lossyUtf8(p.value.data) == src.path
            && p.value.pathHash == p.value.dataHash == seq(32, _ => 48)
            && (p.value.count == 0 <==> |src.data| == 0)
            && |src.data| <= p.value.count * 940 < |src.data| + 940
  {
    hide Decode, EncodePacket;
    RoundTripFits(EndPacket(libs, src));
  }

  /** What START tells: the size, the hash of the path, a hundred parity shards for each batch, and the path. */
  lemma StartTells(libs: Libraries, src: Source)
    requires |src.data| < COUNT_LIMIT && libs.lossyUtf8(libs.utf8(src.path)) == src.path
    ensures var p := Decode(EncodePacket(StartPacket(libs, src)));
            && p.Some? && p.value.pkgType == START && p.value.count == |src.data|
            && p.value.pathHash == libs.md5(libs.utf8(src.path)) && libs.lossyUtf8(p.value.data) == src.path
            && DecodeParityField(p.value.dataHash) == Some(100)
  {
    hide Decode, EncodePacket, EncodeParityField, DecodeParityField;
    RoundTripFits(StartPacket(libs, src));
    ParityFieldRoundTrip(100);
  }
}
