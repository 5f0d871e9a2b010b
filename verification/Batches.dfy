/** How a file is cut into chunks and batches (`proto.rs`), and the receiver's index arithmetic. */
module Batches {
  import opened Basics

  const CHUNK_SIZE: nat := 940
  const SHARD_SIZE: nat := 960
  const BATCH_DATA_CHUNKS: nat := 1000
  const BATCH_PARITY_CHUNKS: nat := 100

  /** Bytes of file covered by one full batch. */
  const BATCH_BYTES: nat := BATCH_DATA_CHUNKS * CHUNK_SIZE

  function DivCeil(a: nat, b: nat): nat
    requires b > 0
  {
    if a % b == 0 then a / b else a / b + 1
  }

  function TotalChunks(fileSize: nat): nat {
    DivCeil(fileSize, CHUNK_SIZE)
  }

  function BatchForData(count: nat): nat {
    count / BATCH_DATA_CHUNKS
  }

  function BatchForParity(count: nat): nat {
    count / BATCH_PARITY_CHUNKS
  }

  function BatchDataSize(batch: nat, fileSize: nat): nat {
    var start := batch * BATCH_DATA_CHUNKS;
    if start >= TotalChunks(fileSize) then 0
    else Min(TotalChunks(fileSize) - start, BATCH_DATA_CHUNKS)
  }

  /** The receiver's length for chunk `c`: full, except for the last chunk of the file. */
  function ExpectedLen(c: nat, fileSize: nat): nat {
    var remainder := fileSize % CHUNK_SIZE;
    if c + 1 == TotalChunks(fileSize) && remainder != 0 then remainder else CHUNK_SIZE
  }

  /** How many batches hold at least one chunk. */
  function BatchCount(fileSize: nat): nat {
    DivCeil(TotalChunks(fileSize), BATCH_DATA_CHUNKS)
  }

  /** The end of what is on disk once batches `0..n` are written. */
  function Reached(n: nat, fileSize: nat): nat {
    Min(n * BATCH_BYTES, fileSize)
  }

  /** Chunk `c` of a file, as the sender reads it. */
  function Chunk(data: Bytes, c: nat): (chunk: Bytes)
    requires c < TotalChunks(|data|)
    ensures 1 <= |chunk| <= CHUNK_SIZE
    ensures |chunk| == ExpectedLen(c, |data|)
  {
    data[c * CHUNK_SIZE..Min((c + 1) * CHUNK_SIZE, |data|)]
  }

  /** The write for chunk `c` starts where the previous chunk ended and stays inside the file. */
  lemma ChunkPlacement(c: nat, fileSize: nat)
    requires c < TotalChunks(fileSize)
    ensures 1 <= ExpectedLen(c, fileSize) <= CHUNK_SIZE
    ensures c * CHUNK_SIZE + ExpectedLen(c, fileSize) <= fileSize
    ensures c + 1 < TotalChunks(fileSize) ==> ExpectedLen(c, fileSize) == CHUNK_SIZE
    ensures c + 1 == TotalChunks(fileSize) ==> c * CHUNK_SIZE + ExpectedLen(c, fileSize) == fileSize
  {
  }

  /** Chunk `c` belongs to exactly the batches `c / 1000`, at a place below that batch's size. */
  lemma ChunkInBatch(c: nat, b: nat, fileSize: nat)
    ensures c < TotalChunks(fileSize) && BatchForData(c) == b <==>
            b * BATCH_DATA_CHUNKS <= c < b * BATCH_DATA_CHUNKS + BatchDataSize(b, fileSize)
  {
  }

  /** A batch is non-empty exactly when its index is below the batch count, and only the last may be short. */
  lemma BatchSizes(b: nat, fileSize: nat)
    ensures BatchDataSize(b, fileSize) > 0 <==> b < BatchCount(fileSize)
    ensures b + 1 < BatchCount(fileSize) ==> BatchDataSize(b, fileSize) == BATCH_DATA_CHUNKS
    ensures b + 1 == BatchCount(fileSize) ==>
              b * BATCH_DATA_CHUNKS + BatchDataSize(b, fileSize) == TotalChunks(fileSize)
    ensures b + 1 < BatchCount(fileSize) ==> (b + 1) * BATCH_BYTES < fileSize
    ensures b + 1 >= BatchCount(fileSize) ==> (b + 1) * BATCH_BYTES >= fileSize
  {
  }

  /** Byte `x` is written by the finalize loop of batch `b` at iteration `i`. */
  predicate Covers(b: nat, i: nat, x: nat, fileSize: nat) {
    var c := b * BATCH_DATA_CHUNKS + i;
    c * CHUNK_SIZE <= x < c * CHUNK_SIZE + ExpectedLen(c, fileSize)
  }

  /** Tiling: every byte of the file lies in the write of exactly one (batch, index) pair. */
  lemma Tiling(x: nat, fileSize: nat)
    requires x < fileSize
    ensures var c := x / CHUNK_SIZE; var b := BatchForData(c); var i := c % BATCH_DATA_CHUNKS;
            && b < BatchCount(fileSize) && i < BatchDataSize(b, fileSize)
            && Covers(b, i, x, fileSize)
            && forall b': nat, i': nat ::
                 i' < BatchDataSize(b', fileSize) && Covers(b', i', x, fileSize) ==> b' == b && i' == i
  {
    BatchSizes(BatchForData(x / CHUNK_SIZE), fileSize);
  }
}
