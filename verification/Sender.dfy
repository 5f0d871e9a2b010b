/** The sender's loops (`diode_send/src/main.rs`), verified against the packets of `Protocol`. */
module Sender {
  import opened Basics
  import opened Batches
  import opened Wire
  import opened Erasure
  import opened Protocol

  const CONTROL_RESEND: nat := 3

  // ---- Reading ----

  /** What the operating system does to one `read`: some bytes (never more than asked), `EINTR`, or an error. */
  datatype ReadOutcome = UpTo(n: nat) | Interrupted | Broken

  /** A file being read. Outcomes come from `plan`; after it, every read returns all it can. */
  class Reader {
    const data: Bytes
    var pos: nat
    var plan: seq<ReadOutcome>

    ghost predicate Valid()
      reads this
    {
      pos <= |data|
    }

    constructor (data: Bytes, plan: seq<ReadOutcome>)
      ensures Valid() && this.data == data && pos == 0 && this.plan == plan
    {
      this.data, this.pos, this.plan := data, 0, plan;
    }

    /** Reads into `buf[from..]`. Zero bytes mean the end of the file. */
    method Read(buf: array<Byte>, from: nat) returns (r: Result<nat, ReadOutcome>)
      requires Valid() && from < buf.Length
      modifies this, buf
      ensures Valid()
      ensures plan == if old(plan) == [] then [] else old(plan)[1..]
      ensures r.Err? ==> old(plan) != [] && r.error == old(plan)[0] && !r.error.UpTo? && pos == old(pos)
      ensures r.Err? ==> forall i :: 0 <= i < buf.Length ==> buf[i] == old(buf[i])
      ensures r.Ok? ==> (old(plan) == [] || old(plan)[0].UpTo?)
      ensures r.Ok? ==> r.value <= Min(buf.Length - from, |data| - old(pos)) && pos == old(pos) + r.value
      ensures r.Ok? ==> (r.value == 0 <==> old(pos) == |data|)
      ensures r.Ok? ==> forall i :: 0 <= i < buf.Length ==>
                buf[i] == if from <= i < from + r.value then data[old(pos) + i - from] else old(buf[i])
    {
      var most := Min(buf.Length - from, |data| - pos);
      if plan != [] {
        var next := plan[0];
        plan := plan[1..];
        if !next.UpTo? {
          return Err(next);
        }
        most := Min(most, Max(1, next.n));
      }
      forall i | 0 <= i < most {
        buf[from + i] := data[pos + i];
      }
      pos := pos + most;
      r := Ok(most);
    }
  }

  /** What the reads between two states of a file met. */
  function Met(before: seq<ReadOutcome>, after: seq<ReadOutcome>): seq<ReadOutcome>
    requires |after| <= |before|
  {
    before[..|before| - |after|]
  }

  ghost predicate Consumed(before: seq<ReadOutcome>, after: seq<ReadOutcome>) {
    |after| <= |before| && after == before[|before| - |after|..]
  }

  /** No read failed. */
  ghost predicate NoneFailed(before: seq<ReadOutcome>, after: seq<ReadOutcome>) {
    Consumed(before, after) && Broken !in Met(before, after)
  }

  /** The last read failed, and none before it. */
  ghost predicate LastFailed(before: seq<ReadOutcome>, after: seq<ReadOutcome>) {
    && Consumed(before, after) && |after| < |before|
    && var met := Met(before, after); met[|met| - 1] == Broken && Broken !in met[..|met| - 1]
  }

  lemma ReadsJoin(a: seq<ReadOutcome>, b: seq<ReadOutcome>, c: seq<ReadOutcome>)
    requires NoneFailed(a, b)
    ensures NoneFailed(b, c) ==> NoneFailed(a, c)
    ensures LastFailed(b, c) ==> LastFailed(a, c)
  {
    if Consumed(b, c) {
      assert Met(a, c) == Met(a, b) + Met(b, c);
      if LastFailed(b, c) {
        var n := |Met(a, c)| - 1;
        assert Met(a, c)[..n] == Met(a, b) + Met(b, c)[..|Met(b, c)| - 1];
      }
    }
  }

  lemma NothingRead(plan: seq<ReadOutcome>)
    ensures NoneFailed(plan, plan)
  {
  }

  /**
    `read_chunk`: fills the buffer as far as the file goes, however the reads are split or interrupted; an
    error other than an interruption is handed on at once.
  */
  method ReadChunk(reader: Reader, buf: array<Byte>) returns (r: Result<nat, ReadOutcome>)
    requires reader.Valid()
    modifies reader, buf
    ensures reader.Valid()
    ensures r.Ok? ==> r.value == Min(buf.Length, |reader.data| - old(reader.pos))
    ensures r.Ok? ==> reader.pos == old(reader.pos) + r.value
    ensures r.Ok? ==> buf[..r.value] == reader.data[old(reader.pos)..reader.pos]
    ensures r.Ok? ==> buf[r.value..] == old(buf[..])[r.value..]
    ensures r.Ok? ==> NoneFailed(old(reader.plan), reader.plan)
    ensures r.Err? ==> r.error == Broken && LastFailed(old(reader.plan), reader.plan)
  {
    var total: nat := 0;
    while total < buf.Length
      invariant reader.Valid() && total <= buf.Length && reader.pos == old(reader.pos) + total
      invariant forall i :: 0 <= i < total ==> buf[i] == reader.data[old(reader.pos) + i]
      invariant forall i :: total <= i < buf.Length ==> buf[i] == old(buf[i])
      invariant NoneFailed(old(reader.plan), reader.plan)
      decreases |reader.plan|, buf.Length - total
    {
      ghost var plan := reader.plan;
      var n := reader.Read(buf, total);
      ReadsJoin(old(reader.plan), plan, reader.plan);
      if n.Ok? {
        if n.value == 0 {
          break;
        }
        total := total + n.value;
      } else if n.error != Interrupted {
        return n;
      }
    }
    r := Ok(total);
  }

  // ---- Sending ----

  /**
    The socket: every datagram handed to it, in order, and whether it took it. `plan` says which it will refuse.
   */
  class Link {
    var tried: seq<Bytes>
    var taken: seq<bool>
    var plan: seq<bool>

    ghost predicate Valid()
      reads this
    {
      |taken| == |tried|
    }

    constructor (plan: seq<bool>)
      ensures Valid() && tried == [] && this.plan == plan
    {
      this.tried, this.taken, this.plan := [], [], plan;
    }

    /** `send_to_blocking`: the retries on a full queue do not show; any other error does. */
    method Send(datagram: Bytes) returns (ok: bool)
      requires Valid()
      modifies this
      ensures Valid()
      ensures tried == old(tried) + [datagram] && taken == old(taken) + [ok]
      ensures ok == (old(plan) == [] || old(plan)[0]) && plan == if old(plan) == [] then [] else old(plan)[1..]
    {
      ok := plan == [] || plan[0];
      plan := if plan == [] then [] else plan[1..];
      tried, taken := tried + [datagram], taken + [ok];
    }
  }

  /** What is on the wire: the datagrams that were taken. */
  function Delivered<T>(tried: seq<T>, taken: seq<bool>): (wire: seq<T>)
    requires |tried| == |taken|
    ensures |wire| <= |tried|
  {
    if tried == [] then [] else
      var n := |tried| - 1;
      Delivered(tried[..n], taken[..n]) + if taken[n] then [tried[n]] else []
  }

  lemma {:induction false} AllDelivered<T>(tried: seq<T>, taken: seq<bool>)
    requires |tried| == |taken| && forall k :: 0 <= k < |taken| ==> taken[k]
    ensures Delivered(tried, taken) == tried
  {
    if tried != [] {
      AllDelivered(tried[..|tried| - 1], taken[..|tried| - 1]);
    }
  }

  lemma {:induction false} DeliveredJoins<T>(a: seq<T>, takenA: seq<bool>, b: seq<T>, takenB: seq<bool>)
    requires |a| == |takenA| && |b| == |takenB|
    ensures Delivered(a + b, takenA + takenB) == Delivered(a, takenA) + Delivered(b, takenB)
  {
    if b == [] {
      assert a + b == a && takenA + takenB == takenA;
    } else {
      var n := |b| - 1;
      assert (a + b)[..|a| + n] == a + b[..n] && (takenA + takenB)[..|a| + n] == takenA + takenB[..n];
      DeliveredJoins(a, takenA, b[..n], takenB[..n]);
    }
  }

  /** A parity packet shows its type in the first byte. */
  predicate IsParity(datagram: Bytes) {
    datagram != [] && datagram[0] == 51
  }

  /** From `start` on, only parity packets were refused. */
  ghost predicate ParityOnly(start: nat, tried: seq<Bytes>, taken: seq<bool>) {
    |tried| == |taken| && forall k :: start <= k < |tried| && !taken[k] ==> IsParity(tried[k])
  }

  /** Two stretches of sending, one after the other. */
  lemma ParityOnlyJoins(start: nat, a: seq<Bytes>, takenA: seq<bool>, b: seq<Bytes>, takenB: seq<bool>)
    requires ParityOnly(start, a, takenA) && a <= b && takenA <= takenB && ParityOnly(|a|, b, takenB)
    ensures ParityOnly(start, b, takenB)
  {
    hide IsParity;
  }

  function Repeat(datagram: Bytes, n: nat): seq<Bytes> {
    seq(n, _ => datagram)
  }

  function Trues(n: nat): (r: seq<bool>)
    ensures |r| == n && forall k :: 0 <= k < n ==> r[k]
  {
    seq(n, _ => true)
  }

  /** `send_with_retry` stops at the first refusal. */
  method SendWithRetry(link: Link, datagram: Bytes, times: nat) returns (ok: bool, ghost n: nat)
    requires link.Valid()
    modifies link
    ensures link.Valid() && 1 <= n <= Max(1, times) && (ok ==> n == Max(1, times))
    ensures link.tried == old(link.tried) + Repeat(datagram, n)
    ensures link.taken == old(link.taken) + Trues(n - 1) + [ok]
  {
    ok, n := true, 0;
    for i := 0 to Max(1, times)
      invariant link.Valid() && n == i && ok
      invariant link.tried == old(link.tried) + Repeat(datagram, i) && link.taken == old(link.taken) + Trues(i)
    {
      ok := link.Send(datagram);
      n := n + 1;
      assert Repeat(datagram, n) == Repeat(datagram, i) + [datagram];
      if !ok {
        return;
      }
      assert Trues(n) == Trues(i) + [true];
    }
    assert Trues(n) == Trues(n - 1) + [true];
  }

  function PaddedAll(payloads: seq<Bytes>): (shards: seq<Bytes>)
    ensures |shards| == |payloads| && forall i :: 0 <= i < |shards| ==> shards[i] == Pad(payloads[i])
  {
    seq(|payloads|, i requires 0 <= i < |payloads| => Pad(payloads[i]))
  }

  /** The first `n` parity datagrams of a batch. */
  function ParityFor(libs: Libraries, pathHash: Field, parity: seq<Bytes>, base: nat, n: nat): seq<Bytes>
    requires n <= |parity|
  {
    seq(n, i requires 0 <= i < |parity| => Encode(PARITY, base + i, pathHash, libs.md5(parity[i]), parity[i]))
  }

  lemma ParityShows(number: nat, pathHash: Field, dataHash: Field, payload: Bytes)
    ensures IsParity(Encode(PARITY, number, pathHash, dataHash, payload))
  {
    assert Decimal(PARITY) == [51];
  }

  /** A refused parity packet is logged, and the rest are sent all the same. An encoder error leaves no parity. */
  method SendParityPackets(libs: Libraries, link: Link, pathHash: Field, payloads: seq<Bytes>, parityCount: nat,
                           batchIdx: nat, packetBuf: PacketBuffer)
    requires link.Valid() && forall i :: 0 <= i < |payloads| ==> |payloads[i]| <= SHARD_SIZE
    modifies link, packetBuf
    ensures link.Valid() && old(link.taken) <= link.taken
    ensures var parity := libs.encode(parityCount, PaddedAll(payloads));
            link.tried == old(link.tried) +
              if payloads == [] || parityCount == 0 then []
              else ParityFor(libs, pathHash, parity, batchIdx * parityCount, |parity|)
    ensures ParityOnly(|old(link.tried)|, link.tried, link.taken)
  {
    hide IsParity, Encode;
    if payloads == [] || parityCount == 0 {
      return;
    }
    var shards := PadWithBuffer(payloads);
    var parity := libs.encode(parityCount, shards);
    var base := batchIdx * parityCount;
    for idx := 0 to |parity|
      invariant link.Valid() && old(link.taken) <= link.taken
      invariant link.tried == old(link.tried) + ParityFor(libs, pathHash, parity, base, idx)
      invariant ParityOnly(|old(link.tried)|, link.tried, link.taken)
    {
      var parityHash := libs.md5(parity[idx]);
      packetBuf.EncodeInto(PARITY, base + idx, pathHash, parityHash, parity[idx]);
      ParityShows(base + idx, pathHash, parityHash, parity[idx]);
      var ok := link.Send(packetBuf.bytes);
    }
  }

  /** One shard buffer is zeroed and refilled for every payload. */
  method PadWithBuffer(payloads: seq<Bytes>) returns (shards: seq<Bytes>)
    requires forall i :: 0 <= i < |payloads| ==> |payloads[i]| <= SHARD_SIZE
    ensures shards == PaddedAll(payloads)
  {
    var shardBuf := new Byte[SHARD_SIZE];
    shards := [];
    for k := 0 to |payloads|
      invariant fresh(shardBuf) && shards == PaddedAll(payloads)[..k]
    {
      var data := payloads[k];
      forall i | 0 <= i < SHARD_SIZE {
        shardBuf[i] := 0;
      }
      forall i | 0 <= i < |data| {
        shardBuf[i] := data[i];
      }
      assert shardBuf[..] == Pad(data);
      shards := shards + [shardBuf[..]];
    }
  }

  // ---- What one file becomes on the wire ----

  function DataDatagrams(libs: Libraries, src: Source, first: nat, n: nat): seq<Bytes>
    requires first + n <= TotalChunks(|src.data|)
  {
    seq(n, i requires 0 <= i < n => EncodePacket(DataPacket(libs, src, first + i)))
  }

  function ParityDatagrams(libs: Libraries, src: Source, b: nat): seq<Bytes> {
    var n := |ParityShards(libs, src.data, b)|;
    seq(n, i requires 0 <= i < n => EncodePacket(ParityPacket(libs, src, b, i)))
  }

  /** A batch: its chunks in order, then its parity shards. */
  function BatchDatagrams(libs: Libraries, src: Source, b: nat): seq<Bytes>
    requires b < BatchCount(|src.data|)
  {
    DataDatagrams(libs, src, b * BATCH_DATA_CHUNKS, BatchDataSize(b, |src.data|)) + ParityDatagrams(libs, src, b)
  }

  function FirstBatches(libs: Libraries, src: Source, n: nat): seq<Bytes>
    requires n <= BatchCount(|src.data|)
  {
    if n == 0 then [] else FirstBatches(libs, src, n - 1) + BatchDatagrams(libs, src, n - 1)
  }

  function Opening(libs: Libraries, src: Source): seq<Bytes> {
    Repeat(EncodePacket(StartPacket(libs, src)), CONTROL_RESEND)
  }

  /** Three STARTs, the batches, three ENDs. */
  function SentFor(libs: Libraries, src: Source): seq<Bytes> {
    Opening(libs, src) + FirstBatches(libs, src, BatchCount(|src.data|))
      + Repeat(EncodePacket(EndPacket(libs, src)), CONTROL_RESEND)
  }

  function Chunks(data: Bytes, first: nat, n: nat): (chunks: seq<Bytes>)
    requires first + n <= TotalChunks(|data|)
    ensures |chunks| == n && forall i :: 0 <= i < n ==> chunks[i] == Chunk(data, first + i)
  {
    seq(n, i requires 0 <= i < n => Chunk(data, first + i))
  }

  /** The encoder call for a batch is given exactly that batch's shards, so its datagrams are the batch's parity. */
  lemma ParityOfBatch(libs: Libraries, src: Source, b: nat, payloads: seq<Bytes>)
    requires b < BatchCount(|src.data|)
    requires b * BATCH_DATA_CHUNKS + BatchDataSize(b, |src.data|) <= TotalChunks(|src.data|)
    requires payloads == Chunks(src.data, b * BATCH_DATA_CHUNKS, BatchDataSize(b, |src.data|))
    ensures var parity := libs.encode(BATCH_PARITY_CHUNKS, PaddedAll(payloads));
            ParityFor(libs, PathHash(libs, src), parity, b * BATCH_PARITY_CHUNKS, |parity|)
              == ParityDatagrams(libs, src, b)
  {
    assert PaddedAll(payloads) == BatchShards(src.data, b);
  }

  /** What is on the wire after `b` whole batches and `n` chunks of the next. */
  function Progress(libs: Libraries, src: Source, b: nat, n: nat): seq<Bytes>
    requires b <= BatchCount(|src.data|) && b * BATCH_DATA_CHUNKS + n <= TotalChunks(|src.data|)
  {
    Opening(libs, src) + FirstBatches(libs, src, b) + DataDatagrams(libs, src, b * BATCH_DATA_CHUNKS, n)
  }

  lemma ProgressChunk(libs: Libraries, src: Source, b: nat, n: nat)
    requires b <= BatchCount(|src.data|) && b * BATCH_DATA_CHUNKS + n < TotalChunks(|src.data|)
    ensures Progress(libs, src, b, n) + [EncodePacket(DataPacket(libs, src, b * BATCH_DATA_CHUNKS + n))]
              == Progress(libs, src, b, n + 1)
  {
    hide Opening, FirstBatches, EncodePacket, DataPacket, BatchCount, TotalChunks;
    var first := b * BATCH_DATA_CHUNKS;
    assert DataDatagrams(libs, src, first, n + 1)
        == DataDatagrams(libs, src, first, n) + [EncodePacket(DataPacket(libs, src, first + n))];
  }

  lemma ProgressBatch(libs: Libraries, src: Source, b: nat)
    requires b < BatchCount(|src.data|)
    requires b * BATCH_DATA_CHUNKS + BatchDataSize(b, |src.data|) <= TotalChunks(|src.data|)
    requires (b + 1) * BATCH_DATA_CHUNKS <= TotalChunks(|src.data|)
    ensures Progress(libs, src, b, BatchDataSize(b, |src.data|)) + ParityDatagrams(libs, src, b)
              == Progress(libs, src, b + 1, 0)
  {
    hide Opening, ParityDatagrams, EncodePacket, DataPacket, BatchCount, TotalChunks, BatchDataSize;
  }

  lemma ProgressEnd(libs: Libraries, src: Source, b: nat, n: nat)
    requires b <= BatchCount(|src.data|) && b * BATCH_DATA_CHUNKS + n == TotalChunks(|src.data|)
    requires n < BATCH_DATA_CHUNKS
    ensures n == 0 ==> b == BatchCount(|src.data|)
    ensures n > 0 ==> b + 1 == BatchCount(|src.data|) && n == BatchDataSize(b, |src.data|)
    ensures Progress(libs, src, b, n) + (if n > 0 then ParityDatagrams(libs, src, b) else [])
              + Repeat(EncodePacket(EndPacket(libs, src)), CONTROL_RESEND) == SentFor(libs, src)
  {
    BatchSizes(b, |src.data|);
    if b > 0 {
      BatchSizes(b - 1, |src.data|);
    }
    hide Opening, ParityDatagrams, EncodePacket, DataPacket, EndPacket, BatchCount, TotalChunks, BatchDataSize, Repeat;
    if n == 0 {
      assert DataDatagrams(libs, src, b * BATCH_DATA_CHUNKS, 0) == [];
    }
  }

  /** One step of the sender's reading: the next chunk, or nothing at the end of the file. */
  method NextChunk(reader: Reader) returns (r: Result<Bytes, ReadOutcome>)
    requires reader.Valid()
    modifies reader
    ensures reader.Valid()
    ensures r.Ok? ==> reader.pos == Min(old(reader.pos) + CHUNK_SIZE, |reader.data|)
    ensures r.Ok? ==> r.value == reader.data[old(reader.pos)..reader.pos]
    ensures r.Ok? ==> NoneFailed(old(reader.plan), reader.plan)
    ensures r.Err? ==> LastFailed(old(reader.plan), reader.plan)
  {
    hide NoneFailed, LastFailed;
    var chunk := new Byte[CHUNK_SIZE](_ => 0);
    var n := ReadChunk(reader, chunk);
    if n.Err? {
      return Err(n.error);
    }
    r := Ok(chunk[..n.value]);
  }

  /** What is read after `count` chunks is chunk `count`, or nothing when that was the last. */
  lemma ReadIsChunk(data: Bytes, count: nat)
    requires count <= TotalChunks(|data|)
    ensures var from := Min(count * CHUNK_SIZE, |data|); var to := Min(from + CHUNK_SIZE, |data|);
            && (from == to <==> count == TotalChunks(|data|))
            && (count < TotalChunks(|data|) ==>
                  data[from..to] == Chunk(data, count) && to == Min((count + 1) * CHUNK_SIZE, |data|))
  {
  }

  /** A thousand chunks make a whole batch. */
  lemma BatchFull(b: nat, fileSize: nat)
    requires (b + 1) * BATCH_DATA_CHUNKS <= TotalChunks(fileSize)
    ensures b < BatchCount(fileSize) && BatchDataSize(b, fileSize) == BATCH_DATA_CHUNKS
  {
  }

  /** One chunk goes out and joins its batch. */
  method SendDataPacket(libs: Libraries, src: Source, link: Link, c: nat, chunk: Bytes, packetBuf: PacketBuffer)
    returns (ok: bool)
    requires link.Valid() && c < TotalChunks(|src.data|) && chunk == Chunk(src.data, c)
    modifies link, packetBuf
    ensures link.Valid()
    ensures link.tried == old(link.tried) + [EncodePacket(DataPacket(libs, src, c))]
    ensures link.taken == old(link.taken) + [ok]
  {
    var dataHash := libs.md5(chunk);
    packetBuf.EncodeInto(DATA, c, libs.md5(libs.utf8(src.path)), dataHash, chunk);
    ok := link.Send(packetBuf.bytes);
  }

  /** The parity of a whole batch goes out. */
  method SendBatchParity(
      libs: Libraries, src: Source, link: Link, b: nat, payloads: seq<Bytes>, packetBuf: PacketBuffer)
    requires b < BatchCount(|src.data|)
    requires b * BATCH_DATA_CHUNKS + BatchDataSize(b, |src.data|) <= TotalChunks(|src.data|)
    requires payloads == Chunks(src.data, b * BATCH_DATA_CHUNKS, BatchDataSize(b, |src.data|))
    requires link.Valid()
    modifies link, packetBuf
    ensures link.Valid() && old(link.taken) <= link.taken
    ensures link.tried == old(link.tried) + ParityDatagrams(libs, src, b)
    ensures forall start: nat :: ParityOnly(start, old(link.tried), old(link.taken)) ==>
              ParityOnly(start, link.tried, link.taken)
  {
    BatchSizes(b, |src.data|);
    ParityOfBatch(libs, src, b, payloads);
    hide ParityFor, ParityDatagrams, BatchDataSize, BatchCount, TotalChunks, ParityOnly;
    ghost var tried, taken := link.tried, link.taken;
    SendParityPackets(libs, link, PathHash(libs, src), payloads, BATCH_PARITY_CHUNKS, b, packetBuf);
    forall start: nat | ParityOnly(start, tried, taken) ensures ParityOnly(start, link.tried, link.taken) {
      ParityOnlyJoins(start, tried, taken, link.tried, link.taken);
    }
  }

  /** More batches begin with fewer. */
  lemma {:induction false} FirstBatchesGrow(libs: Libraries, src: Source, b: nat, m: nat)
    requires b <= m <= BatchCount(|src.data|)
    ensures FirstBatches(libs, src, b) <= FirstBatches(libs, src, m)
  {
    hide BatchDatagrams, BatchCount;
    if b < m {
      FirstBatchesGrow(libs, src, b, m - 1);
    }
  }

  lemma ChunksBeginBatch(libs: Libraries, src: Source, b: nat, n: nat)
    requires b < BatchCount(|src.data|) && b * BATCH_DATA_CHUNKS + n <= TotalChunks(|src.data|)
    requires n <= BATCH_DATA_CHUNKS
    ensures DataDatagrams(libs, src, b * BATCH_DATA_CHUNKS, n) <= BatchDatagrams(libs, src, b)
  {
    hide EncodePacket, DataPacket, ParityDatagrams, BatchCount;
    assert n <= BatchDataSize(b, |src.data|);
    hide BatchDataSize, TotalChunks;
  }

  /** Whatever has been tried so far is the beginning of what is to be sent. */
  lemma ProgressIsPrefix(libs: Libraries, src: Source, b: nat, n: nat)
    requires b <= BatchCount(|src.data|) && b * BATCH_DATA_CHUNKS + n <= TotalChunks(|src.data|)
    requires n <= BATCH_DATA_CHUNKS
    ensures Progress(libs, src, b, n) <= SentFor(libs, src)
  {
    hide Opening, EncodePacket, EndPacket, BatchDatagrams, DataDatagrams, Repeat, TotalChunks;
    var total := BatchCount(|src.data|);
    if b < total {
      ChunksBeginBatch(libs, src, b, n);
      FirstBatchesGrow(libs, src, b + 1, total);
      assert FirstBatches(libs, src, b) + DataDatagrams(libs, src, b * BATCH_DATA_CHUNKS, n)
          <= FirstBatches(libs, src, b + 1);
    } else {
      NothingAfterLastBatch(libs, src, b, n);
    }
    hide FirstBatches;
  }

  lemma NothingAfterLastBatch(libs: Libraries, src: Source, b: nat, n: nat)
    requires b == BatchCount(|src.data|) && b * BATCH_DATA_CHUNKS + n <= TotalChunks(|src.data|)
    ensures DataDatagrams(libs, src, b * BATCH_DATA_CHUNKS, n) == []
  {
    assert n == 0;
    hide EncodePacket, DataPacket;
  }

  lemma StartIsPrefix(libs: Libraries, src: Source, n: nat)
    requires n <= CONTROL_RESEND
    ensures Repeat(EncodePacket(StartPacket(libs, src)), n) <= SentFor(libs, src)
    ensures |Repeat(EncodePacket(StartPacket(libs, src)), n)| == n
  {
    hide EncodePacket, StartPacket, EndPacket, FirstBatches, BatchCount;
  }

  lemma EndIsPrefix(libs: Libraries, src: Source, body: seq<Bytes>, n: nat)
    requires body + Repeat(EncodePacket(EndPacket(libs, src)), CONTROL_RESEND) == SentFor(libs, src)
    requires n <= CONTROL_RESEND
    ensures body + Repeat(EncodePacket(EndPacket(libs, src)), n) <= SentFor(libs, src)
  {
    hide EncodePacket, EndPacket, SentFor;
    var raw := EncodePacket(EndPacket(libs, src));
    assert Repeat(raw, n) <= Repeat(raw, CONTROL_RESEND);
  }

  /** What can stop the sender. */
  datatype SendError = NoSize | NoFile | ReadFailed | SendFailed | NotRemoved

  /** What the file system does besides reading: tells the size, opens the file after START, removes it after END. */
  datatype FileAccess = FileAccess(sized: bool, opens: bool, removes: bool)

  /**
    The sender stopped early: from `start` on it tried only a beginning of `all`, and if a refusal stopped it,
    that was of the last datagram. Before that only parity packets were refused. If the file cannot be removed,
    all was sent; if it cannot be opened, only the STARTs were.
   */
  ghost predicate Stopped(
    error: SendError, all: seq<Bytes>, starts: nat, start: nat, tried: seq<Bytes>, taken: seq<bool>)
  {
    && start <= |tried| == |taken| && tried[start..] <= all
    && match error
       case NoSize => |tried| == start
       case NoFile => |tried| == start + starts && ParityOnly(start, tried, taken)
       case ReadFailed => ParityOnly(start, tried, taken)
       case SendFailed =>
         var last := |tried| - 1;
         start <= last && !taken[last] && ParityOnly(start, tried[..last], taken[..last])
       case NotRemoved => tried[start..] == all && ParityOnly(start, tried, taken)
  }

  lemma StoppedByRead(all: seq<Bytes>, before: seq<Bytes>, part: seq<Bytes>, taken: seq<bool>)
    requires part <= all && ParityOnly(|before|, before + part, taken)
    ensures Stopped(ReadFailed, all, CONTROL_RESEND, |before|, before + part, taken)
  {
    hide ParityOnly;
    assert (before + part)[|before|..] == part;
    assert |before + part| == |taken| by { Lengths(|before|, before + part, taken); }
  }

  lemma Lengths(start: nat, tried: seq<Bytes>, taken: seq<bool>)
    requires ParityOnly(start, tried, taken)
    ensures |tried| == |taken|
  {
  }

  /** The last of a few datagrams was refused, after a stretch in which only parity packets were. */
  lemma StoppedByRefusal(all: seq<Bytes>, before: seq<Bytes>, part: seq<Bytes>, taken: seq<bool>, more: seq<Bytes>)
    requires part + more <= all && more != [] && ParityOnly(|before|, before + part, taken)
    ensures Stopped(SendFailed, all, CONTROL_RESEND, |before|, before + part + more,
                    taken + Trues(|more| - 1) + [false])
  {
    hide IsParity;
    var tried, now := before + part + more, taken + Trues(|more| - 1) + [false];
    assert tried[|before|..] == part + more;
    assert tried[..|tried| - 1][..|before + part|] == before + part;
  }

  /** STARTs that were all taken. */
  lemma AfterStarts(before: seq<Bytes>, taken: seq<bool>, part: seq<Bytes>)
    requires |before| == |taken|
    ensures ParityOnly(|before|, before, taken)
    ensures part != [] ==> ParityOnly(|before|, before + part, taken + Trues(|part| - 1) + [true])
  {
  }

  /**
    `send_file_chunks`: however the reads are split or interrupted, what is tried is exactly the file's
    datagrams, and only parity packets may be refused. Anything else that fails stops the sender, and the file is
    removed only if nothing did.
  */
  method SendFileChunks(libs: Libraries, src: Source, reader: Reader, access: FileAccess, link: Link)
    returns (r: Result<nat, SendError>, removed: bool)
    requires reader.Valid() && reader.data == src.data && reader.pos == 0 && link.Valid()
    modifies reader, link
    ensures link.Valid()
    ensures r.Ok? ==> link.tried == old(link.tried) + SentFor(libs, src) && r.value == TotalChunks(|src.data|)
    ensures r.Ok? ==> ParityOnly(|old(link.tried)|, link.tried, link.taken)
    ensures r.Err? ==>
              Stopped(r.error, SentFor(libs, src), CONTROL_RESEND, |old(link.tried)|, link.tried, link.taken)
    ensures r == Err(ReadFailed) ==> LastFailed(old(reader.plan), reader.plan)
    ensures r != Err(ReadFailed) ==> NoneFailed(old(reader.plan), reader.plan)
    ensures r == Err(NoSize) <==> !access.sized
    ensures r == Err(NoFile) ==> !access.opens
    ensures r == Err(NotRemoved) ==> !access.removes
    ensures r.Ok? ==> access == FileAccess(true, true, true)
    ensures removed <==> r.Ok?
  {
    hide Progress, SentFor, EncodePacket, EndPacket, BatchDatagrams, ParityDatagrams, DataPacket, StartPacket,
      FirstBatches, TotalChunks, BatchCount, BatchDataSize, Chunk, Repeat, IsParity, ParityOnly, Stopped, Trues,
      NoneFailed, LastFailed;
    ghost var all, before, takenBefore := SentFor(libs, src), link.tried, link.taken;
    NothingRead(reader.plan);
    if !access.sized {
      NothingTried(all, before, takenBefore);
      return Err(NoSize), false;
    }
    var startRaw := EncodePacket(StartPacket(libs, src));
    var ok, n := SendWithRetry(link, startRaw, CONTROL_RESEND);
    AfterStarts(before, takenBefore, Repeat(startRaw, n));
    StartIsPrefix(libs, src, n);
    if !ok {
      assert [] + Repeat(startRaw, n) == Repeat(startRaw, n) && before + [] == before;
      StoppedByRefusal(all, before, [], takenBefore, Repeat(startRaw, n));
      return Err(SendFailed), false;
    }
    if !access.opens {
      OnlyStarts(all, before, Repeat(startRaw, n), link.taken);
      return Err(NoFile), false;
    }
    ProgressStart(libs, src);
    r := SendBody(libs, src, reader, link, before);
    removed := false;
    if r.Err? {
      return;
    }
    ghost var body, takenBody := link.tried[|before|..], link.taken;
    assert before + body == link.tried;
    var endRaw := EncodePacket(EndPacket(libs, src));
    ok, n := SendWithRetry(link, endRaw, CONTROL_RESEND);
    EndIsPrefix(libs, src, body, n);
    if !ok {
      StoppedByRefusal(all, before, body, takenBody, Repeat(endRaw, n));
      return Err(SendFailed), false;
    }
    AllTaken(before, body, takenBody, Repeat(endRaw, n));
    if !access.removes {
      AllSent(all, before, link.tried, link.taken);
      return Err(NotRemoved), false;
    }
    removed := true;
  }

  lemma NothingTried(all: seq<Bytes>, before: seq<Bytes>, taken: seq<bool>)
    requires |before| == |taken|
    ensures Stopped(NoSize, all, CONTROL_RESEND, |before|, before, taken)
  {
    assert before[|before|..] == [];
  }

  lemma OnlyStarts(all: seq<Bytes>, before: seq<Bytes>, starts: seq<Bytes>, taken: seq<bool>)
    requires starts <= all && |starts| == CONTROL_RESEND && ParityOnly(|before|, before + starts, taken)
    ensures Stopped(NoFile, all, CONTROL_RESEND, |before|, before + starts, taken)
  {
    hide IsParity;
    assert (before + starts)[|before|..] == starts;
  }

  lemma AllSent(all: seq<Bytes>, before: seq<Bytes>, tried: seq<Bytes>, taken: seq<bool>)
    requires tried == before + all && ParityOnly(|before|, tried, taken)
    ensures Stopped(NotRemoved, all, CONTROL_RESEND, |before|, tried, taken)
  {
    hide IsParity;
    assert tried[|before|..] == all;
  }

  /** More datagrams, all of them taken. */
  lemma AllTaken(before: seq<Bytes>, body: seq<Bytes>, taken: seq<bool>, part: seq<Bytes>)
    requires part != [] && ParityOnly(|before|, before + body, taken)
    ensures ParityOnly(|before|, before + body + part, taken + Trues(|part| - 1) + [true])
  {
    hide IsParity;
  }

  /** The loop over the chunks, and the parity of the last batch. */
  method SendBody(libs: Libraries, src: Source, reader: Reader, link: Link, ghost before: seq<Bytes>)
    returns (r: Result<nat, SendError>)
    requires reader.Valid() && reader.data == src.data && reader.pos == 0 && link.Valid()
    requires link.tried == before + Progress(libs, src, 0, 0) && ParityOnly(|before|, link.tried, link.taken)
    modifies reader, link
    ensures link.Valid()
    ensures r.Ok? ==> before <= link.tried && r.value == TotalChunks(|src.data|)
    ensures r.Ok? ==>
              link.tried[|before|..] + Repeat(EncodePacket(EndPacket(libs, src)), CONTROL_RESEND) == SentFor(libs, src)
    ensures r.Ok? ==> ParityOnly(|before|, link.tried, link.taken)
    ensures r.Err? ==> Stopped(r.error, SentFor(libs, src), CONTROL_RESEND, |before|, link.tried, link.taken)
    ensures r.Err? ==> r.error == SendFailed || r.error == ReadFailed
    ensures r == Err(ReadFailed) ==> LastFailed(old(reader.plan), reader.plan)
    ensures r != Err(ReadFailed) ==> NoneFailed(old(reader.plan), reader.plan)
  {
    hide Progress, SentFor, EncodePacket, EndPacket, BatchDatagrams, ParityDatagrams, DataPacket, StartPacket,
      FirstBatches, TotalChunks, BatchCount, BatchDataSize, Chunk, Repeat, IsParity, ParityOnly, Stopped, Trues,
      NoneFailed, LastFailed;
    ghost var size, total := |src.data|, TotalChunks(|src.data|);
    NothingRead(reader.plan);
    var count: nat, batchIdx: nat := 0, 0;
    var packetBuf := new PacketBuffer();
    var batchPayloads: seq<Bytes> := [];
    while true
      invariant reader.Valid() && link.Valid() && fresh(packetBuf) && reader.pos == Min(count * CHUNK_SIZE, size)
      invariant NoneFailed(old(reader.plan), reader.plan)
      invariant count == batchIdx * BATCH_DATA_CHUNKS + |batchPayloads| <= total && |batchPayloads| < BATCH_DATA_CHUNKS
      invariant batchIdx <= BatchCount(size)
      invariant batchPayloads == Chunks(src.data, batchIdx * BATCH_DATA_CHUNKS, |batchPayloads|)
      invariant link.tried == before + Progress(libs, src, batchIdx, |batchPayloads|)
      invariant ParityOnly(|before|, link.tried, link.taken)
      decreases total - count
    {
      ReadIsChunk(src.data, count);
      ghost var plan := reader.plan;
      var chunk := NextChunk(reader);
      ReadsJoin(old(reader.plan), plan, reader.plan);
      if chunk.Err? {
        ProgressIsPrefix(libs, src, batchIdx, |batchPayloads|);
        StoppedByRead(SentFor(libs, src), before, Progress(libs, src, batchIdx, |batchPayloads|), link.taken);
        return Err(ReadFailed);
      }
      if |chunk.value| == 0 {
        break;
      }
      var ok := SendChunk(libs, src, link, before, batchIdx, batchPayloads, chunk.value, packetBuf);
      if !ok {
        return Err(SendFailed);
      }
      batchPayloads := batchPayloads + [chunk.value];
      count := count + 1;
      if |batchPayloads| == BATCH_DATA_CHUNKS {
        CloseBatch(libs, src, link, before, batchIdx, batchPayloads, packetBuf);
        batchPayloads := [];
        batchIdx := batchIdx + 1;
      }
    }
    assert count == total;
    ProgressEnd(libs, src, batchIdx, |batchPayloads|);
    if batchPayloads != [] {
      SendBatchParity(libs, src, link, batchIdx, batchPayloads, packetBuf);
    }
    r := Ok(count);
  }

  /** A thousand chunks are out: their parity follows, and the next batch begins. */
  method CloseBatch(libs: Libraries, src: Source, link: Link, ghost before: seq<Bytes>, b: nat, payloads: seq<Bytes>,
                    packetBuf: PacketBuffer)
    requires link.Valid() && |payloads| == BATCH_DATA_CHUNKS && (b + 1) * BATCH_DATA_CHUNKS <= TotalChunks(|src.data|)
    requires payloads == Chunks(src.data, b * BATCH_DATA_CHUNKS, BATCH_DATA_CHUNKS) && b <= BatchCount(|src.data|)
    requires link.tried == before + Progress(libs, src, b, BATCH_DATA_CHUNKS)
    requires ParityOnly(|before|, link.tried, link.taken)
    modifies link, packetBuf
    ensures link.Valid() && b + 1 <= BatchCount(|src.data|)
    ensures link.tried == before + Progress(libs, src, b + 1, 0) && ParityOnly(|before|, link.tried, link.taken)
  {
    hide Progress, ParityDatagrams, TotalChunks, BatchCount, BatchDataSize, ParityOnly, Chunks;
    BatchFull(b, |src.data|);
    ProgressBatch(libs, src, b);
    SendBatchParity(libs, src, link, b, payloads, packetBuf);
  }

  /** The next chunk of a batch goes out, or its refusal stops the sender. */
  method SendChunk(libs: Libraries, src: Source, link: Link, ghost before: seq<Bytes>, b: nat, payloads: seq<Bytes>,
                   chunk: Bytes, packetBuf: PacketBuffer)
    returns (ok: bool)
    requires link.Valid() && b <= BatchCount(|src.data|) && |payloads| < BATCH_DATA_CHUNKS
    requires b * BATCH_DATA_CHUNKS + |payloads| < TotalChunks(|src.data|)
    requires chunk == Chunk(src.data, b * BATCH_DATA_CHUNKS + |payloads|)
    requires link.tried == before + Progress(libs, src, b, |payloads|) && ParityOnly(|before|, link.tried, link.taken)
    modifies link, packetBuf
    ensures link.Valid() && link.tried == before + Progress(libs, src, b, |payloads| + 1)
    ensures ok ==> ParityOnly(|before|, link.tried, link.taken)
    ensures !ok ==> Stopped(SendFailed, SentFor(libs, src), CONTROL_RESEND, |before|, link.tried, link.taken)
  {
    hide Progress, SentFor, EncodePacket, DataPacket, TotalChunks, BatchCount, Chunk, ParityOnly, Stopped;
    var c := b * BATCH_DATA_CHUNKS + |payloads|;
    ghost var part, taken := Progress(libs, src, b, |payloads|), link.taken;
    ProgressChunk(libs, src, b, |payloads|);
    ProgressIsPrefix(libs, src, b, |payloads| + 1);
    ok := SendDataPacket(libs, src, link, c, chunk, packetBuf);
    ghost var more := [EncodePacket(DataPacket(libs, src, c))];
    assert taken + Trues(0) == taken;
    if ok {
      AllTaken(before, part, taken, more);
    } else {
      StoppedByRefusal(SentFor(libs, src), before, part, taken, more);
    }
  }

  lemma ProgressStart(libs: Libraries, src: Source)
    ensures Progress(libs, src, 0, 0) == Opening(libs, src)
  {
    assert DataDatagrams(libs, src, 0, 0) == [];
  }

  // ---- Where every datagram stands ----

  lemma BatchPlaces(libs: Libraries, src: Source, b: nat)
    requires Reliable(libs) && b < BatchCount(|src.data|)
    ensures |BatchDatagrams(libs, src, b)| == BatchDataSize(b, |src.data|) + 100
    ensures forall i :: 0 <= i < BatchDataSize(b, |src.data|) ==>
              && b * 1000 + i < TotalChunks(|src.data|)
              && BatchDatagrams(libs, src, b)[i] == EncodePacket(DataPacket(libs, src, b * 1000 + i))
    ensures forall i :: 0 <= i < 100 ==>
              && i < |ParityShards(libs, src.data, b)|
              && BatchDatagrams(libs, src, b)[BatchDataSize(b, |src.data|) + i]
                   == EncodePacket(ParityPacket(libs, src, b, i))
  {
    hide Reliable, EncodePacket, DataPacket, ParityPacket, ParityShards, BatchCount;
    ParityShardsComplete(libs, src.data, b);
    BatchSizes(b, |src.data|);
  }

  lemma {:induction false} FirstBatchesPlaces(libs: Libraries, src: Source, n: nat, b: nat)
    requires Reliable(libs) && b < n <= BatchCount(|src.data|)
    ensures |FirstBatches(libs, src, n)| == (n - 1) * 1100 + BatchDataSize(n - 1, |src.data|) + 100
    ensures b * 1100 + |BatchDatagrams(libs, src, b)| <= |FirstBatches(libs, src, n)|
    ensures FirstBatches(libs, src, n)[b * 1100..b * 1100 + |BatchDatagrams(libs, src, b)|] ==
            BatchDatagrams(libs, src, b)
  {
    hide Reliable, BatchDatagrams, BatchDataSize, BatchCount;
    BatchPlaces(libs, src, n - 1);
    if n > 1 {
      BatchSizes(n - 2, |src.data|);
      FirstBatchesPlaces(libs, src, n - 1, if b < n - 1 then b else 0);
    }
  }

  /**
    The layout of a transfer: three STARTs, then batch by batch its chunks, each once and in order, and its hundred
    parity packets (as `BatchPlaces` says), then three ENDs.
  */
  lemma SentInPlaces(libs: Libraries, src: Source, b: nat)
    requires Reliable(libs) && b < BatchCount(|src.data|)
    ensures var sent := SentFor(libs, src); var start, end := StartPacket(libs, src), EndPacket(libs, src);
            var at := 3 + b * 1100; var size := BatchDataSize(b, |src.data|) + 100;
            && |sent| == 6 + TotalChunks(|src.data|) + 100 * BatchCount(|src.data|)
            && at + size <= |sent| - 3 && sent[at..at + size] == BatchDatagrams(libs, src, b)
            && sent[..3] == [EncodePacket(start), EncodePacket(start), EncodePacket(start)]
            && sent[|sent| - 3..] == [EncodePacket(end), EncodePacket(end), EncodePacket(end)]
  {
    hide Reliable, EncodePacket, BatchDataSize, BatchDatagrams, TotalChunks, BatchCount, StartPacket, EndPacket,
      FirstBatches;
    var total, size := BatchCount(|src.data|), BatchDataSize(b, |src.data|) + 100;
    FirstBatchesPlaces(libs, src, total, b);
    BatchPlaces(libs, src, b);
    BatchSizes(total - 1, |src.data|);
    var first, sent := FirstBatches(libs, src, total), SentFor(libs, src);
    assert sent[3..3 + |first|] == first;
    assert sent[3 + b * 1100..3 + b * 1100 + size] == sent[3..3 + |first|][b * 1100..b * 1100 + size];
  }
}
