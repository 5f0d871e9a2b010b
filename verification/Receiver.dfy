/**
  What the receiver's worker thread does, as functions from one state to the next
  (`diode_receive/src/main.rs`). The classes of `ReceiverObjects` change their fields in place and are
  verified against these functions; the theorems about whole runs are proved about them.
 */
module Receiver {
  import opened Basics
  import opened Batches
  import opened Wire
  import opened Erasure

  const BUFFER_BYTE_LIMIT: nat := 8 * 1024 * 1024

  /** The output directory: file names and contents. */
  type Files = map<string, Bytes>

  /** `output` names the file the open handle writes to. */
  datatype State = State(
    bytesTransferred: nat,
    filePath: Option<string>,
    fileSize: nat,
    parityPerBatch: nat,
    pathHash: Option<Field>,
    currentBatch: nat,
    dataBuffer: map<nat, Bytes>,
    parityBuffer: map<nat, Bytes>,
    bytesBuffered: nat,
    failed: bool,
    output: Option<string>)

  const FRESH: State := State(0, None, 0, 0, None, 0, map[], map[], 0, false, None)

  datatype Stats = Stats(filesTransferred: nat, filesFailed: nat, totalTransferred: nat)

  datatype World = World(state: State, stats: Stats, files: Files)

  /** How opening the output file ends. `NotSized`: the file was created but `set_len` failed. */
  datatype OpenOutcome = Opened | NotOpened | NotSized

  /** The write of chunk `chunk` of the file fails, after `kept` of its bytes (or before them, if seeking fails). */
  datatype BadWrite = BadWrite(chunk: nat, kept: nat)

  /**
    The outcomes the file system may choose while one datagram is handled. One bad write is all there can be:
    it ends the handling of the batch.
   */
  datatype Io = Io(open: OpenOutcome, renames: bool, badWrite: Option<BadWrite>)

  /** A datagram as it arrives, with the file system's choices for it. */
  datatype Arrival = Arrival(raw: Bytes, io: Io)

  // ---- Files ----

  function Partial(path: string): string {
    path + ".partial"
  }

  function FailedMarker(path: string): string {
    path + ".failed"
  }

  /** Writing at a position replaces what is there and extends the file with zeros where needed. */
  function WriteAt(content: Bytes, pos: nat, data: Bytes): Bytes {
    var end := pos + |data|;
    var wide := if |content| < end then content + Zeros(end - |content|) else content;
    wide[..pos] + data + wide[end..]
  }

  function MarkFailure(files: Files, path: string): Files {
    var rest := files - {path};
    if FailedMarker(path) in rest then rest else rest[FailedMarker(path) := []]
  }

  // ---- Buffering ----

  predicate IsChunkValid(libs: Libraries, p: Packet, s: State, pkgType: nat) {
    && (s.pathHash.Some? ==> p.pathHash == s.pathHash.value)
    && (pkgType == DATA ==> 1 <= |p.data| <= CHUNK_SIZE)
    && (pkgType == PARITY ==> |p.data| == SHARD_SIZE)
    && libs.md5(p.data) == p.dataHash
  }

  function BufferData(s: State, stats: Stats, p: Packet): (State, Stats) {
    if p.count in s.dataBuffer then (s, stats)
    else if SaturatingAdd(s.bytesBuffered, |p.data|) > BUFFER_BYTE_LIMIT then (s.(failed := true), stats)
    else
      (s.(bytesBuffered := SaturatingAdd(s.bytesBuffered, |p.data|),
          bytesTransferred := SaturatingAdd(s.bytesTransferred, |p.data|),
          dataBuffer := s.dataBuffer[p.count := p.data]),
       stats.(totalTransferred := SaturatingAdd(stats.totalTransferred, |p.data|)))
  }

  function BufferParity(s: State, p: Packet, idxInBatch: nat): State {
    if idxInBatch in s.parityBuffer then s
    else if SaturatingAdd(s.bytesBuffered, |p.data|) > BUFFER_BYTE_LIMIT then s.(failed := true)
    else
      s.(bytesBuffered := SaturatingAdd(s.bytesBuffered, |p.data|),
         parityBuffer := s.parityBuffer[idxInBatch := p.data])
  }

  // ---- Rebuilding and writing a batch ----

  function BatchStart(s: State): nat {
    s.currentBatch * BATCH_DATA_CHUNKS
  }

  function CurrentDataSize(s: State): nat {
    BatchDataSize(s.currentBatch, s.fileSize)
  }

  /** Chunk `i` of the batch that starts at chunk `start` is in the buffer. */
  predicate Arrived(dataBuffer: map<nat, Bytes>, start: nat, i: nat) {
    start + i in dataBuffer
  }

  /** The buffered chunks as the decoder gets them: padded, by index in the batch. */
  function Originals(dataBuffer: map<nat, Bytes>, start: nat, dataSize: nat): map<nat, Bytes> {
    map i: nat | 0 <= i < dataSize && Arrived(dataBuffer, start, i) :: Pad(dataBuffer[start + i])
  }

  function Recovery(parityBuffer: map<nat, Bytes>, parityPerBatch: nat): map<nat, Bytes> {
    map i | i in parityBuffer && i < parityPerBatch && |parityBuffer[i]| >= SHARD_SIZE
      :: parityBuffer[i][..SHARD_SIZE]
  }

  /** The shards the decoder gives back; none are asked for when every chunk arrived. */
  function Restored(libs: Libraries, s: State): Option<map<nat, Bytes>> {
    var dataSize := CurrentDataSize(s);
    if |s.dataBuffer| >= dataSize then Some(map[])
    else if s.parityPerBatch == 0 then None
    else if |s.dataBuffer| + |s.parityBuffer| < dataSize then None
    else libs.decode(dataSize, s.parityPerBatch, Originals(s.dataBuffer, BatchStart(s), dataSize),
                     Recovery(s.parityBuffer, s.parityPerBatch))
  }

  /** What is written for chunk `i` of the batch, unless it is missing or too short. */
  function ChunkToWrite(s: State, restored: map<nat, Bytes>, i: nat): Option<Bytes> {
    var abs := BatchStart(s) + i;
    var len := ExpectedLen(abs, s.fileSize);
    if abs in s.dataBuffer then
      if |s.dataBuffer[abs]| < len then None else Some(s.dataBuffer[abs][..len])
    else if i in restored then
      if |restored[i]| < len then None else Some(restored[i][..len])
    else None
  }

  predicate Fails(bad: Option<BadWrite>, chunk: nat) {
    bad.Some? && bad.value.chunk == chunk
  }

  /** Chunks `i..` of the batch written one after another from `pos`; stops at the first that cannot be. */
  function WriteChunks(
      s: State, restored: map<nat, Bytes>, content: Bytes, pos: nat, i: nat, bad: Option<BadWrite>): (bool, Bytes)
    decreases CurrentDataSize(s) - i
  {
    if i >= CurrentDataSize(s) then (true, content) else
      var chunk := ChunkToWrite(s, restored, i);
      if chunk.None? then (false, content)
      else if Fails(bad, BatchStart(s) + i) then
        (false, WriteAt(content, pos, chunk.value[..Min(bad.value.kept, |chunk.value|)]))
      else WriteChunks(s, restored, WriteAt(content, pos, chunk.value), pos + |chunk.value|, i + 1, bad)
  }

  function ClearBuffers(s: State): State {
    s.(dataBuffer := map[], parityBuffer := map[], bytesBuffered := 0)
  }

  /** What the open handle sees, and the directory after the handle's file gets new content. */
  function Content(files: Files, name: string): Bytes {
    if name in files then files[name] else []
  }

  function SetContent(files: Files, name: string, content: Bytes): Files {
    if name in files then files[name := content] else files
  }

  datatype Finalized = Finalized(ok: bool, state: State, files: Files)

  function FinalizeCurrentBatch(libs: Libraries, s: State, files: Files, bad: Option<BadWrite>): Finalized {
    if CurrentDataSize(s) == 0 then Finalized(true, ClearBuffers(s), files) else
      var restored := Restored(libs, s);
      if restored.None? || s.output.None? then Finalized(false, s, files) else
        var (ok, content) :=
          WriteChunks(s, restored.value, Content(files, s.output.value), BatchStart(s) * CHUNK_SIZE, 0, bad);
        Finalized(ok, if ok then ClearBuffers(s) else s, SetContent(files, s.output.value, content))
  }

  function AdvanceToBatch(libs: Libraries, s: State, files: Files, target: nat, bad: Option<BadWrite>): (State, Files)
    decreases target - s.currentBatch
  {
    if s.failed || s.currentBatch >= target then (s, files) else
      var done := FinalizeCurrentBatch(libs, s, files, bad);
      if !done.ok then (done.state.(failed := true), done.files)
      else AdvanceToBatch(libs, done.state.(currentBatch := s.currentBatch + 1), done.files, target, bad)
  }

  // ---- Starting and ending a transfer ----

  function ResetTransfer(s: State, stats: Stats, success: bool): (State, Stats) {
    (FRESH,
     if s.filePath.None? then stats
     else if success then stats.(filesTransferred := stats.filesTransferred + 1)
     else stats.(filesFailed := stats.filesFailed + 1))
  }

  /** The in-flight transfer is given up: its partial file goes and a failure marker appears. */
  function Abandon(w: World, path: string): World {
    var (state, stats) := ResetTransfer(w.state, w.stats, false);
    World(state, stats, MarkFailure(w.files - {Partial(path)}, path))
  }

  predicate AcceptsPath(libs: Libraries, path: string) {
    libs.safePath(path) && '\0' !in path
  }

  function CountFailed(stats: Stats): Stats {
    stats.(filesFailed := stats.filesFailed + 1)
  }

  /** A START once no other transfer is in flight. */
  function OpenTransfer(libs: Libraries, w: World, path: string, size: nat, pathHash: Field, parity: nat, io: Io)
    : World
  {
    if !AcceptsPath(libs, path) then
      var (state, stats) := ResetTransfer(w.state, CountFailed(w.stats), false);
      World(state, stats, w.files)
    else
      var cleared := w.files - {path, Partial(path), FailedMarker(path)};
      if io.open == NotOpened then
        World(w.state, CountFailed(w.stats), MarkFailure(cleared, path))
      else if io.open == NotSized && size > 0 then
        World(w.state, CountFailed(w.stats), MarkFailure(cleared[Partial(path) := []], path))
      else
        World(
          w.state.(filePath := Some(path), pathHash := Some(pathHash), fileSize := size, parityPerBatch := parity,
                   currentBatch := 0, output := Some(Partial(path))),
          w.stats,
          cleared[Partial(path) := Zeros(size)])
  }

  function NewFile(libs: Libraries, w: World, path: string, size: nat, pathHash: Field, parity: nat, io: Io): World {
    if w.state.filePath == Some(path) then w
    else OpenTransfer(libs, if w.state.filePath.Some? then Abandon(w, w.state.filePath.value) else w,
                      path, size, pathHash, parity, io)
  }

  /** The rename that publishes a file, or the failure marker. */
  function Conclude(done: Finalized, stats: Stats, path: string, io: Io): World {
    if !done.ok || !io.renames || Partial(path) !in done.files then
      Abandon(World(done.state, stats, done.files), path)
    else
      var (state, stats) := ResetTransfer(done.state, stats, true);
      var renamed := (done.files - {Partial(path)})[path := done.files[Partial(path)]];
      World(state, stats, renamed - {FailedMarker(path)})
  }

  function FinishFile(libs: Libraries, w: World, io: Io): World {
    if w.state.filePath.None? then w else
      var path := w.state.filePath.value;
      var done := if w.state.failed then Finalized(false, w.state, w.files)
                  else FinalizeCurrentBatch(libs, w.state, w.files, io.badWrite);
      Conclude(done, w.stats, path, io)
  }

  // ---- The worker ----

  function ReceiveData(libs: Libraries, w: World, p: Packet, bad: Option<BadWrite>): World {
    if w.state.failed || !IsChunkValid(libs, p, w.state, DATA) then w else
      var batch := BatchForData(p.count);
      var (s, files) := AdvanceToBatch(libs, w.state, w.files, batch, bad);
      if s.failed || batch != s.currentBatch then World(s, w.stats, files) else
        var (s', stats) := BufferData(s, w.stats, p);
        World(s', stats, files)
  }

  function ReceiveParity(libs: Libraries, w: World, p: Packet, bad: Option<BadWrite>): World {
    if w.state.failed || !IsChunkValid(libs, p, w.state, PARITY) then w else
      var batch := BatchForParity(p.count);
      var (s, files) := AdvanceToBatch(libs, w.state, w.files, batch, bad);
      if s.failed || batch != s.currentBatch then World(s, w.stats, files)
      else World(BufferParity(s, p, p.count % BATCH_PARITY_CHUNKS), w.stats, files)
  }

  function Dispatch(libs: Libraries, w: World, p: Packet, io: Io): World {
    if p.pkgType == START then
      var parity := DecodeParityField(p.dataHash);
      NewFile(libs, w, libs.lossyUtf8(p.data), p.count, p.pathHash,
              if parity.Some? then parity.value else 0, io)
    else if p.pkgType == DATA && w.state.filePath.Some? then ReceiveData(libs, w, p, io.badWrite)
    else if p.pkgType == PARITY && w.state.filePath.Some? then ReceiveParity(libs, w, p, io.badWrite)
    else if p.pkgType == END && w.state.filePath.Some? then FinishFile(libs, w, io)
    else if p.pkgType == UDP && libs.udpForwarding then
      w.(stats := w.stats.(totalTransferred := w.stats.totalTransferred + |p.data|))
    else w
  }

  function Receive(libs: Libraries, w: World, a: Arrival): World {
    var p := Decode(a.raw);
    if p.None? then w else Dispatch(libs, w, p.value, a.io)
  }

  function Run(libs: Libraries, w: World, arrivals: seq<Arrival>): World
    decreases |arrivals|
  {
    if arrivals == [] then w else Run(libs, Receive(libs, w, arrivals[0]), arrivals[1..])
  }

  /** Handling one list of datagrams after another is handling their concatenation. */
  lemma {:induction false} RunConcat(libs: Libraries, w: World, a: seq<Arrival>, b: seq<Arrival>)
    ensures Run(libs, w, a + b) == Run(libs, Run(libs, w, a), b)
    decreases |a|
  {
    if a == [] {
      assert a + b == b;
    } else {
      assert (a + b)[1..] == a[1..] + b;
      RunConcat(libs, Receive(libs, w, a[0]), a[1..], b);
    }
  }
}
