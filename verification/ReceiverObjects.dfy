/**
  The receiver as the program has it: a transfer record, counters and a directory that the handlers change
  in place. Every handler is verified against the function of `Receiver` with the same name.
 */
module ReceiverObjects {
  import opened Basics
  import opened Batches
  import opened Wire
  import opened Erasure
  import opened Accounting
  import R = Receiver

  class ReceiveState {
    var bytesTransferred: nat
    var filePath: Option<string>
    var fileSize: nat
    var parityPerBatch: nat
    var pathHash: Option<Field>
    var currentBatch: nat
    var dataBuffer: map<nat, Bytes>
    var parityBuffer: map<nat, Bytes>
    var bytesBuffered: nat
    var failed: bool
    var output: Option<string>

    ghost function Value(): R.State
      reads this
    {
      R.State(bytesTransferred, filePath, fileSize, parityPerBatch, pathHash, currentBatch, dataBuffer,
              parityBuffer, bytesBuffered, failed, output)
    }

    constructor ()
      ensures Value() == R.FRESH
    {
      bytesTransferred, filePath, fileSize, parityPerBatch, pathHash := 0, None, 0, 0, None;
      currentBatch, dataBuffer, parityBuffer, bytesBuffered := 0, map[], map[], 0;
      failed, output := false, None;
    }

    method BecomeNew()
      modifies this
      ensures Value() == R.FRESH
    {
      bytesTransferred, filePath, fileSize, parityPerBatch, pathHash := 0, None, 0, 0, None;
      currentBatch, dataBuffer, parityBuffer, bytesBuffered := 0, map[], map[], 0;
      failed, output := false, None;
    }

    method Begin(path: string, size: nat, hash: Field, parity: nat)
      modifies this
      ensures Value() == old(Value()).(filePath := Some(path), pathHash := Some(hash), fileSize := size,
                                       parityPerBatch := parity, currentBatch := 0, output := Some(R.Partial(path)))
    {
      filePath := Some(path);
      pathHash := Some(hash);
      fileSize := size;
      parityPerBatch := parity;
      currentBatch := 0;
      output := Some(R.Partial(path));
    }
  }

  class Counters {
    var filesTransferred: nat
    var filesFailed: nat
    var totalTransferred: nat

    ghost function Value(): R.Stats
      reads this
    {
      R.Stats(filesTransferred, filesFailed, totalTransferred)
    }

    constructor ()
      ensures Value() == R.Stats(0, 0, 0)
    {
      filesTransferred, filesFailed, totalTransferred := 0, 0, 0;
    }
  }

  class OutputDir {
    var files: R.Files

    constructor (files: R.Files)
      ensures this.files == files
    {
      this.files := files;
    }

    method Remove(name: string)
      modifies this
      ensures files == old(files) - {name}
    {
      files := files - {name};
    }

    /** Whatever an earlier transfer of the same path left behind. */
    method RemoveAll(path: string)
      modifies this
      ensures files == old(files) - {path, R.Partial(path), R.FailedMarker(path)}
    {
      Remove(path);
      Remove(R.Partial(path));
      Remove(R.FailedMarker(path));
    }

    /** Create or keep: opening without truncation leaves an existing file alone. */
    method Touch(name: string)
      modifies this
      ensures files == if name in old(files) then old(files) else old(files)[name := []]
    {
      if name !in files {
        files := files[name := []];
      }
    }

    /**
      A write through a handle at `pos`, of which only the first bytes are kept if it fails. A file that lost its
      name is not in the directory any more.
     */
    method Write(name: string, pos: nat, data: Bytes, kept: Option<nat>) returns (ok: bool)
      modifies this
      ensures ok == kept.None?
      ensures var written := if ok then data else data[..Min(kept.value, |data|)];
              files == R.SetContent(old(files), name, R.WriteAt(R.Content(old(files), name), pos, written))
    {
      ok := kept.None?;
      var written := if ok then data else data[..Min(kept.value, |data|)];
      if name in files {
        files := files[name := R.WriteAt(files[name], pos, written)];
      }
    }

    method OpenOutput(path: string, size: nat, outcome: R.OpenOutcome) returns (ok: bool)
      modifies this
      ensures ok == (outcome == R.Opened || (outcome == R.NotSized && size == 0))
      ensures files == if outcome == R.NotOpened then old(files)
                       else old(files)[R.Partial(path) := if ok then Zeros(size) else []]
    {
      if outcome == R.NotOpened {
        return false;
      }
      files := files[R.Partial(path) := []];
      if size > 0 {
        if outcome == R.NotSized {
          return false;
        }
        files := files[R.Partial(path) := Zeros(size)];
      }
      ok := true;
      assert size == 0 ==> Zeros(size) == [];
    }

    method Rename(from: string, to: string, allowed: bool) returns (ok: bool)
      modifies this
      ensures ok == (allowed && from in old(files))
      ensures files == if ok then (old(files) - {from})[to := old(files)[from]] else old(files)
    {
      ok := allowed && from in files;
      if ok {
        var content := files[from];
        files := files - {from};
        files := files[to := content];
      }
    }

    method MarkFailure(path: string)
      modifies this
      ensures files == R.MarkFailure(old(files), path)
    {
      Remove(path);
      Touch(R.FailedMarker(path));
    }
  }

  ghost function WorldOf(state: ReceiveState, stats: Counters, dir: OutputDir): R.World
    reads state, stats, dir
  {
    R.World(state.Value(), stats.Value(), dir.files)
  }

  method IsChunkValid(libs: Libraries, p: Packet, state: ReceiveState, pkgType: nat) returns (ok: bool)
    ensures ok == R.IsChunkValid(libs, p, state.Value(), pkgType)
  {
    if state.pathHash.Some? && p.pathHash != state.pathHash.value {
      return false;
    }
    if pkgType == DATA && !(1 <= |p.data| <= CHUNK_SIZE) {
      return false;
    }
    if pkgType == PARITY && |p.data| != SHARD_SIZE {
      return false;
    }
    var expected := libs.md5(p.data);
    return expected == p.dataHash;
  }

  method BufferData(state: ReceiveState, stats: Counters, p: Packet)
    modifies state, stats
    ensures (state.Value(), stats.Value()) == R.BufferData(old(state.Value()), old(stats.Value()), p)
  {
    if p.count in state.dataBuffer {
      return;
    }
    if SaturatingAdd(state.bytesBuffered, |p.data|) > R.BUFFER_BYTE_LIMIT {
      state.failed := true;
      return;
    }
    state.bytesBuffered := SaturatingAdd(state.bytesBuffered, |p.data|);
    state.bytesTransferred := SaturatingAdd(state.bytesTransferred, |p.data|);
    stats.totalTransferred := SaturatingAdd(stats.totalTransferred, |p.data|);
    state.dataBuffer := state.dataBuffer[p.count := p.data];
  }

  method BufferParity(state: ReceiveState, p: Packet, idxInBatch: nat)
    modifies state
    ensures state.Value() == R.BufferParity(old(state.Value()), p, idxInBatch)
  {
    if idxInBatch in state.parityBuffer {
      return;
    }
    if SaturatingAdd(state.bytesBuffered, |p.data|) > R.BUFFER_BYTE_LIMIT {
      state.failed := true;
      return;
    }
    state.bytesBuffered := SaturatingAdd(state.bytesBuffered, |p.data|);
    state.parityBuffer := state.parityBuffer[idxInBatch := p.data];
  }

  /** The shards the decoder is given for the buffered chunks, in whatever order the buffer is walked. */
  method CollectOriginals(dataBuffer: map<nat, Bytes>, batchStartChunk: nat, dataSize: nat)
    returns (originals: map<nat, Bytes>)
    requires forall k :: k in dataBuffer ==> k >= batchStartChunk
    ensures originals == R.Originals(dataBuffer, batchStartChunk, dataSize)
  {
    hide Pad;
    originals := map[];
    var todo := dataBuffer.Keys;
    while todo != {}
      invariant todo <= dataBuffer.Keys
      invariant forall i: nat :: i in originals <==>
        i < dataSize && R.Arrived(dataBuffer, batchStartChunk, i) && batchStartChunk + i !in todo
      invariant forall i :: i in originals ==> originals[i] == Pad(dataBuffer[batchStartChunk + i])
    {
      var absIdx :| absIdx in todo;
      // `saturating_sub`
      var idxInBatch := if absIdx >= batchStartChunk then absIdx - batchStartChunk else 0;
      if idxInBatch < dataSize {
        originals := originals[idxInBatch := Pad(dataBuffer[absIdx])];
      }
      todo := todo - {absIdx};
    }
  }

  method CollectRecovery(parityBuffer: map<nat, Bytes>, parityPerBatch: nat) returns (recovery: map<nat, Bytes>)
    ensures recovery == R.Recovery(parityBuffer, parityPerBatch)
  {
    recovery := map[];
    var todo := parityBuffer.Keys;
    while todo != {}
      invariant todo <= parityBuffer.Keys
      invariant forall i :: i in recovery <==>
        i in parityBuffer && i !in todo && i < parityPerBatch && |parityBuffer[i]| >= SHARD_SIZE
      invariant forall i :: i in recovery ==> recovery[i] == parityBuffer[i][..SHARD_SIZE]
    {
      var idx :| idx in todo;
      if idx < parityPerBatch && |parityBuffer[idx]| >= SHARD_SIZE {
        recovery := recovery[idx := parityBuffer[idx][..SHARD_SIZE]];
      }
      todo := todo - {idx};
    }
  }

  method Restore(libs: Libraries, state: ReceiveState, dataSize: nat) returns (restored: Option<map<nat, Bytes>>)
    requires BuffersFit(state.Value()) && dataSize == R.CurrentDataSize(state.Value())
    ensures restored == R.Restored(libs, state.Value())
  {
    var dataReceived, parityReceived := |state.dataBuffer|, |state.parityBuffer|;
    if dataReceived >= dataSize {
      return Some(map[]);
    }
    if state.parityPerBatch == 0 {
      return None;
    }
    if dataReceived + parityReceived < dataSize {
      return None;
    }
    var originals := CollectOriginals(state.dataBuffer, state.currentBatch * BATCH_DATA_CHUNKS, dataSize);
    var recovery := CollectRecovery(state.parityBuffer, state.parityPerBatch);
    restored := libs.decode(dataSize, state.parityPerBatch, originals, recovery);
  }

  method FinalizeCurrentBatch(
      libs: Libraries, state: ReceiveState, dir: OutputDir, bad: Option<R.BadWrite>)
    returns (ok: bool)
    requires BuffersFit(state.Value())
    modifies state, dir
    ensures R.Finalized(ok, state.Value(), dir.files)
              == R.FinalizeCurrentBatch(libs, old(state.Value()), old(dir.files), bad)
  {
    ghost var s := state.Value();
    var dataSize := BatchDataSize(state.currentBatch, state.fileSize);
    if dataSize == 0 {
      state.dataBuffer, state.parityBuffer, state.bytesBuffered := map[], map[], 0;
      return true;
    }
    var restored := Restore(libs, state, dataSize);
    if restored.None? || state.output.None? {
      return false;
    }
    var name := state.output.value;
    ok := WriteBatch(state, dir, restored.value, dataSize, name, bad);
    if ok {
      state.dataBuffer, state.parityBuffer, state.bytesBuffered := map[], map[], 0;
    }
  }

  method ChunkToWrite(state: ReceiveState, restored: map<nat, Bytes>, i: nat) returns (chunk: Option<Bytes>)
    ensures chunk == R.ChunkToWrite(state.Value(), restored, i)
  {
    var absIdx := state.currentBatch * BATCH_DATA_CHUNKS + i;
    var expectedLen := ExpectedLen(absIdx, state.fileSize);
    if absIdx in state.dataBuffer {
      var data := state.dataBuffer[absIdx];
      if |data| < expectedLen {
        return None;
      }
      chunk := Some(data[..expectedLen]);
    } else if i in restored {
      var shard := restored[i];
      if |shard| < expectedLen {
        return None;
      }
      chunk := Some(shard[..expectedLen]);
    } else {
      chunk := None;
    }
  }

  /** The write loop: stops at the first chunk that is missing or short, keeping what is written. */
  method WriteBatch(
      state: ReceiveState, dir: OutputDir, restored: map<nat, Bytes>, dataSize: nat, name: string,
      bad: Option<R.BadWrite>)
    returns (ok: bool)
    requires dataSize == R.CurrentDataSize(state.Value())
    modifies dir
    ensures var (ok', content) := R.WriteChunks(state.Value(), restored, R.Content(old(dir.files), name),
                                                R.BatchStart(state.Value()) * CHUNK_SIZE, 0, bad);
            ok == ok' && dir.files == R.SetContent(old(dir.files), name, content)
  {
    hide R.ChunkToWrite, R.WriteAt, BatchDataSize;
    ghost var s := state.Value();
    ghost var whole := R.WriteChunks(s, restored, R.Content(dir.files, name), R.BatchStart(s) * CHUNK_SIZE, 0, bad);
    var pos: nat := state.currentBatch * BATCH_DATA_CHUNKS * CHUNK_SIZE;
    // Writes to a file that lost its name reach nobody; the handle still sees them.
    ghost var content := R.Content(dir.files, name);
    var i := 0;
    while i < dataSize
      invariant i <= dataSize
      invariant R.WriteChunks(s, restored, content, pos, i, bad) == whole
      invariant dir.files == R.SetContent(old(dir.files), name, content)
    {
      var chunk := ChunkToWrite(state, restored, i);
      if chunk.None? {
        return false;
      }
      var kept := if R.Fails(bad, state.currentBatch * BATCH_DATA_CHUNKS + i) then Some(bad.value.kept) else None;
      var written := dir.Write(name, pos, chunk.value, kept);
      if !written {
        return false;
      }
      content := R.WriteAt(content, pos, chunk.value);
      pos := pos + |chunk.value|;
      i := i + 1;
    }
    ok := true;
  }

  method AdvanceToBatch(libs: Libraries, state: ReceiveState, dir: OutputDir, target: nat, bad: Option<R.BadWrite>)
    requires state.filePath.Some? && BuffersFit(state.Value()) && OutputFits(state.Value(), dir.files)
    modifies state, dir
    ensures (state.Value(), dir.files) == R.AdvanceToBatch(libs, old(state.Value()), old(dir.files), target, bad)
  {
    hide R.FinalizeCurrentBatch, BuffersFit, R.Partial;
    ghost var whole := R.AdvanceToBatch(libs, state.Value(), dir.files, target, bad);
    while !state.failed && state.currentBatch < target
      invariant state.filePath.Some? && BuffersFit(state.Value()) && OutputFits(state.Value(), dir.files)
      invariant R.AdvanceToBatch(libs, state.Value(), dir.files, target, bad) == whole
      decreases target - state.currentBatch
    {
      FinalizeKeeps(libs, state.Value(), dir.files, bad);
      var ok := FinalizeCurrentBatch(libs, state, dir, bad);
      if !ok {
        state.failed := true;
        return;
      }
      state.currentBatch := state.currentBatch + 1;
      EmptyBuffersFit(state.Value());
    }
  }

  method ResetTransfer(state: ReceiveState, stats: Counters, success: bool)
    modifies state, stats
    ensures (state.Value(), stats.Value()) == R.ResetTransfer(old(state.Value()), old(stats.Value()), success)
  {
    if state.filePath.Some? {
      state.filePath := None;
      if success {
        stats.filesTransferred := stats.filesTransferred + 1;
      } else {
        stats.filesFailed := stats.filesFailed + 1;
      }
    }
    state.BecomeNew();
  }

  method Abandon(state: ReceiveState, stats: Counters, dir: OutputDir, path: string)
    modifies state, stats, dir
    ensures WorldOf(state, stats, dir) == R.Abandon(old(WorldOf(state, stats, dir)), path)
  {
    dir.Remove(R.Partial(path));
    dir.MarkFailure(path);
    ResetTransfer(state, stats, false);
  }

  method NewFile(libs: Libraries, state: ReceiveState, stats: Counters, dir: OutputDir, path: string, size: nat,
                 pathHash: Field, parityPerBatch: nat, io: R.Io)
    modifies state, stats, dir
    ensures WorldOf(state, stats, dir)
              == R.NewFile(libs, old(WorldOf(state, stats, dir)), path, size, pathHash, parityPerBatch, io)
  {
    hide R.OpenTransfer, R.Abandon;
    if state.filePath == Some(path) {
      return;
    }
    if state.filePath.Some? {
      Abandon(state, stats, dir, state.filePath.value);
    }
    OpenTransfer(libs, state, stats, dir, path, size, pathHash, parityPerBatch, io);
  }

  method OpenTransfer(libs: Libraries, state: ReceiveState, stats: Counters, dir: OutputDir, path: string, size: nat,
                      pathHash: Field, parityPerBatch: nat, io: R.Io)
    modifies state, stats, dir
    ensures WorldOf(state, stats, dir)
              == R.OpenTransfer(libs, old(WorldOf(state, stats, dir)), path, size, pathHash, parityPerBatch, io)
  {
    hide R.MarkFailure, R.Partial, R.FailedMarker;
    if !libs.safePath(path) || '\0' in path {
      stats.filesFailed := stats.filesFailed + 1;
      ResetTransfer(state, stats, false);
      return;
    }
    dir.RemoveAll(path);
    var isOpen := dir.OpenOutput(path, size, io.open);
    if !isOpen {
      stats.filesFailed := stats.filesFailed + 1;
      dir.MarkFailure(path);
      return;
    }
    state.Begin(path, size, pathHash, parityPerBatch);
  }

  method FinishFile(libs: Libraries, state: ReceiveState, stats: Counters, dir: OutputDir, io: R.Io)
    requires WellFormed(WorldOf(state, stats, dir))
    modifies state, stats, dir
    ensures WorldOf(state, stats, dir) == R.FinishFile(libs, old(WorldOf(state, stats, dir)), io)
  {
    if state.filePath.None? {
      return;
    }
    hide R.FinalizeCurrentBatch, R.Conclude, BuffersFit, OutputFits;
    var relPath := state.filePath.value;
    if !state.failed {
      FinalizeEffect(libs, state.Value(), dir.files, io.badWrite);
      var ok := FinalizeCurrentBatch(libs, state, dir, io.badWrite);
      if !ok {
        state.failed := true;
      }
    }
    Conclude(state, stats, dir, relPath, io);
  }

  /** The second half of `finish_file`; only the path of the transfer record still matters here. */
  method Conclude(state: ReceiveState, stats: Counters, dir: OutputDir, relPath: string, io: R.Io)
    modifies state, stats, dir
    ensures forall s: R.State :: s.filePath == old(state.filePath) ==>
      WorldOf(state, stats, dir)
        == R.Conclude(R.Finalized(!old(state.failed), s, old(dir.files)), old(stats.Value()), relPath, io)
  {
    hide R.MarkFailure, R.Partial, R.FailedMarker;
    state.output := None;
    if state.failed {
      Abandon(state, stats, dir, relPath);
      return;
    }
    var renamed := dir.Rename(R.Partial(relPath), relPath, io.renames);
    if !renamed {
      Abandon(state, stats, dir, relPath);
      return;
    }
    dir.Remove(R.FailedMarker(relPath));
    ResetTransfer(state, stats, true);
  }

  lemma FinalizeEffect(libs: Libraries, s: R.State, files: R.Files, bad: Option<R.BadWrite>)
    ensures R.FinalizeCurrentBatch(libs, s, files, bad).state.filePath == s.filePath
    ensures R.FinalizeCurrentBatch(libs, s, files, bad).state.failed == s.failed
  {
  }

  method Dispatch(libs: Libraries, state: ReceiveState, stats: Counters, dir: OutputDir, p: Packet, io: R.Io)
    requires WellFormed(WorldOf(state, stats, dir))
    modifies state, stats, dir
    ensures WorldOf(state, stats, dir) == R.Dispatch(libs, old(WorldOf(state, stats, dir)), p, io)
  {
    hide R.NewFile, R.ReceiveData, R.ReceiveParity, R.FinishFile, WellFormed;
    if p.pkgType == START {
      var path := libs.lossyUtf8(p.data);
      var parity := DecodeParityField(p.dataHash);
      NewFile(libs, state, stats, dir, path, p.count, p.pathHash, if parity.Some? then parity.value else 0, io);
    } else if p.pkgType == DATA && state.filePath.Some? {
      ReceiveData(libs, state, stats, dir, p, io.badWrite);
    } else if p.pkgType == PARITY && state.filePath.Some? {
      ReceiveParity(libs, state, stats, dir, p, io.badWrite);
    } else if p.pkgType == END && state.filePath.Some? {
      FinishFile(libs, state, stats, dir, io);
    } else if p.pkgType == UDP && libs.udpForwarding {
      stats.totalTransferred := stats.totalTransferred + |p.data|;
    }
  }

  method ReceiveData(
      libs: Libraries, state: ReceiveState, stats: Counters, dir: OutputDir, p: Packet, bad: Option<R.BadWrite>)
    requires WellFormed(WorldOf(state, stats, dir)) && state.filePath.Some?
    modifies state, stats, dir
    ensures WorldOf(state, stats, dir) == R.ReceiveData(libs, old(WorldOf(state, stats, dir)), p, bad)
  {
    if !state.failed {
      var valid := IsChunkValid(libs, p, state, DATA);
      if valid {
        var batch := BatchForData(p.count);
        if batch > state.currentBatch {
          AdvanceToBatch(libs, state, dir, batch, bad);
        }
        if !state.failed && batch == state.currentBatch {
          BufferData(state, stats, p);
        }
      }
    }
  }

  method ReceiveParity(
      libs: Libraries, state: ReceiveState, stats: Counters, dir: OutputDir, p: Packet, bad: Option<R.BadWrite>)
    requires WellFormed(WorldOf(state, stats, dir)) && state.filePath.Some?
    modifies state, stats, dir
    ensures WorldOf(state, stats, dir) == R.ReceiveParity(libs, old(WorldOf(state, stats, dir)), p, bad)
  {
    if !state.failed {
      var valid := IsChunkValid(libs, p, state, PARITY);
      if valid {
        var batch := BatchForParity(p.count);
        if batch > state.currentBatch {
          AdvanceToBatch(libs, state, dir, batch, bad);
        }
        if !state.failed && batch == state.currentBatch {
          var idxInBatch := p.count % BATCH_PARITY_CHUNKS;
          BufferParity(state, p, idxInBatch);
        }
      }
    }
  }

  /** The worker loop over everything that arrives: the objects end up exactly where `Receiver.Run` says. */
  method Work(libs: Libraries, state: ReceiveState, stats: Counters, dir: OutputDir, arrivals: seq<R.Arrival>)
    requires WellFormed(WorldOf(state, stats, dir))
    modifies state, stats, dir
    ensures WorldOf(state, stats, dir) == R.Run(libs, old(WorldOf(state, stats, dir)), arrivals)
    ensures WellFormed(WorldOf(state, stats, dir))
  {
    hide R.Dispatch, WellFormed, Decode;
    ghost var whole := R.Run(libs, WorldOf(state, stats, dir), arrivals);
    var n := 0;
    while n < |arrivals|
      invariant n <= |arrivals|
      invariant WellFormed(WorldOf(state, stats, dir))
      invariant R.Run(libs, WorldOf(state, stats, dir), arrivals[n..]) == whole
    {
      ReceiveKeeps(libs, WorldOf(state, stats, dir), arrivals[n]);
      var packet := Decode(arrivals[n].raw);
      if packet.Some? {
        Dispatch(libs, state, stats, dir, packet.value, arrivals[n].io);
      }
      assert arrivals[n..][1..] == arrivals[n + 1..];
      n := n + 1;
    }
  }
}
