/** Within one transfer no chunk is buffered, or counted, twice, even across batches. */
module Counting {
  import opened Basics
  import opened Batches
  import opened Wire
  import opened Erasure
  import opened Receiver
  import opened Accounting
  import opened Protocol
  import opened Tracking
  import opened Transfer
  import opened Exactness
  import opened Publication
  import opened Discipline

  /** The chunk number that this datagram adds to the buffer. */
  function Taken(libs: Libraries, w: World, a: Arrival): Option<nat> {
    var p := Decode(a.raw);
    if p.Some? && p.value.pkgType == DATA && p.value.count !in w.state.dataBuffer
      && p.value.count in Receive(libs, w, a).state.dataBuffer
    then Some(p.value.count) else None
  }

  /** The chunk numbers taken by a run, in order. */
  function History(libs: Libraries, w: World, arrivals: seq<Arrival>): seq<nat>
    decreases |arrivals|
  {
    if arrivals == [] then [] else
      var taken := Taken(libs, w, arrivals[0]);
      (if taken.Some? then [taken.value] else []) + History(libs, Receive(libs, w, arrivals[0]), arrivals[1..])
  }

  /** One transfer is in flight from beginning to end of the run. */
  predicate OneTransfer(libs: Libraries, w: World, arrivals: seq<Arrival>)
    decreases |arrivals|
  {
    w.state.filePath.Some? &&
    (arrivals != [] ==>
       && Receive(libs, w, arrivals[0]).state.filePath == w.state.filePath
       && OneTransfer(libs, Receive(libs, w, arrivals[0]), arrivals[1..]))
  }

  /** What one datagram does to the batch, the buffer and the byte count. */
  ghost predicate TakesOnce(w: World, w': World, taken: Option<nat>, len: nat) {
    && w.state.currentBatch <= w'.state.currentBatch
    && (w'.state.currentBatch == w.state.currentBatch ==> w.state.dataBuffer.Keys <= w'.state.dataBuffer.Keys)
    && (taken.Some? ==>
          && BatchForData(taken.value) == w'.state.currentBatch
          && taken.value !in w.state.dataBuffer && taken.value in w'.state.dataBuffer && len <= CHUNK_SIZE)
    && w'.state.bytesTransferred == SaturatingAdd(w.state.bytesTransferred, if taken.Some? then len else 0)
  }

  lemma DataTakesOnce(libs: Libraries, w: World, p: Packet, bad: Option<BadWrite>)
    requires WellFormed(w) && w.state.filePath.Some? && w.state.bytesTransferred <= U64_MAX
    ensures var w' := ReceiveData(libs, w, p, bad);
            var isNew := p.count !in w.state.dataBuffer && p.count in w'.state.dataBuffer;
            var taken := if isNew then Some(p.count) else None;
            TakesOnce(w, w', taken, |p.data|)
  {
    hide AdvanceToBatch, BuffersFit, IsChunkValid, OutputFits, BufferData, BatchForData;
    BuffersInBatch(w);
    var batch := BatchForData(p.count);
    AdvanceKeeps(libs, w.state, w.files, batch, bad);
    var (s, files) := AdvanceToBatch(libs, w.state, w.files, batch, bad);
    BufferInBatch(s);
    if !w.state.failed && IsChunkValid(libs, p, w.state, DATA) && !s.failed && batch == s.currentBatch {
      ValidLength(libs, p, w.state);
      BufferDataKeeps(s, w.stats, p);
      BufferedCount(s, w.stats, p);
    }
  }

  lemma BufferInBatch(s: State)
    requires BuffersFit(s)
    ensures forall c :: c in s.dataBuffer ==> BatchForData(c) == s.currentBatch
  {
  }

  lemma ValidLength(libs: Libraries, p: Packet, s: State)
    requires IsChunkValid(libs, p, s, DATA)
    ensures 1 <= |p.data| <= CHUNK_SIZE
  {
  }

  /** A chunk that was not buffered is counted with its length. */
  lemma BufferedCount(s: State, stats: Stats, p: Packet)
    requires BuffersFit(s) && 1 <= |p.data| <= CHUNK_SIZE && BatchForData(p.count) == s.currentBatch
    requires s.bytesTransferred <= U64_MAX
    ensures BufferData(s, stats, p).0.bytesTransferred
              == SaturatingAdd(s.bytesTransferred, if p.count in s.dataBuffer then 0 else |p.data|)
  {
    BufferDataKeeps(s, stats, p);
    hide BuffersFit;
  }

  lemma ParityTakesNothing(libs: Libraries, w: World, p: Packet, bad: Option<BadWrite>)
    requires WellFormed(w) && w.state.filePath.Some? && w.state.bytesTransferred <= U64_MAX
    ensures TakesOnce(w, ReceiveParity(libs, w, p, bad), None, 0)
  {
    hide AdvanceToBatch, PayloadBytes, IsChunkValid, BuffersFit;
    AdvanceKeeps(libs, w.state, w.files, BatchForParity(p.count), bad);
  }

  lemma StepTakesOnce(libs: Libraries, w: World, a: Arrival)
    requires WellFormed(w) && w.state.filePath.Some? && w.state.bytesTransferred <= U64_MAX
    requires Receive(libs, w, a).state.filePath == w.state.filePath
    ensures TakesOnce(w, Receive(libs, w, a), Taken(libs, w, a),
                      if Decode(a.raw).Some? then |Decode(a.raw).value.data| else 0)
  {
    hide Decode, ReceiveData, ReceiveParity, WellFormed, FinalizeCurrentBatch, Conclude;
    var decoded := Decode(a.raw);
    if decoded.Some? {
      DataTakesOnce(libs, w, decoded.value, a.io.badWrite);
      ParityTakesNothing(libs, w, decoded.value, a.io.badWrite);
      FinishFileEnds(libs, w, a.io);
    }
  }

  ghost predicate NoRepeats(h: seq<nat>) {
    forall i, j :: 0 <= i < j < |h| ==> h[i] != h[j]
  }

  /** None of the numbers is buffered in `s` or of a batch before the one of `s`. */
  ghost predicate NewTo(s: State, h: seq<nat>) {
    forall i {:trigger h[i]} :: 0 <= i < |h| ==> h[i] !in s.dataBuffer && BatchForData(h[i]) >= s.currentBatch
  }

  lemma TakenStaysNew(w: World, w': World, taken: Option<nat>, len: nat, rest: seq<nat>)
    requires WellFormed(w) && TakesOnce(w, w', taken, len) && NewTo(w'.state, rest) && NoRepeats(rest)
    ensures var h := (if taken.Some? then [taken.value] else []) + rest;
            NewTo(w.state, h) && NoRepeats(h)
  {
    hide BatchForData, OutputFits, PayloadBytes;
    BuffersInBatch(w);
    forall i | 0 <= i < |rest|
      ensures rest[i] !in w.state.dataBuffer && BatchForData(rest[i]) >= w.state.currentBatch
      ensures taken != Some(rest[i])
    {
    }
  }

  /** Whatever arrives during a transfer: the batch never goes back and no chunk number is taken twice. */
  lemma {:induction false} NeverTwice(libs: Libraries, w: World, arrivals: seq<Arrival>)
    requires WellFormed(w) && w.state.bytesTransferred <= U64_MAX && OneTransfer(libs, w, arrivals)
    ensures w.state.currentBatch <= Run(libs, w, arrivals).state.currentBatch
    ensures NewTo(w.state, History(libs, w, arrivals)) && NoRepeats(History(libs, w, arrivals))
    decreases |arrivals|
  {
    hide Receive, Taken, WellFormed, Decode, NewTo, NoRepeats;
    if arrivals == [] {
      NothingIsNew(w.state);
    } else {
      var w' := Receive(libs, w, arrivals[0]);
      ReceiveKeeps(libs, w, arrivals[0]);
      StepTakesOnce(libs, w, arrivals[0]);
      NeverTwice(libs, w', arrivals[1..]);
      var len := if Decode(arrivals[0].raw).Some? then |Decode(arrivals[0].raw).value.data| else 0;
      TakenStaysNew(w, w', Taken(libs, w, arrivals[0]), len, History(libs, w', arrivals[1..]));
    }
  }

  lemma NothingIsNew(s: State)
    ensures NewTo(s, []) && NoRepeats([])
  {
  }

  // ---- What is buffered stays ----

  /** Everything buffered in `s` is buffered in `s'`, with the same bytes. */
  ghost predicate StillBuffered(s: State, s': State) {
    && (forall k :: k in s.dataBuffer ==> k in s'.dataBuffer && s'.dataBuffer[k] == s.dataBuffer[k])
    && (forall k :: k in s.parityBuffer ==> k in s'.parityBuffer && s'.parityBuffer[k] == s.parityBuffer[k])
  }

  lemma DataStaysBuffered(libs: Libraries, w: World, p: Packet, bad: Option<BadWrite>)
    requires WellFormed(w) && w.state.filePath.Some?
    requires ReceiveData(libs, w, p, bad).state.currentBatch == w.state.currentBatch
    ensures StillBuffered(w.state, ReceiveData(libs, w, p, bad).state)
  {
    hide AdvanceToBatch, BuffersFit, IsChunkValid;
    AdvanceKeeps(libs, w.state, w.files, BatchForData(p.count), bad);
  }

  lemma ParityStaysBuffered(libs: Libraries, w: World, p: Packet, bad: Option<BadWrite>)
    requires WellFormed(w) && w.state.filePath.Some?
    requires ReceiveParity(libs, w, p, bad).state.currentBatch == w.state.currentBatch
    ensures StillBuffered(w.state, ReceiveParity(libs, w, p, bad).state)
  {
    hide AdvanceToBatch, BuffersFit, IsChunkValid;
    AdvanceKeeps(libs, w.state, w.files, BatchForParity(p.count), bad);
  }

  lemma StepStaysBuffered(libs: Libraries, w: World, a: Arrival)
    requires WellFormed(w) && w.state.filePath.Some?
    requires Receive(libs, w, a).state.filePath == w.state.filePath
    requires Receive(libs, w, a).state.currentBatch == w.state.currentBatch
    ensures StillBuffered(w.state, Receive(libs, w, a).state)
  {
    hide Decode, ReceiveData, ReceiveParity, WellFormed, FinishFile, MarkFailure, Partial, FailedMarker, AcceptsPath;
    if Decode(a.raw).Some? {
      var p := Decode(a.raw).value;
      FinishFileEnds(libs, w, a.io);
      if p.pkgType == DATA {
        DataStaysBuffered(libs, w, p, a.io.badWrite);
      } else if p.pkgType == PARITY {
        ParityStaysBuffered(libs, w, p, a.io.badWrite);
      }
    }
  }

  /**
    The first arrival wins: whatever comes while a batch is being collected, no chunk or shard that is buffered is
    lost or replaced.
  */
  lemma {:induction false} FirstArrivalWins(libs: Libraries, w: World, arrivals: seq<Arrival>)
    requires WellFormed(w) && w.state.bytesTransferred <= U64_MAX && OneTransfer(libs, w, arrivals)
    requires Run(libs, w, arrivals).state.currentBatch == w.state.currentBatch
    ensures StillBuffered(w.state, Run(libs, w, arrivals).state)
    decreases |arrivals|
  {
    hide Receive, WellFormed, Decode;
    if arrivals != [] {
      var w' := Receive(libs, w, arrivals[0]);
      ReceiveKeeps(libs, w, arrivals[0]);
      StepTakesOnce(libs, w, arrivals[0]);
      NeverTwice(libs, w', arrivals[1..]);
      StepStaysBuffered(libs, w, arrivals[0]);
      FirstArrivalWins(libs, w', arrivals[1..]);
    }
  }

  // ---- The counter of transferred bytes ----

  /** No packet names a batch beyond this one: counts have ten digits. */
  const LAST_BATCH: nat := COUNT_LIMIT / BATCH_PARITY_CHUNKS

  /** The counted bytes are at most those of the batches passed and of the chunks in the buffer. */
  ghost predicate Counted(s: State) {
    && s.currentBatch <= LAST_BATCH
    && s.bytesTransferred <= CHUNK_SIZE * (BATCH_DATA_CHUNKS * s.currentBatch + |s.dataBuffer|)
  }

  lemma CountedFits(s: State)
    requires BuffersFit(s) && Counted(s)
    ensures s.bytesTransferred + CHUNK_SIZE <= U64_MAX
  {
    BufferedBound(s);
    hide BuffersFit;
  }

  /** The buffer grows by the chunk taken, or a new batch begins. */
  lemma TakenKeepsCounted(w: World, w': World, taken: Option<nat>, len: nat)
    requires BuffersFit(w.state) && BuffersFit(w'.state) && Counted(w.state)
    requires TakesOnce(w, w', taken, len) && w'.state.currentBatch <= LAST_BATCH
    ensures Counted(w'.state)
    ensures w'.state.bytesTransferred == w.state.bytesTransferred + if taken.Some? then len else 0
  {
    CountedFits(w.state);
    BufferedBound(w.state);
    hide BuffersFit;
    var more := if taken.Some? then {taken.value} else {};
    if w'.state.currentBatch == w.state.currentBatch {
      SubsetSize(w.state.dataBuffer.Keys + more, w'.state.dataBuffer.Keys);
      assert |w.state.dataBuffer.Keys + more| == |w.state.dataBuffer| + |more|;
    } else {
      SubsetSize(more, w'.state.dataBuffer.Keys);
    }
  }

  lemma BatchStaysInRange(libs: Libraries, w: World, p: Packet, bad: Option<BadWrite>)
    requires WellFormed(w) && w.state.filePath.Some? && p.count < COUNT_LIMIT && w.state.currentBatch <= LAST_BATCH
    ensures ReceiveData(libs, w, p, bad).state.currentBatch <= LAST_BATCH
    ensures ReceiveParity(libs, w, p, bad).state.currentBatch <= LAST_BATCH
  {
    hide BuffersFit, AdvanceToBatch, IsChunkValid;
    AdvanceKeeps(libs, w.state, w.files, BatchForData(p.count), bad);
    AdvanceKeeps(libs, w.state, w.files, BatchForParity(p.count), bad);
  }

  /** Within a transfer every taken chunk is counted in full: the counter does not saturate. */
  lemma StepCountsInFull(libs: Libraries, w: World, a: Arrival)
    requires WellFormed(w) && Counted(w.state) && w.state.filePath.Some?
    requires Receive(libs, w, a).state.filePath == w.state.filePath
    ensures var w' := Receive(libs, w, a);
            && Counted(w'.state)
            && w'.state.bytesTransferred == w.state.bytesTransferred +
                 if Taken(libs, w, a).Some? then |Decode(a.raw).value.data| else 0
  {
    hide Decode, ReceiveData, ReceiveParity, WellFormed, FinishFile, TakesOnce, Counted;
    BuffersAlwaysFit(w);
    CountedFits(w.state);
    StepTakesOnce(libs, w, a);
    ReceiveKeeps(libs, w, a);
    BuffersAlwaysFit(Receive(libs, w, a));
    StepInRange(libs, w, a);
    TakenKeepsCounted(w, Receive(libs, w, a), Taken(libs, w, a),
                      if Decode(a.raw).Some? then |Decode(a.raw).value.data| else 0);
  }

  lemma StepInRange(libs: Libraries, w: World, a: Arrival)
    requires WellFormed(w) && Counted(w.state) && w.state.filePath.Some?
    requires Receive(libs, w, a).state.filePath == w.state.filePath
    ensures Receive(libs, w, a).state.currentBatch <= LAST_BATCH
  {
    hide Decode, ReceiveData, ReceiveParity, WellFormed, FinishFile, MarkFailure, Partial, FailedMarker, AcceptsPath;
    if Decode(a.raw).Some? {
      DecodedRange(a.raw);
      BatchStaysInRange(libs, w, Decode(a.raw).value, a.io.badWrite);
      FinishFileEnds(libs, w, a.io);
    }
  }

  /** Whenever the transfer in flight changes, counting starts again. */
  lemma NewTransferIsCounted(libs: Libraries, w: World, a: Arrival)
    requires WellFormed(w)
    requires w.state.filePath.None? || Receive(libs, w, a).state.filePath != w.state.filePath
    ensures Counted(Receive(libs, w, a).state)
  {
    hide Decode, ReceiveData, ReceiveParity, FinishFile, BuffersFit, MarkFailure, Partial;
    if Decode(a.raw).Some? && w.state.filePath.Some? {
      HandlersKeepTransfer(libs, w, Decode(a.raw).value, a.io.badWrite);
      FinishFileEnds(libs, w, a.io);
    }
  }

  lemma {:induction false} RunStaysCounted(libs: Libraries, w: World, arrivals: seq<Arrival>)
    requires WellFormed(w) && Counted(w.state)
    ensures WellFormed(Run(libs, w, arrivals)) && Counted(Run(libs, w, arrivals).state)
    decreases |arrivals|
  {
    hide Receive, WellFormed, Counted;
    if arrivals != [] {
      var w' := Receive(libs, w, arrivals[0]);
      ReceiveKeeps(libs, w, arrivals[0]);
      if w.state.filePath.Some? && w'.state.filePath == w.state.filePath {
        StepCountsInFull(libs, w, arrivals[0]);
      } else {
        NewTransferIsCounted(libs, w, arrivals[0]);
      }
      RunStaysCounted(libs, w', arrivals[1..]);
    }
  }

  /**
    At every point of every run from program start: a chunk that is taken is counted with all its bytes; the
    counter of the transfer never comes near its 64-bit limit.
  */
  lemma BytesAreCountedInFull(libs: Libraries, stats: Stats, files: Files, arrivals: seq<Arrival>, a: Arrival)
    ensures var w := Run(libs, Idle(stats, files), arrivals); var w' := Receive(libs, w, a);
            && w.state.bytesTransferred + CHUNK_SIZE <= U64_MAX
            && (w.state.filePath.Some? && w'.state.filePath == w.state.filePath ==>
                  w'.state.bytesTransferred == w.state.bytesTransferred +
                    if Taken(libs, w, a).Some? then |Decode(a.raw).value.data| else 0)
  {
    hide Run, Receive, WellFormed, Counted, BuffersFit, Taken;
    var start := Idle(stats, files);
    FreshIsWellFormed(start);
    FreshIsCounted();
    RunStaysCounted(libs, start, arrivals);
    var w := Run(libs, start, arrivals);
    BuffersAlwaysFit(w);
    CountedFits(w.state);
    if w.state.filePath.Some? && Receive(libs, w, a).state.filePath == w.state.filePath {
      StepCountsInFull(libs, w, a);
    }
  }

  lemma FreshIsCounted()
    ensures Counted(FRESH)
  {
  }

  // ---- The counter of all bytes ----

  /** The bytes that a datagram adds to the total: those of the chunk it brings, or of a UDP packet to forward. */
  function Adds(libs: Libraries, w: World, a: Arrival): nat {
    var p := Decode(a.raw);
    if p.None? then 0
    else if p.value.pkgType == UDP then if libs.udpForwarding then |p.value.data| else 0
    else if w.state.filePath.Some? && Receive(libs, w, a).state.filePath == w.state.filePath
            && Taken(libs, w, a).Some? then |p.value.data|
    else 0
  }

  function AllAdded(libs: Libraries, w: World, arrivals: seq<Arrival>): nat
    decreases |arrivals|
  {
    if arrivals == [] then 0
    else Adds(libs, w, arrivals[0]) + AllAdded(libs, Receive(libs, w, arrivals[0]), arrivals[1..])
  }

  /** The totals of a chunk and of the transfer grow together. */
  lemma DataAddsToTotal(libs: Libraries, w: World, p: Packet, bad: Option<BadWrite>)
    requires WellFormed(w) && w.state.filePath.Some?
    ensures var w' := ReceiveData(libs, w, p, bad);
            var isNew := p.count !in w.state.dataBuffer && p.count in w'.state.dataBuffer;
            w'.stats.totalTransferred ==
              if isNew then SaturatingAdd(w.stats.totalTransferred, |p.data|) else w.stats.totalTransferred
  {
    hide AdvanceToBatch, BuffersFit, IsChunkValid, OutputFits, BatchForData, BufferData;
    BuffersInBatch(w);
    var batch := BatchForData(p.count);
    AdvanceKeeps(libs, w.state, w.files, batch, bad);
    var (s, files) := AdvanceToBatch(libs, w.state, w.files, batch, bad);
    BufferInBatch(s);
    if !w.state.failed && IsChunkValid(libs, p, w.state, DATA) && !s.failed && batch == s.currentBatch {
      ValidLength(libs, p, w.state);
      BufferDataKeeps(s, w.stats, p);
      BufferedTotal(s, w.stats, p);
    }
  }

  lemma BufferedTotal(s: State, stats: Stats, p: Packet)
    requires BuffersFit(s) && 1 <= |p.data| <= CHUNK_SIZE && BatchForData(p.count) == s.currentBatch
    ensures BufferData(s, stats, p).1 == if p.count in s.dataBuffer then stats
              else stats.(totalTransferred := SaturatingAdd(stats.totalTransferred, |p.data|))
  {
    BufferDataKeeps(s, stats, p);
    hide BuffersFit;
  }

  lemma StepAdds(libs: Libraries, w: World, a: Arrival)
    requires WellFormed(w)
    ensures var total := w.stats.totalTransferred + Adds(libs, w, a);
            total <= U64_MAX ==> Receive(libs, w, a).stats.totalTransferred == total
  {
    hide Decode, ReceiveData, WellFormed, FinalizeCurrentBatch, AdvanceToBatch, IsChunkValid, BufferParity, MarkFailure;
    var decoded := Decode(a.raw);
    if decoded.Some? && w.state.filePath.Some? {
      DataAddsToTotal(libs, w, decoded.value, a.io.badWrite);
      HandlersKeepTransfer(libs, w, decoded.value, a.io.badWrite);
    }
  }

  /**
    Over any run the total grows by the bytes of the chunks that are taken and of the UDP packets to forward, as
    long as it stays within 64 bits.
  */
  lemma {:induction false} TotalIsExact(libs: Libraries, w: World, arrivals: seq<Arrival>)
    requires WellFormed(w)
    ensures var total := w.stats.totalTransferred + AllAdded(libs, w, arrivals);
            total <= U64_MAX ==> Run(libs, w, arrivals).stats.totalTransferred == total
    decreases |arrivals|
  {
    hide Receive, WellFormed, Adds;
    if arrivals != [] {
      ReceiveKeeps(libs, w, arrivals[0]);
      StepAdds(libs, w, arrivals[0]);
      TotalIsExact(libs, Receive(libs, w, arrivals[0]), arrivals[1..]);
    }
  }

  // ---- Progress on the sender's own packets ----

  /** The bytes of the chunks in `s` below chunk `n`. */
  ghost function SizeOf(s: set<nat>, n: nat, fileSize: nat): nat {
    if n == 0 then 0
    else SizeOf(s, n - 1, fileSize) + if n - 1 in s then ExpectedLen(n - 1, fileSize) else 0
  }

  lemma {:induction false} SizeOfInsert(s: set<nat>, c: nat, n: nat, fileSize: nat)
    requires c !in s
    ensures SizeOf(s + {c}, n, fileSize) == SizeOf(s, n, fileSize) + if c < n then ExpectedLen(c, fileSize) else 0
  {
    hide ExpectedLen;
    if n > 0 {
      SizeOfInsert(s, c, n - 1, fileSize);
    }
  }

  lemma {:induction false} SizeOfBound(s: set<nat>, n: nat, fileSize: nat)
    requires n <= TotalChunks(fileSize)
    ensures SizeOf(s, n, fileSize) <= Min(n * CHUNK_SIZE, fileSize)
  {
    if n > 0 {
      ChunkPlacement(n - 1, fileSize);
      SizeOfBound(s, n - 1, fileSize);
    }
  }

  /** Every counted chunk belongs to an earlier batch or is still in the buffer, and is counted once. */
  ghost predicate CountsExactly(src: Source, s: State, past: set<nat>) {
    && (forall c :: c in past ==> BatchForData(c) < s.currentBatch || c in s.dataBuffer)
    && s.bytesTransferred == SizeOf(past, TotalChunks(|src.data|), |src.data|)
  }

  /** The transfer of `src` is in flight, failed or not. */
  ghost predicate Underway(libs: Libraries, src: Source, w: World) {
    WellFormed(w) && w.state.filePath == Some(src.path) && w.state.pathHash == Some(PathHash(libs, src))
  }

  lemma HandlersKeepHash(libs: Libraries, w: World, p: Packet, bad: Option<BadWrite>)
    requires WellFormed(w) && w.state.filePath.Some?
    ensures ReceiveData(libs, w, p, bad).state.pathHash == w.state.pathHash
    ensures ReceiveParity(libs, w, p, bad).state.pathHash == w.state.pathHash
  {
    hide BuffersFit, AdvanceToBatch, IsChunkValid;
    AdvanceKeeps(libs, w.state, w.files, BatchForData(p.count), bad);
    AdvanceKeeps(libs, w.state, w.files, BatchForParity(p.count), bad);
  }

  lemma StaysUnderway(libs: Libraries, src: Source, w: World, e: Event, a: Arrival)
    requires Sendable(libs, src) && Underway(libs, src, w)
    requires ValidEvent(libs, src, e) && a.raw == RawOf(libs, src, e)
    ensures Underway(libs, src, Receive(libs, w, a))
  {
    hide WellFormed, Decode, ReceiveData, ReceiveParity, FinishFile, OpenTransfer, RawOf, ValidEvent;
    EventsKeepGoing(libs, src, e);
    StepKeepsGoing(libs, w, a);
    ReceiveKeeps(libs, w, a);
    if Decode(a.raw).Some? {
      HandlersKeepHash(libs, w, Decode(a.raw).value, a.io.badWrite);
    }
  }

  /** What an event of the file lets the receiver take: at most the chunk it is, with that chunk's length. */
  lemma EventTakes(libs: Libraries, src: Source, w: World, e: Event, a: Arrival)
    requires Sendable(libs, src) && Underway(libs, src, w)
    requires ValidEvent(libs, src, e) && a.raw == RawOf(libs, src, e)
    ensures Taken(libs, w, a).Some? ==>
              && e.ChunkOf? && Taken(libs, w, a).value == e.c < TotalChunks(|src.data|)
              && Decode(a.raw).Some? && |Decode(a.raw).value.data| == ExpectedLen(e.c, |src.data|)
  {
    hide Receive, Decode, EncodePacket, Ignored, ParityShards, ExpectedLen, BatchCount, TotalChunks, WellFormed;
    match e {
      case ChunkOf(c) =>
        ChunkCountFits(c, |src.data|);
        RoundTripFits(DataPacket(libs, src, c));
      case ParityOf(b, i) =>
        ParityCountFits(b, i, |src.data|);
        RoundTripFits(ParityPacket(libs, src, b, i));
      case Noise(_) =>
        NoiseIgnored(libs, src, w, a);
    }
  }

  lemma CountStep(libs: Libraries, src: Source, w: World, e: Event, a: Arrival, past: set<nat>)
    returns (past': set<nat>)
    requires Sendable(libs, src) && Underway(libs, src, w)
    requires ValidEvent(libs, src, e) && a.raw == RawOf(libs, src, e)
    requires CountsExactly(src, w.state, past)
    ensures CountsExactly(src, Receive(libs, w, a).state, past')
  {
    hide Receive, Decode, RawOf, ValidEvent, BuffersFit, Taken, SizeOf, ExpectedLen, TotalChunks, BatchForData,
      OutputFits;
    SizeOfBound(past, TotalChunks(|src.data|), |src.data|);
    StaysUnderway(libs, src, w, e, a);
    StepTakesOnce(libs, w, a);
    EventTakes(libs, src, w, e, a);
    var taken := Taken(libs, w, a);
    past' := if taken.Some? then past + {taken.value} else past;
    BuffersInBatch(w);
    if taken.Some? {
      assert taken.value !in past;
      SizeOfInsert(past, taken.value, TotalChunks(|src.data|), |src.data|);
      SizeOfBound(past', TotalChunks(|src.data|), |src.data|);
    }
  }

  lemma BuffersInBatch(w: World)
    requires WellFormed(w)
    ensures forall c :: c in w.state.dataBuffer ==> BatchForData(c) == w.state.currentBatch
  {
  }

  /** On the sender's own packets the progress counter never passes the size of the file. */
  lemma {:induction false} CountedAtMostOnce(
    libs: Libraries, src: Source, w: World, arrivals: seq<Arrival>, events: seq<Event>, past: set<nat>)
    requires Sendable(libs, src) && Underway(libs, src, w) && CarriesPackets(libs, src, arrivals, events)
    requires CountsExactly(src, w.state, past)
    ensures Run(libs, w, arrivals).state.bytesTransferred <= |src.data|
    decreases |arrivals|
  {
    hide Receive, Sendable, Underway, ValidEvent, RawOf;
    if arrivals == [] {
      SizeOfBound(past, TotalChunks(|src.data|), |src.data|);
    } else {
      StaysUnderway(libs, src, w, events[0], arrivals[0]);
      var past' := CountStep(libs, src, w, events[0], arrivals[0], past);
      assert CarriesPackets(libs, src, arrivals[1..], events[1..]);
      hide CountsExactly;
      CountedAtMostOnce(libs, src, Receive(libs, w, arrivals[0]), arrivals[1..], events[1..], past');
    }
  }

  /** The same from START on. */
  lemma ProgressNeverPassesSize(
    libs: Libraries, src: Source, w: World, start: Arrival, arrivals: seq<Arrival>, events: seq<Event>)
    requires Sendable(libs, src) && w.state == FRESH
    requires start.raw == EncodePacket(StartPacket(libs, src)) && start.io.open == Opened
    requires CarriesPackets(libs, src, arrivals, events)
    ensures Run(libs, w, [start] + arrivals).state.bytesTransferred <= |src.data|
  {
    NothingCounted(libs, src, w, start.io);
    hide Receive, OpenTransfer, EncodePacket, CountsExactly, WellFormed, AcceptsPath;
    StartOpens(libs, src, w, start);
    OpenResult(libs, w, src.path, |src.data|, PathHash(libs, src), BATCH_PARITY_CHUNKS, start.io);
    FreshIsWellFormed(w);
    ReceiveKeeps(libs, w, start);
    CountedAtMostOnce(libs, src, Receive(libs, w, start), arrivals, events, {});
    assert ([start] + arrivals)[1..] == arrivals;
  }

  lemma NothingCounted(libs: Libraries, src: Source, w: World, io: Io)
    requires AcceptsPath(libs, src.path) && w.state == FRESH && io.open == Opened
    ensures CountsExactly(
      src, OpenTransfer(libs, w, src.path, |src.data|, PathHash(libs, src), BATCH_PARITY_CHUNKS, io).state, {})
  {
    hide TotalChunks, Partial, FailedMarker;
    SizeOfEmpty(TotalChunks(|src.data|), |src.data|);
  }

  lemma {:induction false} SizeOfEmpty(n: nat, fileSize: nat)
    ensures SizeOf({}, n, fileSize) == 0
  {
    if n > 0 {
      SizeOfEmpty(n - 1, fileSize);
    }
  }
}
