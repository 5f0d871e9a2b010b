/** What becomes of a file: published, with exactly which bytes, or marked as failed. */
module Publication {
  import opened Basics
  import opened Batches
  import opened Wire
  import opened Erasure
  import opened Names
  import opened Receiver
  import opened Accounting
  import opened Protocol
  import opened Tracking
  import opened Transfer
  import opened Exactness

  ghost predicate IsPublished(files: Files, path: string, content: Bytes) {
    && path in files && files[path] == content
    && Partial(path) !in files && FailedMarker(path) !in files
  }

  ghost predicate IsFailed(files: Files, path: string) {
    path !in files && Partial(path) !in files && FailedMarker(path) in files
  }

  /** A failure marker replaces the file; one that is there already is left as it is, and so is everything else. */
  lemma MarkerReplacesFile(files: Files, path: string)
    ensures var marked := MarkFailure(files, path);
            && path !in marked && FailedMarker(path) in marked
            && (FailedMarker(path) in files ==> marked[FailedMarker(path)] == files[FailedMarker(path)])
            && (forall n :: n != path && n != FailedMarker(path) ==>
                  (n in marked <==> n in files) && (n in files ==> marked[n] == files[n]))
  {
    NamesDiffer(path);
    hide FailedMarker, Partial;
  }

  // ---- START ----

  /** The START of a file, on an idle receiver, opens its transfer with the parameters the sender means. */
  lemma StartOpens(libs: Libraries, src: Source, w: World, a: Arrival)
    requires Sendable(libs, src) && w.state.filePath.None?
    requires a.raw == EncodePacket(StartPacket(libs, src))
    ensures Receive(libs, w, a)
              == OpenTransfer(libs, w, src.path, |src.data|, PathHash(libs, src), BATCH_PARITY_CHUNKS, a.io)
  {
    RoundTripFits(StartPacket(libs, src));
    ParityFieldRoundTrip(BATCH_PARITY_CHUNKS);
    hide OpenTransfer, Decode, EncodePacket, EncodeParityField, DecodeParityField;
  }

  /** A START for another path, whatever else it says, first gives up the transfer in flight. */
  lemma StartPreempts(libs: Libraries, w: World, a: Arrival)
    requires Decode(a.raw).Some? && Decode(a.raw).value.pkgType == START
    requires w.state.filePath.Some? && w.state.filePath != Some(libs.lossyUtf8(Decode(a.raw).value.data))
    ensures Receive(libs, w, a) == Receive(libs, Abandon(w, w.state.filePath.value), a)
    ensures Abandon(w, w.state.filePath.value).state == FRESH
  {
    hide OpenTransfer, Decode, DecodeParityField, MarkFailure;
  }

  lemma OpenResult(libs: Libraries, w: World, path: string, size: nat, h: Field, parity: nat, io: Io)
    requires AcceptsPath(libs, path) && w.state == FRESH && io.open == Opened
    ensures OpenTransfer(libs, w, path, size, h, parity, io) ==
            World(State(0, Some(path), size, parity, Some(h), 0, map[], map[], 0, false, Some(Partial(path))),
                  w.stats, (w.files - {path, Partial(path), FailedMarker(path)})[Partial(path) := Zeros(size)])
  {
    hide Partial, FailedMarker, MarkFailure;
  }

  lemma EmptyBuffersMatch(libs: Libraries, src: Source, s: State)
    requires s.dataBuffer == map[] && s.parityBuffer == map[]
    ensures BuffersMatch(libs, src, s, NOTHING_YET)
  {
    hide ParityShards, Chunk;
  }

  /** A transfer that was just opened has nothing yet, and its file is all zeros. */
  lemma OpenAgrees(libs: Libraries, src: Source, w: World, io: Io)
    requires AcceptsPath(libs, src.path) && w.state == FRESH && io.open == Opened
    ensures var w' := OpenTransfer(libs, w, src.path, |src.data|, PathHash(libs, src), BATCH_PARITY_CHUNKS, io);
            && Agrees(libs, src, w', NOTHING_YET)
            && SameElsewhere(w'.files, w.files, src.path) && w'.stats == w.stats
  {
    assert Filled(src.data, 0) == Zeros(|src.data|);
    assert Reached(0, |src.data|) == 0;
    hide WellFormed, Partial, FailedMarker, BatchCount, BuffersMatch, OpenTransfer, Filled, Reached;
    OpenTransferKeeps(libs, w, src.path, |src.data|, PathHash(libs, src), BATCH_PARITY_CHUNKS, io);
    OpenResult(libs, w, src.path, |src.data|, PathHash(libs, src), BATCH_PARITY_CHUNKS, io);
    var w' := OpenTransfer(libs, w, src.path, |src.data|, PathHash(libs, src), BATCH_PARITY_CHUNKS, io);
    EmptyBuffersMatch(libs, src, w'.state);
  }

  // ---- END ----

  /** An END ends the transfer in flight, whatever path it names. */
  lemma EndFinishes(libs: Libraries, w: World, a: Arrival)
    requires Decode(a.raw).Some? && Decode(a.raw).value.pkgType == END
    ensures Receive(libs, w, a) == FinishFile(libs, w, a.io)
  {
    hide Conclude, FinalizeCurrentBatch, Decode;
  }

  ghost predicate Complete(t: Tracker, fileSize: nat) {
    !t.failed && Enough(t, fileSize)
  }

  lemma ConcludePublishes(done: Finalized, stats: Stats, path: string, io: Io)
    requires done.ok && io.renames && Partial(path) in done.files && done.state.filePath == Some(path)
    ensures var w' := Conclude(done, stats, path, io);
            && w'.state == FRESH && SameElsewhere(w'.files, done.files, path)
            && IsPublished(w'.files, path, done.files[Partial(path)])
            && w'.stats == stats.(filesTransferred := stats.filesTransferred + 1)
  {
    NamesDiffer(path);
    hide Partial, FailedMarker;
  }

  lemma ConcludeFails(done: Finalized, stats: Stats, path: string, io: Io)
    requires !(done.ok && io.renames) && done.state.filePath == Some(path)
    ensures var w' := Conclude(done, stats, path, io);
            && w'.state == FRESH && SameElsewhere(w'.files, done.files, path)
            && IsFailed(w'.files, path)
            && w'.stats == stats.(filesFailed := stats.filesFailed + 1)
  {
    NamesDiffer(path);
    hide Partial, FailedMarker;
  }

  /** The file is published exactly when its last tracked batch is complete and the rename succeeds. */
  lemma FinishAgrees(libs: Libraries, src: Source, w: World, t: Tracker, io: Io)
    requires Sendable(libs, src) && Agrees(libs, src, w, t) && io.badWrite.None?
    requires Decodable(libs, t, |src.data|)
    ensures var w' := FinishFile(libs, w, io);
            && w'.state == FRESH && SameElsewhere(w'.files, w.files, src.path)
            && if Complete(t, |src.data|) && io.renames then
                 && IsPublished(w'.files, src.path, Filled(src.data, Reached(t.batch + 1, |src.data|)))
                 && w'.stats == w.stats.(filesTransferred := w.stats.filesTransferred + 1)
               else
                 && IsFailed(w'.files, src.path)
                 && w'.stats == w.stats.(filesFailed := w.stats.filesFailed + 1)
  {
    hide FinalizeCurrentBatch, WellFormed, Decodable, BuffersMatch, BatchCount, Reached, Filled, Partial, FailedMarker,
      Enough, Conclude, IsPublished, IsFailed, AcceptsPath;
    FinishFrame(libs, src, w, io.badWrite);
    if !t.failed {
      FinalizeExact(libs, src, w.state, w.files, t);
    }
    var done := if w.state.failed then Finalized(false, w.state, w.files)
                else FinalizeCurrentBatch(libs, w.state, w.files, io.badWrite);
    if done.ok && io.renames {
      ConcludePublishes(done, w.stats, src.path, io);
    } else {
      ConcludeFails(done, w.stats, src.path, io);
    }
  }

  /** Finalizing changes only the partial file and keeps the path. */
  lemma FinishFrame(libs: Libraries, src: Source, w: World, bad: Option<BadWrite>)
    requires WellFormed(w) && w.state.filePath == Some(src.path)
    ensures var done := FinalizeCurrentBatch(libs, w.state, w.files, bad);
            && done.state.filePath == Some(src.path)
            && done.files.Keys == w.files.Keys && Partial(src.path) in w.files
            && SameElsewhere(done.files, w.files, src.path)
  {
    FinalizeKeeps(libs, w.state, w.files, bad);
    hide BuffersFit, FinalizeCurrentBatch;
  }

  // ---- The whole transfer ----

  /**
    From START to END. Whatever was lost, repeated, reordered or corrupted in between, the outcome is decided
    by the tracker: the file is published exactly when the batch it stopped at is complete (and the rename
    works), and then its content is the source up to the end of that batch and zeros from there on. This takes
    a code that works only if some batch was closed with its chunks incomplete.
  */
  lemma TransferExact(
    libs: Libraries, src: Source, w: World, start: Arrival, arrivals: seq<Arrival>, events: seq<Event>, end: Arrival)
    requires Sendable(libs, src) && w.state == FRESH
    requires start.raw == EncodePacket(StartPacket(libs, src)) && start.io.open == Opened
    requires Carries(libs, src, arrivals, events)
    requires Decode(end.raw).Some? && Decode(end.raw).value.pkgType == END && end.io.badWrite.None?
    requires Assured(libs, events, |src.data|)
    ensures var w' := Run(libs, w, [start] + arrivals + [end]);
            var t := TrackAll(NOTHING_YET, events, |src.data|);
            && w'.state == FRESH && SameElsewhere(w'.files, w.files, src.path)
            && if Complete(t, |src.data|) && end.io.renames then
                 && IsPublished(w'.files, src.path, Filled(src.data, Reached(t.batch + 1, |src.data|)))
                 && w'.stats.filesTransferred == w.stats.filesTransferred + 1
                 && w'.stats.filesFailed == w.stats.filesFailed
               else
                 && IsFailed(w'.files, src.path)
                 && w'.stats.filesTransferred == w.stats.filesTransferred
                 && w'.stats.filesFailed == w.stats.filesFailed + 1
  {
    hide Receive, Decode, EncodePacket, Reliable, NeverDecodes, NeedsDecoder, Steady, WellFormed, IsPublished,
      IsFailed, Complete, Filled, Reached, OpenTransfer, FinishFile;
    StartOpens(libs, src, w, start);
    OpenAgrees(libs, src, w, start.io);
    var began := Receive(libs, w, start);
    RunAgrees(libs, src, began, NOTHING_YET, arrivals, events);
    var before := Run(libs, began, arrivals);
    EndFinishes(libs, before, end);
    FinishAgrees(libs, src, before, TrackAll(NOTHING_YET, events, |src.data|), end.io);
    RunThree(libs, w, start, arrivals, end);
  }

  lemma RunThree(libs: Libraries, w: World, start: Arrival, arrivals: seq<Arrival>, end: Arrival)
    ensures Run(libs, w, [start] + arrivals + [end])
              == Receive(libs, Run(libs, Receive(libs, w, start), arrivals), end)
  {
    hide Receive;
    var all := [start] + arrivals + [end];
    assert all[1..] == arrivals + [end];
    RunConcat(libs, Receive(libs, w, start), arrivals, [end]);
    assert [end][1..] == [];
  }
}
