/**
  Bookkeeping over whole runs of arbitrary datagrams: every START is accounted for, final names appear only
  by publication, and every transfer ends in exactly one of two ways.
 */
module Discipline {
  import opened Basics
  import opened Batches
  import opened Wire
  import opened Erasure
  import opened Names
  import opened Receiver
  import opened Accounting
  import opened Exactness
  import opened Publication
  import opened Recovery
  import opened Protocol
  import opened Tracking
  import opened Transfer

  // ---- Conservation of transfers ----

  /** A START that is not a repetition of the one in flight: it opens a transfer or is rejected. */
  predicate NewStart(libs: Libraries, w: World, a: Arrival) {
    var p := Decode(a.raw);
    p.Some? && p.value.pkgType == START && w.state.filePath != Some(libs.lossyUtf8(p.value.data))
  }

  function NewStarts(libs: Libraries, w: World, arrivals: seq<Arrival>): nat
    decreases |arrivals|
  {
    if arrivals == [] then 0
    else
      (if NewStart(libs, w, arrivals[0]) then 1 else 0)
        + NewStarts(libs, Receive(libs, w, arrivals[0]), arrivals[1..])
  }

  /** Transfers that ended and the one in flight. */
  function Accounted(w: World): nat {
    w.stats.filesTransferred + w.stats.filesFailed + if w.state.filePath.Some? then 1 else 0
  }

  /** The handlers of chunks and shards keep the path and the counts. */
  lemma HandlersKeepTransfer(libs: Libraries, w: World, p: Packet, bad: Option<BadWrite>)
    requires WellFormed(w) && w.state.filePath.Some?
    ensures ReceiveData(libs, w, p, bad).state.filePath == w.state.filePath
    ensures ReceiveParity(libs, w, p, bad).state.filePath == w.state.filePath
    ensures SameCounts(ReceiveData(libs, w, p, bad).stats, w.stats)
    ensures SameCounts(ReceiveParity(libs, w, p, bad).stats, w.stats)
  {
    hide BuffersFit, AdvanceToBatch, IsChunkValid;
    AdvanceKeeps(libs, w.state, w.files, BatchForData(p.count), bad);
    AdvanceKeeps(libs, w.state, w.files, BatchForParity(p.count), bad);
  }

  lemma FinishAccounts(libs: Libraries, w: World, io: Io)
    ensures Accounted(FinishFile(libs, w, io)) == Accounted(w)
  {
    FinalizeState(libs, w.state, w.files, io.badWrite);
    hide FinalizeCurrentBatch, MarkFailure;
  }

  lemma NewFileAccounts(libs: Libraries, w: World, path: string, size: nat, h: Field, parity: nat, io: Io)
    requires w.state.filePath != Some(path)
    ensures Accounted(NewFile(libs, w, path, size, h, parity, io)) == Accounted(w) + 1
  {
    hide MarkFailure;
  }

  lemma StepAccounts(libs: Libraries, w: World, a: Arrival)
    requires WellFormed(w)
    ensures Accounted(Receive(libs, w, a)) == Accounted(w) + if NewStart(libs, w, a) then 1 else 0
  {
    hide WellFormed, Decode, NewFile, FinishFile, ReceiveData, ReceiveParity;
    var decoded := Decode(a.raw);
    if decoded.Some? {
      var p := decoded.value;
      if p.pkgType == START {
        var parity := DecodeParityField(p.dataHash);
        StartAccounts(libs, w, libs.lossyUtf8(p.data), p.count, p.pathHash,
                      if parity.Some? then parity.value else 0, a.io);
      } else if w.state.filePath.Some? {
        HandlersKeepTransfer(libs, w, p, a.io.badWrite);
        FinishAccounts(libs, w, a.io);
      }
    }
  }

  lemma StartAccounts(libs: Libraries, w: World, path: string, size: nat, h: Field, parity: nat, io: Io)
    ensures Accounted(NewFile(libs, w, path, size, h, parity, io))
              == Accounted(w) + if w.state.filePath != Some(path) then 1 else 0
  {
    if w.state.filePath != Some(path) {
      NewFileAccounts(libs, w, path, size, h, parity, io);
    }
    hide OpenTransfer;
  }

  /** Over any run, every START that was not a repetition is a transferred, a failed or the in-flight file. */
  lemma {:induction false} TransfersConserved(libs: Libraries, w: World, arrivals: seq<Arrival>)
    requires WellFormed(w)
    ensures Accounted(Run(libs, w, arrivals)) == Accounted(w) + NewStarts(libs, w, arrivals)
    ensures var w' := Run(libs, w, arrivals); w'.state.filePath.None? ==> w'.state == FRESH
    decreases |arrivals|
  {
    hide Receive, NewStart, Accounted, BuffersFit;
    if arrivals != [] {
      ReceiveKeeps(libs, w, arrivals[0]);
      StepAccounts(libs, w, arrivals[0]);
      TransfersConserved(libs, Receive(libs, w, arrivals[0]), arrivals[1..]);
    }
  }

  // ---- Final names ----

  /** Finalizing and moving on change only the content of the partial file. */
  lemma HandlersKeepNames(libs: Libraries, w: World, p: Packet, bad: Option<BadWrite>)
    requires WellFormed(w) && w.state.filePath.Some?
    ensures var partial := Partial(w.state.filePath.value);
            && ReceiveData(libs, w, p, bad).files.Keys == w.files.Keys
            && ReceiveParity(libs, w, p, bad).files.Keys == w.files.Keys
            && forall n :: n in w.files && n != partial ==>
                 && ReceiveData(libs, w, p, bad).files[n] == w.files[n]
                 && ReceiveParity(libs, w, p, bad).files[n] == w.files[n]
  {
    hide BuffersFit, AdvanceToBatch, IsChunkValid;
    AdvanceKeeps(libs, w.state, w.files, BatchForData(p.count), bad);
    AdvanceKeeps(libs, w.state, w.files, BatchForParity(p.count), bad);
  }

  /** The file `n` is new, or its content is. */
  predicate Appears(before: Files, after: Files, n: string) {
    n in after && (n !in before || after[n] != before[n])
  }

  lemma StartKeepsFinalNames(
      libs: Libraries, w: World, path: string, size: nat, h: Field, parity: nat, io: Io, n: string)
    requires PlainName(n)
    ensures !Appears(w.files, NewFile(libs, w, path, size, h, parity, io).files, n)
  {
    OwnNames(path);
    if w.state.filePath.Some? {
      OwnNames(w.state.filePath.value);
    }
    hide Partial, FailedMarker, EndsWith;
  }

  lemma FinishPublishes(libs: Libraries, w: World, io: Io, n: string)
    requires WellFormed(w) && w.state.filePath.Some? && PlainName(n)
    requires Appears(w.files, FinishFile(libs, w, io).files, n)
    ensures w.state.filePath == Some(n) && !w.state.failed && io.renames
    ensures var done := FinalizeCurrentBatch(libs, w.state, w.files, io.badWrite);
            done.ok && Partial(n) in done.files && FinishFile(libs, w, io).files[n] == done.files[Partial(n)]
  {
    hide BuffersFit, Partial, FailedMarker, EndsWith, FinalizeCurrentBatch;
    OwnNames(w.state.filePath.value);
    FinalizeKeeps(libs, w.state, w.files, io.badWrite);
  }

  /**
    A final name appears, or changes its content, only when an END finishes the transfer of that very name,
    which has not failed, and then its content is that of the finalized partial file.
  */
  lemma AppearsOnlyByPublication(libs: Libraries, w: World, a: Arrival, n: string)
    requires WellFormed(w) && PlainName(n) && Appears(w.files, Receive(libs, w, a).files, n)
    ensures Decode(a.raw).Some? && Decode(a.raw).value.pkgType == END
    ensures w.state.filePath == Some(n) && !w.state.failed && a.io.renames
    ensures var done := FinalizeCurrentBatch(libs, w.state, w.files, a.io.badWrite);
            done.ok && Partial(n) in done.files && Receive(libs, w, a).files[n] == done.files[Partial(n)]
  {
    hide WellFormed, Decode, NewFile, FinishFile, ReceiveData, ReceiveParity, PlainName, FinalizeCurrentBatch, Partial;
    var decoded := Decode(a.raw);
    if decoded.Some? {
      var p := decoded.value;
      if p.pkgType == START {
        var parity := DecodeParityField(p.dataHash);
        StartKeepsFinalNames(libs, w, libs.lossyUtf8(p.data), p.count, p.pathHash,
                             if parity.Some? then parity.value else 0, a.io, n);
      } else if w.state.filePath.Some? {
        PartialIsNotPlain(w.state.filePath.value, n);
        HandlersKeepNames(libs, w, p, a.io.badWrite);
        if p.pkgType == END {
          FinishPublishes(libs, w, a.io, n);
        }
      }
    }
  }

  // ---- Partial files and markers ----

  /** Nothing in the directory ends in `.partial` but the file of the transfer in flight. */
  ghost predicate Tidy(w: World) {
    && WellFormed(w)
    && (w.state.filePath.Some? ==> PlainName(w.state.filePath.value))
    && OnlyPartial(w.files, w.state.filePath)
  }

  ghost predicate OnlyPartial(files: Files, filePath: Option<string>) {
    forall n :: n in files && EndsWith(n, ".partial") ==> filePath.Some? && n == Partial(filePath.value)
  }

  /** If it is a START, it names a plain path. */
  predicate PlainStart(libs: Libraries, a: Arrival) {
    var p := Decode(a.raw);
    p.Some? && p.value.pkgType == START ==> PlainName(libs.lossyUtf8(p.value.data))
  }

  /** The one case that leaves a partial file behind: a START whose output file is created but cannot be sized. */
  predicate LeavesPartial(libs: Libraries, w: World, a: Arrival) {
    var p := Decode(a.raw);
    && NewStart(libs, w, a) && AcceptsPath(libs, libs.lossyUtf8(p.value.data))
    && p.value.count > 0 && a.io.open == NotSized
  }

  lemma AbandonTidies(w: World)
    requires w.state.filePath.Some? && OnlyPartial(w.files, w.state.filePath)
    ensures OnlyPartial(Abandon(w, w.state.filePath.value).files, None)
    ensures IsFailed(Abandon(w, w.state.filePath.value).files, w.state.filePath.value)
  {
    var path := w.state.filePath.value;
    OwnNames(path);
    SuffixesDiffer(FailedMarker(path));
    NamesDiffer(path);
    hide EndsWith, Partial, FailedMarker;
  }

  lemma OpenTidies(libs: Libraries, w: World, path: string, size: nat, h: Field, parity: nat, io: Io)
    requires w.state == FRESH && OnlyPartial(w.files, None)
    ensures var w' := OpenTransfer(libs, w, path, size, h, parity, io);
            && (OnlyPartial(w'.files, w'.state.filePath) <==>
                  !(AcceptsPath(libs, path) && size > 0 && io.open == NotSized))
            && (w'.state.filePath.Some? ==> w'.state.filePath.value == path)
  {
    OwnNames(path);
    SuffixesDiffer(FailedMarker(path));
    NamesDiffer(path);
    hide EndsWith, Partial, FailedMarker, AcceptsPath;
    var w' := OpenTransfer(libs, w, path, size, h, parity, io);
    if AcceptsPath(libs, path) && size > 0 && io.open == NotSized {
      assert Partial(path) in w'.files;
    }
  }

  lemma NewFileTidies(libs: Libraries, w: World, path: string, size: nat, h: Field, parity: nat, io: Io)
    requires (w.state.filePath.None? ==> w.state == FRESH) && OnlyPartial(w.files, w.state.filePath)
    requires w.state.filePath.Some? ==> PlainName(w.state.filePath.value)
    requires PlainName(path)
    ensures var w' := NewFile(libs, w, path, size, h, parity, io);
            && (OnlyPartial(w'.files, w'.state.filePath) <==>
                  w.state.filePath == Some(path) || !(AcceptsPath(libs, path) && size > 0 && io.open == NotSized))
            && (w'.state.filePath.Some? ==> PlainName(w'.state.filePath.value))
  {
    hide OnlyPartial, OpenTransfer, PlainName, MarkFailure, AcceptsPath;
    if w.state.filePath != Some(path) {
      if w.state.filePath.Some? {
        AbandonTidies(w);
        OpenTidies(libs, Abandon(w, w.state.filePath.value), path, size, h, parity, io);
      } else {
        OpenTidies(libs, w, path, size, h, parity, io);
      }
    }
  }

  lemma FinishTidies(libs: Libraries, w: World, io: Io)
    requires WellFormed(w) && w.state.filePath.Some? && PlainName(w.state.filePath.value)
    requires OnlyPartial(w.files, w.state.filePath)
    ensures OnlyPartial(FinishFile(libs, w, io).files, None)
  {
    var path := w.state.filePath.value;
    FinalizeKeeps(libs, w.state, w.files, io.badWrite);
    hide WellFormed, FinalizeCurrentBatch, Conclude, IsPublished, IsFailed, SameElsewhere;
    FinalizeState(libs, w.state, w.files, io.badWrite);
    var done := if w.state.failed then Finalized(false, w.state, w.files)
                else FinalizeCurrentBatch(libs, w.state, w.files, io.badWrite);
    ConcludeTidies(done, w.stats, path, io);
  }

  lemma ConcludeTidies(done: Finalized, stats: Stats, path: string, io: Io)
    requires done.state.filePath == Some(path) && PlainName(path) && OnlyPartial(done.files, Some(path))
    ensures OnlyPartial(Conclude(done, stats, path, io).files, None)
  {
    NamesDiffer(path);
    AbandonTidies(World(done.state, stats, done.files));
    hide Partial, FailedMarker, EndsWith, Abandon;
  }

  lemma StartTidies(libs: Libraries, w: World, a: Arrival)
    requires Tidy(w) && Decode(a.raw).Some? && Decode(a.raw).value.pkgType == START && PlainStart(libs, a)
    ensures var w' := Receive(libs, w, a);
            && (OnlyPartial(w'.files, w'.state.filePath) <==> !LeavesPartial(libs, w, a))
            && (w'.state.filePath.Some? ==> PlainName(w'.state.filePath.value))
  {
    hide BuffersFit, NewFile, PlainName, OnlyPartial, DecodeParityField, Decode, AcceptsPath;
    var p := Decode(a.raw).value;
    var parity := DecodeParityField(p.dataHash);
    NewFileTidies(libs, w, libs.lossyUtf8(p.data), p.count, p.pathHash,
                  if parity.Some? then parity.value else 0, a.io);
  }

  lemma PacketTidies(libs: Libraries, w: World, p: Packet, io: Io)
    requires Tidy(w) && p.pkgType != START
    ensures var w' := Dispatch(libs, w, p, io);
            OnlyPartial(w'.files, w'.state.filePath) && (w'.state.filePath.Some? ==> PlainName(w'.state.filePath.value))
  {
    hide WellFormed, FinishFile, ReceiveData, ReceiveParity, PlainName, EndsWith, Partial;
    if w.state.filePath.Some? {
      HandlersKeepNames(libs, w, p, io.badWrite);
      HandlersKeepTransfer(libs, w, p, io.badWrite);
      FinishTidies(libs, w, io);
      FinishFileEnds(libs, w, io);
    }
  }

  /** The directory stays tidy at a datagram exactly unless it is a START whose output file cannot be sized. */
  lemma StepTidies(libs: Libraries, w: World, a: Arrival)
    requires Tidy(w) && PlainStart(libs, a)
    ensures Tidy(Receive(libs, w, a)) <==> !LeavesPartial(libs, w, a)
  {
    hide WellFormed, Decode, Dispatch, PlainName, OnlyPartial, AcceptsPath;
    ReceiveKeeps(libs, w, a);
    var decoded := Decode(a.raw);
    if decoded.Some? {
      if decoded.value.pkgType == START {
        StartTidies(libs, w, a);
      } else {
        PacketTidies(libs, w, decoded.value, a.io);
      }
    }
  }

  /** The directory is tidy all along the run. */
  ghost predicate AlwaysTidy(libs: Libraries, w: World, arrivals: seq<Arrival>)
    decreases |arrivals|
  {
    Tidy(w) && (arrivals != [] ==> AlwaysTidy(libs, Receive(libs, w, arrivals[0]), arrivals[1..]))
  }

  predicate NeverLeavesPartial(libs: Libraries, w: World, arrivals: seq<Arrival>)
    decreases |arrivals|
  {
    arrivals != [] ==>
      !LeavesPartial(libs, w, arrivals[0]) && NeverLeavesPartial(libs, Receive(libs, w, arrivals[0]), arrivals[1..])
  }

  /**
    Over any run whose STARTs name plain paths, the only partial file is at all times that of the transfer in
    flight, exactly if no START comes whose output file is created but cannot be sized.
  */
  lemma {:induction false} RunTidies(libs: Libraries, w: World, arrivals: seq<Arrival>)
    requires Tidy(w) && forall k :: 0 <= k < |arrivals| ==> PlainStart(libs, arrivals[k])
    ensures AlwaysTidy(libs, w, arrivals) <==> NeverLeavesPartial(libs, w, arrivals)
    decreases |arrivals|
  {
    hide Receive, PlainStart, Tidy, LeavesPartial;
    if arrivals != [] {
      StepTidies(libs, w, arrivals[0]);
      var w' := Receive(libs, w, arrivals[0]);
      if Tidy(w') {
        RunTidies(libs, w', arrivals[1..]);
      } else {
        assert !AlwaysTidy(libs, w', arrivals[1..]);
      }
    }
  }

  /** The case in point: on an idle receiver a file that was created but not sized stays, with no transfer in flight. */
  lemma UnsizedOpenLeavesPartial(libs: Libraries, files: Files, stats: Stats, path: string, size: nat, h: Field, io: Io)
    requires AcceptsPath(libs, path) && size > 0 && io.open == NotSized
    ensures var w' := NewFile(libs, Idle(stats, files), path, size, h, BATCH_PARITY_CHUNKS, io);
            w'.state == FRESH && Partial(path) in w'.files && !OnlyPartial(w'.files, w'.state.filePath)
  {
    NamesDiffer(path);
    OwnNames(path);
    hide Partial, FailedMarker, EndsWith;
  }

  // ---- How a transfer ends ----

  /** A transfer is in flight, under a plain name. */
  predicate InFlightPlain(w: World) {
    w.state.filePath.Some? ==> PlainName(w.state.filePath.value)
  }

  /** Exactly one of the file and its failure marker exists, and no partial file. */
  ghost predicate OneOutcome(files: Files, path: string) {
    Partial(path) !in files && ((path in files) != (FailedMarker(path) in files))
  }

  lemma ConcludeEndsOneWay(done: Finalized, stats: Stats, path: string, io: Io)
    requires done.state.filePath == Some(path)
    ensures OneOutcome(Conclude(done, stats, path, io).files, path)
  {
    NamesDiffer(path);
    hide Partial, FailedMarker;
  }

  lemma FinishEndsOneWay(libs: Libraries, w: World, io: Io)
    requires w.state.filePath.Some?
    ensures OneOutcome(FinishFile(libs, w, io).files, w.state.filePath.value)
  {
    hide FinalizeCurrentBatch, Conclude, OneOutcome;
    FinalizeState(libs, w.state, w.files, io.badWrite);
    ConcludeEndsOneWay(if w.state.failed then Finalized(false, w.state, w.files)
                       else FinalizeCurrentBatch(libs, w.state, w.files, io.badWrite),
                       w.stats, w.state.filePath.value, io);
  }

  /** What a START for another path makes of the transfer in flight, whether or not it is itself accepted. */
  lemma PreemptedFails(libs: Libraries, w: World, path: string, size: nat, h: Field, parity: nat, io: Io)
    requires w.state.filePath.Some? && w.state.filePath != Some(path)
    requires PlainName(w.state.filePath.value) && PlainName(path)
    ensures IsFailed(NewFile(libs, w, path, size, h, parity, io).files, w.state.filePath.value)
  {
    var prev := w.state.filePath.value;
    AbandonFails(w);
    NamesOfTwoFiles(prev, path);
    OtherNamesStay(libs, Abandon(w, prev), path, size, h, parity, io);
    hide Abandon, OpenTransfer, Partial, FailedMarker, PlainName;
  }

  lemma AbandonFails(w: World)
    requires w.state.filePath.Some?
    ensures var path := w.state.filePath.value;
            IsFailed(Abandon(w, path).files, path) && Abandon(w, path).state == FRESH
  {
    NamesDiffer(w.state.filePath.value);
    hide Partial, FailedMarker;
  }

  lemma OtherNamesStay(libs: Libraries, w: World, path: string, size: nat, h: Field, parity: nat, io: Io)
    ensures SameElsewhere(OpenTransfer(libs, w, path, size, h, parity, io).files, w.files, path)
  {
    hide Partial, FailedMarker;
  }

  /**
    Whichever datagram ends a transfer, and whatever the file system does, right after it exactly one of the
    file and its failure marker exists.
  */
  lemma EndsOneWay(libs: Libraries, w: World, a: Arrival)
    requires WellFormed(w) && InFlightPlain(w) && PlainStart(libs, a) && w.state.filePath.Some?
    requires Receive(libs, w, a).state.filePath != w.state.filePath
    ensures OneOutcome(Receive(libs, w, a).files, w.state.filePath.value)
  {
    hide WellFormed, Decode, NewFile, FinishFile, ReceiveData, ReceiveParity, PlainName, Partial, FailedMarker;
    var decoded := Decode(a.raw);
    if decoded.Some? {
      var p := decoded.value;
      HandlersKeepTransfer(libs, w, p, a.io.badWrite);
      if p.pkgType == START {
        var parity := DecodeParityField(p.dataHash);
        SamePathIgnored(libs, w, p.count, p.pathHash, if parity.Some? then parity.value else 0, a.io);
        PreemptedFails(libs, w, libs.lossyUtf8(p.data), p.count, p.pathHash,
                       if parity.Some? then parity.value else 0, a.io);
      } else if p.pkgType == END {
        FinishEndsOneWay(libs, w, a.io);
      }
    }
  }

  lemma SamePathIgnored(libs: Libraries, w: World, size: nat, h: Field, parity: nat, io: Io)
    requires w.state.filePath.Some?
    ensures NewFile(libs, w, w.state.filePath.value, size, h, parity, io) == w
  {
    hide OpenTransfer, Abandon;
  }

  lemma StepKeepsPlain(libs: Libraries, w: World, a: Arrival)
    requires WellFormed(w) && InFlightPlain(w) && PlainStart(libs, a)
    ensures InFlightPlain(Receive(libs, w, a))
  {
    hide WellFormed, Decode, FinishFile, ReceiveData, ReceiveParity, PlainName, MarkFailure;
    var decoded := Decode(a.raw);
    if decoded.Some? && w.state.filePath.Some? {
      HandlersKeepTransfer(libs, w, decoded.value, a.io.badWrite);
      FinishFileEnds(libs, w, a.io);
    }
  }

  lemma {:induction false} RunKeepsPlain(libs: Libraries, w: World, arrivals: seq<Arrival>)
    requires WellFormed(w) && InFlightPlain(w) && forall k :: 0 <= k < |arrivals| ==> PlainStart(libs, arrivals[k])
    ensures InFlightPlain(Run(libs, w, arrivals))
    decreases |arrivals|
  {
    hide Receive, PlainStart, InFlightPlain, WellFormed;
    if arrivals != [] {
      ReceiveKeeps(libs, w, arrivals[0]);
      StepKeepsPlain(libs, w, arrivals[0]);
      RunKeepsPlain(libs, Receive(libs, w, arrivals[0]), arrivals[1..]);
    }
  }

  // ---- Batches that cannot be closed ----

  /** A valid chunk or shard of a later batch, on which the current batch is closed. */
  predicate AsksToClose(libs: Libraries, w: World, a: Arrival) {
    var decoded := Decode(a.raw);
    && w.state.filePath.Some? && !w.state.failed && decoded.Some?
    && var p := decoded.value;
       || (p.pkgType == DATA && IsChunkValid(libs, p, w.state, DATA) && BatchForData(p.count) > w.state.currentBatch)
       || (p.pkgType == PARITY && IsChunkValid(libs, p, w.state, PARITY)
           && BatchForParity(p.count) > w.state.currentBatch)
  }

  lemma AdvanceStops(libs: Libraries, s: State, files: Files, target: nat, bad: Option<BadWrite>)
    requires !s.failed && s.currentBatch < target && !FinalizeCurrentBatch(libs, s, files, bad).ok
    ensures var s' := AdvanceToBatch(libs, s, files, target, bad).0;
            s'.failed && s'.filePath == s.filePath && s'.currentBatch == s.currentBatch
  {
    hide FinalizeCurrentBatch;
    FinalizeState(libs, s, files, bad);
    FinalizeKeepsBatch(libs, s, files, bad);
  }

  lemma FinalizeKeepsBatch(libs: Libraries, s: State, files: Files, bad: Option<BadWrite>)
    ensures FinalizeCurrentBatch(libs, s, files, bad).state.currentBatch == s.currentBatch
  {
    hide WriteChunks, Restored;
  }

  /** If the current batch cannot be closed, for whatever reason, the transfer has failed and stays at that batch. */
  lemma UnclosedBatchFails(libs: Libraries, w: World, a: Arrival)
    requires AsksToClose(libs, w, a) && !FinalizeCurrentBatch(libs, w.state, w.files, a.io.badWrite).ok
    ensures var s := Receive(libs, w, a).state;
            s.failed && s.filePath == w.state.filePath && s.currentBatch == w.state.currentBatch
  {
    hide FinalizeCurrentBatch, AdvanceToBatch, IsChunkValid, Decode, BufferData, BufferParity, NewFile, FinishFile;
    var p := Decode(a.raw).value;
    var target := if p.pkgType == DATA then BatchForData(p.count) else BatchForParity(p.count);
    AdvanceStops(libs, w.state, w.files, target, a.io.badWrite);
  }

  lemma StepStaysFailed(libs: Libraries, w: World, a: Arrival)
    requires w.state.failed && w.state.filePath.Some? && KeepsGoing(libs, w.state.filePath.value, a.raw)
    ensures var w' := Receive(libs, w, a); w'.state == w.state && w'.files == w.files && SameCounts(w'.stats, w.stats)
  {
    hide Decode, OpenTransfer, FinishFile;
  }

  lemma {:induction false} RunStaysFailed(libs: Libraries, w: World, arrivals: seq<Arrival>)
    requires w.state.failed && w.state.filePath.Some?
    requires forall k :: 0 <= k < |arrivals| ==> KeepsGoing(libs, w.state.filePath.value, arrivals[k].raw)
    ensures var w' := Run(libs, w, arrivals);
            w'.state == w.state && w'.files == w.files && SameCounts(w'.stats, w.stats)
    decreases |arrivals|
  {
    hide Receive, KeepsGoing;
    if arrivals != [] {
      StepStaysFailed(libs, w, arrivals[0]);
      RunStaysFailed(libs, Receive(libs, w, arrivals[0]), arrivals[1..]);
    }
  }

  /**
    A failed transfer never recovers: whatever comes until END, short of a START of another path, it ends with a
    marker, no file and one failure counted.
  */
  lemma FailedTransferEndsFailed(libs: Libraries, w: World, arrivals: seq<Arrival>, end: Arrival)
    requires w.state.failed && w.state.filePath.Some?
    requires forall k :: 0 <= k < |arrivals| ==> KeepsGoing(libs, w.state.filePath.value, arrivals[k].raw)
    requires Decode(end.raw).Some? && Decode(end.raw).value.pkgType == END
    ensures var w' := Run(libs, w, arrivals + [end]);
            && w'.state == FRESH && IsFailed(w'.files, w.state.filePath.value)
            && w'.stats.filesFailed == w.stats.filesFailed + 1
            && w'.stats.filesTransferred == w.stats.filesTransferred
  {
    hide Run, Receive, Decode, IsFailed, Conclude, KeepsGoing;
    RunStaysFailed(libs, w, arrivals);
    RunConcat(libs, w, arrivals, [end]);
    var before := Run(libs, w, arrivals);
    RunOne(libs, before, end);
    EndFinishes(libs, before, end);
    ConcludeFails(Finalized(false, before.state, before.files), before.stats, w.state.filePath.value, end.io);
  }

  /**
    A write that fails while a batch is closed, in the middle of a transfer, is never forgotten: whatever comes up
    to END, the file is not published.
  */
  lemma BadWriteInTransferEndsFailed(libs: Libraries, w: World, a: Arrival, arrivals: seq<Arrival>, end: Arrival)
    requires AsksToClose(libs, w, a) && HitsBatch(w.state, a.io.badWrite)
    requires forall k :: 0 <= k < |arrivals| ==> KeepsGoing(libs, w.state.filePath.value, arrivals[k].raw)
    requires Decode(end.raw).Some? && Decode(end.raw).value.pkgType == END
    ensures Receive(libs, w, a).state.failed
    ensures var w' := Run(libs, w, [a] + arrivals + [end]);
            && w'.state == FRESH && IsFailed(w'.files, w.state.filePath.value)
            && w'.stats.filesFailed == w.stats.filesFailed + 1
            && w'.stats.filesTransferred == w.stats.filesTransferred
  {
    hide Run, Receive, Decode, IsFailed, KeepsGoing, HitsBatch, FinalizeCurrentBatch, IsChunkValid;
    BadWriteFailsBatch(libs, w.state, w.files, a.io.badWrite);
    UnclosedBatchFails(libs, w, a);
    ClosingCountsNothing(libs, w, a);
    assert [a] + arrivals + [end] == [a] + (arrivals + [end]);
    RunConcat(libs, w, [a], arrivals + [end]);
    RunOne(libs, w, a);
    FailedTransferEndsFailed(libs, Receive(libs, w, a), arrivals, end);
  }

  lemma ClosingCountsNothing(libs: Libraries, w: World, a: Arrival)
    requires AsksToClose(libs, w, a)
    ensures SameCounts(Receive(libs, w, a).stats, w.stats)
  {
    hide Decode, AdvanceToBatch, IsChunkValid, BufferParity;
  }

  // ---- How a published file goes ----

  /** Names of other transfers, their markers and partial files are not in the way of `n`. */
  lemma StartRemovesOnlyItself(
    libs: Libraries, w: World, path: string, size: nat, h: Field, parity: nat, io: Io, n: string)
    requires PlainName(n) && PlainName(path) && n in w.files && w.state.filePath != Some(n)
    requires w.state.filePath.Some? ==> PlainName(w.state.filePath.value)
    ensures n !in NewFile(libs, w, path, size, h, parity, io).files <==>
            w.state.filePath != Some(path) && path == n && AcceptsPath(libs, path)
  {
    PartialIsNotPlain(path, n);
    if w.state.filePath.Some? {
      PartialIsNotPlain(w.state.filePath.value, n);
    }
    hide Partial, FailedMarker, PlainName, AcceptsPath;
  }

  lemma ConcludeKeepsOthers(done: Finalized, stats: Stats, path: string, io: Io, n: string)
    requires done.state.filePath == Some(path) && PlainName(n) && path != n
    ensures n in Conclude(done, stats, path, io).files <==> n in done.files
  {
    hide Partial, FailedMarker, PlainName;
    PartialIsNotPlain(path, n);
  }

  /** A transfer that ends leaves every other plain name alone. */
  lemma FinishKeepsOthers(libs: Libraries, w: World, io: Io, n: string)
    requires WellFormed(w) && w.state.filePath.Some? && PlainName(n) && w.state.filePath != Some(n)
    ensures n in FinishFile(libs, w, io).files <==> n in w.files
  {
    hide BuffersFit, Partial, FailedMarker, PlainName, FinalizeCurrentBatch, Conclude;
    var path := w.state.filePath.value;
    FinalizeKeeps(libs, w.state, w.files, io.badWrite);
    FinalizeState(libs, w.state, w.files, io.badWrite);
    ConcludeKeepsOthers(if w.state.failed then Finalized(false, w.state, w.files)
                        else FinalizeCurrentBatch(libs, w.state, w.files, io.badWrite), w.stats, path, io, n);
  }

  /**
    A published file goes exactly when a START of its own path comes that the receiver accepts: also a late
    copy of the START it was sent with.
  */
  lemma GoesOnlyByOwnStart(libs: Libraries, w: World, a: Arrival, n: string)
    requires WellFormed(w) && InFlightPlain(w) && PlainStart(libs, a)
    requires PlainName(n) && n in w.files && w.state.filePath != Some(n)
    ensures n !in Receive(libs, w, a).files <==>
            NewStart(libs, w, a) && libs.lossyUtf8(Decode(a.raw).value.data) == n && AcceptsPath(libs, n)
  {
    hide WellFormed, Decode, NewFile, FinishFile, ReceiveData, ReceiveParity, PlainName, AcceptsPath;
    var decoded := Decode(a.raw);
    if decoded.Some? {
      var p := decoded.value;
      if p.pkgType == START {
        var parity := DecodeParityField(p.dataHash);
        StartRemovesOnlyItself(libs, w, libs.lossyUtf8(p.data), p.count, p.pathHash,
                               if parity.Some? then parity.value else 0, a.io, n);
      } else if w.state.filePath.Some? {
        HandlersKeepNames(libs, w, p, a.io.badWrite);
        FinishKeepsOthers(libs, w, a.io, n);
      }
    }
  }

  /** An accepted START of path `n`. */
  predicate StartsPath(libs: Libraries, a: Arrival, n: string) {
    var p := Decode(a.raw);
    p.Some? && p.value.pkgType == START && libs.lossyUtf8(p.value.data) == n && AcceptsPath(libs, n)
  }

  lemma OtherPathStaysOther(libs: Libraries, w: World, a: Arrival, n: string)
    requires WellFormed(w) && w.state.filePath != Some(n) && !StartsPath(libs, a, n)
    ensures Receive(libs, w, a).state.filePath != Some(n)
  {
    hide WellFormed, Decode, FinishFile, ReceiveData, ReceiveParity, MarkFailure, Partial, FailedMarker, AcceptsPath;
    if Decode(a.raw).Some? && w.state.filePath.Some? {
      HandlersKeepTransfer(libs, w, Decode(a.raw).value, a.io.badWrite);
      FinishFileEnds(libs, w, a.io);
    }
  }

  /**
    Over any run with plain paths: a published file stays, byte for byte, as long as no START of its own path
    comes.
  */
  lemma {:induction false} PublishedFileStays(libs: Libraries, w: World, arrivals: seq<Arrival>, n: string)
    requires WellFormed(w) && InFlightPlain(w) && PlainName(n) && n in w.files && w.state.filePath != Some(n)
    requires forall k :: 0 <= k < |arrivals| ==> PlainStart(libs, arrivals[k]) && !StartsPath(libs, arrivals[k], n)
    ensures var files := Run(libs, w, arrivals).files; n in files && files[n] == w.files[n]
    decreases |arrivals|
  {
    hide Receive, PlainStart, PlainName, WellFormed, InFlightPlain, StartsPath;
    if arrivals != [] {
      var w' := Receive(libs, w, arrivals[0]);
      ReceiveKeeps(libs, w, arrivals[0]);
      StepKeepsPlain(libs, w, arrivals[0]);
      OtherPathStaysOther(libs, w, arrivals[0], n);
      StepKeepsFile(libs, w, arrivals[0], n);
      PublishedFileStays(libs, w', arrivals[1..], n);
    }
  }

  lemma StepKeepsFile(libs: Libraries, w: World, a: Arrival, n: string)
    requires WellFormed(w) && InFlightPlain(w) && PlainName(n) && n in w.files && w.state.filePath != Some(n)
    requires PlainStart(libs, a) && !StartsPath(libs, a, n)
    ensures var files := Receive(libs, w, a).files; n in files && files[n] == w.files[n]
  {
    hide Receive, PlainStart, PlainName, WellFormed, Decode, AcceptsPath, FinalizeCurrentBatch, Partial;
    GoesOnlyByOwnStart(libs, w, a, n);
    if Appears(w.files, Receive(libs, w, a).files, n) {
      AppearsOnlyByPublication(libs, w, a, n);
    }
  }

  /** While a path is in flight, no file of that name is there. */
  predicate InFlightAbsent(w: World) {
    w.state.filePath.Some? ==> w.state.filePath.value !in w.files
  }

  lemma StepKeepsAbsent(libs: Libraries, w: World, a: Arrival)
    requires WellFormed(w) && InFlightAbsent(w)
    ensures InFlightAbsent(Receive(libs, w, a))
  {
    hide WellFormed, Decode, FinishFile, ReceiveData, ReceiveParity, MarkFailure, Partial, FailedMarker, AcceptsPath;
    if Decode(a.raw).Some? {
      var p := Decode(a.raw).value;
      NamesDiffer(libs.lossyUtf8(p.data));
      if w.state.filePath.Some? {
        HandlersKeepTransfer(libs, w, p, a.io.badWrite);
        HandlersKeepNames(libs, w, p, a.io.badWrite);
        FinishFileEnds(libs, w, a.io);
      }
    }
  }

  lemma {:induction false} RunKeepsAbsent(libs: Libraries, w: World, arrivals: seq<Arrival>)
    requires WellFormed(w) && InFlightAbsent(w)
    ensures InFlightAbsent(Run(libs, w, arrivals))
    decreases |arrivals|
  {
    hide Receive, WellFormed, InFlightAbsent;
    if arrivals != [] {
      ReceiveKeeps(libs, w, arrivals[0]);
      StepKeepsAbsent(libs, w, arrivals[0]);
      RunKeepsAbsent(libs, Receive(libs, w, arrivals[0]), arrivals[1..]);
    }
  }

  // ---- Failing writes ----

  /** The write that fails is one of the batch. */
  predicate HitsBatch(s: State, bad: Option<BadWrite>) {
    bad.Some? && BatchStart(s) <= bad.value.chunk < BatchStart(s) + CurrentDataSize(s)
  }

  lemma {:induction false} BadWriteStops(
    s: State, restored: map<nat, Bytes>, content: Bytes, pos: nat, i: nat, bad: Option<BadWrite>)
    requires HitsBatch(s, bad) && BatchStart(s) + i <= bad.value.chunk
    ensures !WriteChunks(s, restored, content, pos, i, bad).0
    decreases CurrentDataSize(s) - i
  {
    hide ChunkToWrite, WriteAt, BatchDataSize;
    var chunk := ChunkToWrite(s, restored, i);
    if chunk.Some? && !Fails(bad, BatchStart(s) + i) {
      BadWriteStops(s, restored, WriteAt(content, pos, chunk.value), pos + |chunk.value|, i + 1, bad);
    }
  }

  lemma BadWriteFailsBatch(libs: Libraries, s: State, files: Files, bad: Option<BadWrite>)
    requires HitsBatch(s, bad)
    ensures !FinalizeCurrentBatch(libs, s, files, bad).ok
  {
    hide WriteChunks, Restored, BatchDataSize;
    if Restored(libs, s).Some? && s.output.Some? {
      BadWriteStops(s, Restored(libs, s).value, Content(files, s.output.value), BatchStart(s) * CHUNK_SIZE, 0, bad);
    }
  }

  /** If a write of the last batch fails at END, the file is not published, however complete the batch is. */
  lemma BadWriteNeverPublishes(libs: Libraries, w: World, a: Arrival)
    requires w.state.filePath.Some? && Decode(a.raw).Some? && Decode(a.raw).value.pkgType == END
    requires HitsBatch(w.state, a.io.badWrite)
    ensures var w' := Receive(libs, w, a);
            && w'.state == FRESH && IsFailed(w'.files, w.state.filePath.value)
            && w'.stats == w.stats.(filesFailed := w.stats.filesFailed + 1)
  {
    hide FinalizeCurrentBatch, Conclude, IsFailed, Decode, HitsBatch;
    EndFinishes(libs, w, a);
    BadWriteFailsBatch(libs, w.state, w.files, a.io.badWrite);
    FinalizeState(libs, w.state, w.files, a.io.badWrite);
    ConcludeFails(if w.state.failed then Finalized(false, w.state, w.files)
                  else FinalizeCurrentBatch(libs, w.state, w.files, a.io.badWrite),
                  w.stats, w.state.filePath.value, a.io);
  }

  // ---- Rejected STARTs ----

  /**
    A START with a path the receiver does not accept, whatever the receiver is doing: a transfer in flight is
    given up as by any other START, the START itself is counted as one failure, and it leaves nothing in the
    directory.
  */
  lemma RejectedStart(libs: Libraries, w: World, a: Arrival)
    requires WellFormed(w) && NewStart(libs, w, a) && !AcceptsPath(libs, libs.lossyUtf8(Decode(a.raw).value.data))
    ensures var w' := Receive(libs, w, a);
            && w'.state == FRESH
            && w'.files == (if w.state.filePath.Some? then Abandon(w, w.state.filePath.value).files else w.files)
            && w'.stats == w.stats.(filesFailed := w.stats.filesFailed + if w.state.filePath.Some? then 2 else 1)
  {
    hide BuffersFit, Decode, MarkFailure, AcceptsPath;
  }

  /**
    A START that fails on an idle receiver leaves a failure marker exactly if its path is accepted (or the
    marker was there).
  */
  lemma MarkerOnlyIfAccepted(libs: Libraries, w: World, a: Arrival)
    requires w.state == FRESH && NewStart(libs, w, a) && Receive(libs, w, a).state.filePath.None?
    ensures var path := libs.lossyUtf8(Decode(a.raw).value.data); var w' := Receive(libs, w, a);
            && (FailedMarker(path) in w'.files <==> AcceptsPath(libs, path) || FailedMarker(path) in w.files)
            && w'.stats == w.stats.(filesFailed := w.stats.filesFailed + 1)
  {
    NamesDiffer(libs.lossyUtf8(Decode(a.raw).value.data));
    hide Decode, AcceptsPath, Partial, FailedMarker;
  }

  /**
    When a START begins a transfer on an idle receiver: exactly if its path is safe and without NUL, the file can
    be opened, and it can be sized or needs no bytes. Then the transfer is what the START says, at its first batch;
    parity that cannot be read counts as none.
  */
  lemma BeginsExactly(libs: Libraries, w: World, a: Arrival)
    requires w.state == FRESH && Decode(a.raw).Some? && Decode(a.raw).value.pkgType == START
    ensures var p := Decode(a.raw).value; var path := libs.lossyUtf8(p.data);
            var begins := libs.safePath(path) && '\0' !in path
                            && (a.io.open == Opened || (a.io.open == NotSized && p.count == 0));
            var w' := Receive(libs, w, a); var parity := DecodeParityField(p.dataHash);
            && w'.stats == (if begins then w.stats else w.stats.(filesFailed := w.stats.filesFailed + 1))
            && (if !begins then w'.state == FRESH
                else
                  && w'.state == FRESH.(filePath := Some(path), fileSize := p.count, pathHash := Some(p.pathHash),
                                        parityPerBatch := if parity.Some? then parity.value else 0,
                                        output := Some(Partial(path)))
                  && Partial(path) in w'.files && w'.files[Partial(path)] == Zeros(p.count)
                  && path !in w'.files && FailedMarker(path) !in w'.files && SameElsewhere(w'.files, w.files, path))
  {
    hide Decode, Partial, FailedMarker, DecodeParityField;
    NamesDiffer(libs.lossyUtf8(Decode(a.raw).value.data));
  }

  /**
    When the output file of an accepted path cannot be opened, or not be sized: what was there under the path is
    gone all the same, with its old marker, and a new empty marker is there; so is the partial file if it was created.
  */
  lemma FailedOpenExactly(libs: Libraries, w: World, a: Arrival)
    requires w.state == FRESH && Decode(a.raw).Some? && Decode(a.raw).value.pkgType == START
    requires AcceptsPath(libs, libs.lossyUtf8(Decode(a.raw).value.data))
    requires a.io.open == NotOpened || (a.io.open == NotSized && Decode(a.raw).value.count > 0)
    ensures var path := libs.lossyUtf8(Decode(a.raw).value.data); var w' := Receive(libs, w, a);
            && w'.state == FRESH && w'.stats == w.stats.(filesFailed := w.stats.filesFailed + 1)
            && path !in w'.files
            && FailedMarker(path) in w'.files && w'.files[FailedMarker(path)] == []
            && (Partial(path) in w'.files <==> a.io.open == NotSized)
            && (a.io.open == NotSized ==> w'.files[Partial(path)] == [])
            && SameElsewhere(w'.files, w.files, path)
  {
    hide Decode, Partial, FailedMarker, AcceptsPath;
    NamesDiffer(libs.lossyUtf8(Decode(a.raw).value.data));
  }

  // ---- A lost END ----

  /** Neither an END nor a START for another path. */
  predicate KeepsGoing(libs: Libraries, path: string, raw: Bytes) {
    var p := Decode(raw);
    p.Some? ==> p.value.pkgType != END && (p.value.pkgType == START ==> libs.lossyUtf8(p.value.data) == path)
  }

  /** All packets of a file, and what the receiver ignores while the file is in flight. */
  lemma EventsKeepGoing(libs: Libraries, src: Source, e: Event)
    requires Sendable(libs, src) && ValidEvent(libs, src, e)
    ensures KeepsGoing(libs, src.path, RawOf(libs, src, e))
  {
    hide Decode, EncodePacket, ParityShards, TotalChunks, BatchCount, Chunk;
    match e {
      case ChunkOf(c) =>
        ChunkCountFits(c, |src.data|);
        RoundTripFits(DataPacket(libs, src, c));
      case ParityOf(b, i) =>
        ParityCountFits(b, i, |src.data|);
        RoundTripFits(ParityPacket(libs, src, b, i));
      case Noise(_) =>
    }
  }

  lemma StepKeepsGoing(libs: Libraries, w: World, a: Arrival)
    requires WellFormed(w) && w.state.filePath.Some? && KeepsGoing(libs, w.state.filePath.value, a.raw)
    ensures var w' := Receive(libs, w, a);
            && w'.state.filePath == w.state.filePath && w'.files.Keys == w.files.Keys && SameCounts(w'.stats, w.stats)
  {
    hide WellFormed, Decode, ReceiveData, ReceiveParity, FinishFile, OpenTransfer;
    var decoded := Decode(a.raw);
    if decoded.Some? {
      HandlersKeepTransfer(libs, w, decoded.value, a.io.badWrite);
      HandlersKeepNames(libs, w, decoded.value, a.io.badWrite);
    }
  }

  lemma {:induction false} RunKeepsGoing(libs: Libraries, w: World, arrivals: seq<Arrival>)
    requires WellFormed(w) && w.state.filePath.Some?
    requires forall k :: 0 <= k < |arrivals| ==> KeepsGoing(libs, w.state.filePath.value, arrivals[k].raw)
    ensures var w' := Run(libs, w, arrivals);
            && w'.state.filePath == w.state.filePath && w'.files.Keys == w.files.Keys && SameCounts(w'.stats, w.stats)
    decreases |arrivals|
  {
    hide Receive, KeepsGoing, WellFormed;
    if arrivals != [] {
      ReceiveKeeps(libs, w, arrivals[0]);
      StepKeepsGoing(libs, w, arrivals[0]);
      RunKeepsGoing(libs, Receive(libs, w, arrivals[0]), arrivals[1..]);
    }
  }

  /**
    A lost END: after START, as long as no END and no START for another path comes, the transfer stays in
    flight. There is a partial file, but neither the file nor its failure marker.
  */
  lemma LostEndWaits(libs: Libraries, src: Source, w: World, start: Arrival, arrivals: seq<Arrival>)
    requires Sendable(libs, src) && w.state == FRESH
    requires start.raw == EncodePacket(StartPacket(libs, src)) && start.io.open == Opened
    requires forall k :: 0 <= k < |arrivals| ==> KeepsGoing(libs, src.path, arrivals[k].raw)
    ensures var w' := Run(libs, w, [start] + arrivals);
            && w'.state.filePath == Some(src.path) && SameCounts(w'.stats, w.stats)
            && Partial(src.path) in w'.files && src.path !in w'.files && FailedMarker(src.path) !in w'.files
  {
    hide Receive, KeepsGoing, WellFormed, EncodePacket, Partial, FailedMarker, OpenTransfer, AcceptsPath;
    StartOpens(libs, src, w, start);
    OpenResult(libs, w, src.path, |src.data|, PathHash(libs, src), BATCH_PARITY_CHUNKS, start.io);
    NamesDiffer(src.path);
    FreshIsWellFormed(w);
    ReceiveKeeps(libs, w, start);
    RunKeepsGoing(libs, Receive(libs, w, start), arrivals);
    assert ([start] + arrivals)[1..] == arrivals;
  }

  /** The next START for another plain path, accepted or not, makes that transfer a failure. */
  lemma LostEndIsAFailure(
    libs: Libraries, src: Source, w: World, start: Arrival, arrivals: seq<Arrival>, next: Arrival)
    requires Sendable(libs, src) && PlainName(src.path) && w.state == FRESH
    requires start.raw == EncodePacket(StartPacket(libs, src)) && start.io.open == Opened
    requires forall k :: 0 <= k < |arrivals| ==> KeepsGoing(libs, src.path, arrivals[k].raw)
    requires Decode(next.raw).Some? && Decode(next.raw).value.pkgType == START && PlainStart(libs, next)
    requires libs.lossyUtf8(Decode(next.raw).value.data) != src.path
    ensures IsFailed(Run(libs, w, [start] + arrivals + [next]).files, src.path)
  {
    hide Run, Decode, NewFile, KeepsGoing, IsFailed, PlainName, Sendable, EncodePacket, Partial, FailedMarker;
    LostEndWaits(libs, src, w, start, arrivals);
    RunConcat(libs, w, [start] + arrivals, [next]);
    var w' := Run(libs, w, [start] + arrivals);
    assert Run(libs, w', [next]) == Receive(libs, w', next) by { RunOne(libs, w', next); }
    var p := Decode(next.raw).value;
    var parity := DecodeParityField(p.dataHash);
    PreemptedFails(libs, w', libs.lossyUtf8(p.data), p.count, p.pathHash,
                   if parity.Some? then parity.value else 0, next.io);
  }

  lemma RunOne(libs: Libraries, w: World, a: Arrival)
    ensures Run(libs, w, [a]) == Receive(libs, w, a)
  {
    assert [a][1..] == [];
    hide Receive;
  }

  // ---- The same, from the start of the program ----

  lemma Reachable(libs: Libraries, stats: Stats, files: Files, arrivals: seq<Arrival>)
    ensures WellFormed(Run(libs, Idle(stats, files), arrivals))
  {
    hide *;
    FreshIsWellFormed(Idle(stats, files));
    RunKeeps(libs, Idle(stats, files), arrivals);
  }

  /**
    After any datagrams whatever: transferred, failed and in-flight files add up to the STARTs that were not
    repetitions.
  */
  lemma EveryStartIsAccountedFor(libs: Libraries, stats: Stats, files: Files, arrivals: seq<Arrival>)
    ensures var start := Idle(stats, files); var w := Run(libs, start, arrivals);
            && Accounted(w) == stats.filesTransferred + stats.filesFailed + NewStarts(libs, start, arrivals)
            && (w.state.filePath.None? ==> w.state == FRESH)
  {
    hide Run, NewStarts, WellFormed;
    FreshIsWellFormed(Idle(stats, files));
    TransfersConserved(libs, Idle(stats, files), arrivals);
  }

  /**
    At every point of every run, a final name appears only when END publishes the finalized, unfailed transfer
    of that name.
  */
  lemma PublishedOnlyByEnd(libs: Libraries, stats: Stats, files: Files, arrivals: seq<Arrival>, a: Arrival, n: string)
    ensures var w := Run(libs, Idle(stats, files), arrivals);
            PlainName(n) && Appears(w.files, Receive(libs, w, a).files, n) ==>
              && Decode(a.raw).Some? && Decode(a.raw).value.pkgType == END
              && w.state.filePath == Some(n) && !w.state.failed && a.io.renames
              && var done := FinalizeCurrentBatch(libs, w.state, w.files, a.io.badWrite);
                 done.ok && Partial(n) in done.files && Receive(libs, w, a).files[n] == done.files[Partial(n)]
  {
    hide Run, WellFormed, PlainName, Receive, Decode, FinalizeCurrentBatch, Partial;
    var w := Run(libs, Idle(stats, files), arrivals);
    Reachable(libs, stats, files, arrivals);
    if PlainName(n) && Appears(w.files, Receive(libs, w, a).files, n) {
      AppearsOnlyByPublication(libs, w, a, n);
    }
  }

  /**
    At every point of every run with plain paths, and whatever the file system does: the datagram that ends a
    transfer leaves exactly one of the file and its failure marker.
  */
  lemma EveryTransferEndsOneWay(libs: Libraries, stats: Stats, files: Files, arrivals: seq<Arrival>, a: Arrival)
    requires PlainStart(libs, a) && forall k :: 0 <= k < |arrivals| ==> PlainStart(libs, arrivals[k])
    ensures var w := Run(libs, Idle(stats, files), arrivals); var w' := Receive(libs, w, a);
            w.state.filePath.Some? && w'.state.filePath != w.state.filePath ==>
              OneOutcome(w'.files, w.state.filePath.value)
  {
    hide Run, WellFormed, PlainName, Receive, PlainStart, OneOutcome;
    var start := Idle(stats, files);
    FreshIsWellFormed(start);
    Reachable(libs, stats, files, arrivals);
    RunKeepsPlain(libs, start, arrivals);
    var w := Run(libs, start, arrivals);
    if w.state.filePath.Some? && Receive(libs, w, a).state.filePath != w.state.filePath {
      EndsOneWay(libs, w, a);
    }
  }

  /** At every point of every run with plain paths: a file goes exactly when an accepted START of its own path comes. */
  lemma FilesGoOnlyByOwnStart(
      libs: Libraries, stats: Stats, files: Files, arrivals: seq<Arrival>, a: Arrival, n: string)
    requires PlainStart(libs, a) && forall k :: 0 <= k < |arrivals| ==> PlainStart(libs, arrivals[k])
    requires PlainName(n)
    ensures var w := Run(libs, Idle(stats, files), arrivals);
            n in w.files ==> (n !in Receive(libs, w, a).files <==> StartsPath(libs, a, n))
  {
    hide Run, WellFormed, PlainName, Receive, PlainStart, AcceptsPath, Decode;
    var start := Idle(stats, files);
    FreshIsWellFormed(start);
    Reachable(libs, stats, files, arrivals);
    RunKeepsPlain(libs, start, arrivals);
    RunKeepsAbsent(libs, start, arrivals);
    var w := Run(libs, start, arrivals);
    if n in w.files {
      GoesOnlyByOwnStart(libs, w, a, n);
    }
  }
}
