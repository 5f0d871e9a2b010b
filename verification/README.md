# A model of the data diode and its proofs

This project models a one-way file transfer system in Dafny 4.11. A sender and a receiver are joined by a link
without a back channel; what the receiver publishes can rest only on index arithmetic, batch rules and forward
error correction. The project proves what the two programs promise to each other and to their users.

* **Files.** A file is cut into chunks of 940 bytes, a thousand chunks and a hundred parity shards to a batch. The
  receiver holds one batch at a time, rebuilds it, writes it and publishes the file by a rename. `Receiver.dfy` is
  the receiver as functions, `ReceiverObjects.dfy` is the same receiver as the mutable record, counters and
  directory it is written with (every method refines its function), `Sender.dfy` is the sender's loops.
  `Closing.dfy` is about single batches with anything in the buffers. `Transfer.dfy` to `Recovery.dfy` prove that the
  receiver, with its buffers, decoder and file, always agrees with a small tracker of chunk numbers (`Tracking.dfy`);
  the outcome of every transfer is decided by that tracker.
* **Hostile input.** `Accounting.dfy`, `Discipline.dfy` and `Counting.dfy` are about runs of arbitrary datagrams.
* **UDP forwarding.** `UdpForward.dfy` is the reassembler as a state machine with the clock as an input,
  `UdpObjects.dfy` its loop, `UdpDelivery.dfy` the sender's side and what arrives.
* **Pacing.** `Pacing.dfy` is the lock-free pacer, with the packets it spaces, as interleaved atomic steps;
  `PacerObjects.dfy` is one call of it as the loop it is, proved to be a run of those steps.
* **Formats.** `Wire.dfy` is the packet codec, `Calendar.dfy` and `Timestamp.dfy` the log timestamps.

Run `dafny verify dfyconfig.toml`.

## Assumptions

* `Erasure.Reliable`: for each batch size up to a thousand, any `k` of the `k + 100` shards give back the `k`
  originals. The Reed-Solomon library is not part of this model. `Erasure.SumCodeRecovers` proves the property of a
  concrete code with one parity shard, for every number of originals; that a code with a hundred exists is assumed.
  The assumption is used only where a batch is closed with chunks missing: `Transfer.Assured` is that or that no batch
  is closed so, and the results that require neither hold for any library.
* MD5 is an arbitrary function to 32 bytes. No injectivity is assumed: `Transfer.Ignored` says which datagrams count
  as foreign or corrupted, by their hashes.
* Opening, sizing, writing and renaming files succeed or fail as the environment (`Receiver.Io`) says, arrival by
  arrival; other file operations succeed.
* `Transfer.Sendable`: the path is accepted, survives the conversion to bytes and back, and the file is smaller than
  10^10 bytes. Larger sizes do not fit the count field of START (`Wire.LongCountIsLost`).

## Where the code and its documentation differ

* The documentation (`README.md:83-87`) promises a `.failed` marker for a rejected path. The code writes none
  (`diode_receive/src/main.rs:318-331`): `Discipline.RejectedStart`, and `Discipline.MarkerOnlyIfAccepted` says when a
  START that fails does leave its marker.
* The documentation (`README.md:117-123`) says a lost END ends in a failed rename. In the code the transfer stays in
  flight, with its partial file and without a marker (`Discipline.LostEndWaits`), until a START of another path makes
  it a failure (`Discipline.LostEndIsAFailure`, `diode_receive/src/main.rs:306-317`) or an END of any path finishes it
  (`Publication.EndFinishes`, `diode_receive/src/main.rs:1010-1012`).

What the documentation does not say:

* A transfer whose last batches are lost altogether is published with zeros in their place
  (`diode_receive/src/main.rs:531-536`): `Recovery.LostTailIsPublished` is such a run, and
  `Recovery.PublishedContent` says exactly when a published file is the source.
* A copy of its own START that arrives after END removes a published file (`diode_receive/src/main.rs:332`):
  `Discipline.GoesOnlyByOwnStart`. Among plain names nothing else does.
* A new file that cannot be sized stays behind as a partial file, with no transfer in flight
  (`diode_receive/src/main.rs:278-292`): `Discipline.UnsizedOpenLeavesPartial`, and `Discipline.RunTidies` says that
  there is no other way.

## Model

| member | source | states |
|---|---|---|
| Wire.RoundTrip | diode_common/src/proto.rs:39-68 | Decoding an encoded packet gives the packet back if and only if its type is one digit and its count is below 10^10 |
| Wire.LongCountIsLost | diode_common/src/proto.rs:51 | A count of eleven digits never comes back, whatever else the packet holds |
| Wire.DecodedRange | diode_receive/src/main.rs:82-95 | Every datagram the receiver can read has a one-digit type and a count below 10^10 |
| Wire.PaddedParses | diode_common/src/proto.rs:75-83 | Printing a number with padding and parsing it gives the number, for every width |
| Wire.ParityFieldRoundTrip | diode_common/src/proto.rs:71-83 | Every 64-bit count survives the parity field of START, and only zero is spelt like the unused hash |
| Wire.ParsesExactly | diode_receive/src/main.rs:82-95 | What parses as a number: at least one digit, with or without a plus before them, and a value within the type |
| Wire.Layout | diode_common/src/proto.rs:15-55 | The columns of a packet on the wire and the five type digits |
| Wire.PacketBuffer.EncodeInto | diode_common/src/proto.rs:39-57 | Whatever the reused buffer held before, it ends up holding exactly the encoded packet |
| Batches.ChunkPlacement | diode_receive/src/main.rs:441-466 | The write of every chunk stays inside the file, only the last chunk may be short, and it ends at the end of the file |
| Batches.ChunkInBatch | diode_receive/src/main.rs:188-204 | A chunk number decodes to batch b if and only if it lies within the data size of b |
| Batches.BatchSizes | diode_receive/src/main.rs:196-204 | Which batches are empty, full and last, including exact multiples and the empty file |
| Batches.Tiling | diode_receive/src/main.rs:436-477 | Every byte of a file is written by exactly one batch and loop index: the writes are disjoint and cover the file |
| Protocol.NumbersAgree | diode_send/src/main.rs:251-258 | Parity and chunk numbers decode, on the receiving side, to the batch and index the sender made them from |
| Protocol.ParityShardsComplete | diode_send/src/main.rs:222-249 | Every non-empty batch has a hundred parity shards of the shard size |
| Protocol.StartTells | diode_send/src/main.rs:173-191 | What a receiver reads from START: size, path, hash of the path and a hundred parity shards a batch |
| Protocol.EndTells | diode_send/src/main.rs:193-202 | What a receiver reads from END: the path, the number of 940-byte chunks that the size takes, and zeros for hashes |
| Erasure.SumCodeRecovers | diode_receive/src/main.rs:402-433 | A concrete code with one parity shard gives back any k originals from k of its k + 1 shards, for every k |
| ReceiverObjects.IsChunkValid | diode_receive/src/main.rs:155-186 | The checks on path hash, size and payload hash, in the order of the source |
| ReceiverObjects.BufferData | diode_receive/src/main.rs:206-229 | The buffer, the byte counts and the statistics after a chunk, with duplicates and the cap |
| ReceiverObjects.BufferParity | diode_receive/src/main.rs:231-248 | The same for a parity shard |
| ReceiverObjects.ResetTransfer | diode_receive/src/main.rs:250-260 | Counts the transfer, if there was one, and leaves a fresh state |
| ReceiverObjects.OutputDir.MarkFailure | diode_receive/src/main.rs:262-272 | The failure marker exists afterwards and nothing else changed |
| ReceiverObjects.OutputDir.OpenOutput | diode_receive/src/main.rs:278-292 | A file of zeros of the declared size, or one of the two ways to fail |
| ReceiverObjects.NewFile | diode_receive/src/main.rs:294-317 | What START does to the state, the counts and the directory, for repeated, preempting and fresh STARTs |
| ReceiverObjects.OpenTransfer | diode_receive/src/main.rs:318-356 | Rejection, clean-up of old names and opening |
| ReceiverObjects.Restore | diode_receive/src/main.rs:381-434 | The shards given to the decoder and what it returns |
| ReceiverObjects.OutputDir.Write | diode_receive/src/main.rs:476 | What a write leaves in the file, also when it fails after some of its bytes |
| ReceiverObjects.WriteBatch | diode_receive/src/main.rs:437-477 | The loop writes exactly the chunks of the batch, and stops at the first that is missing or whose write fails |
| ReceiverObjects.FinalizeCurrentBatch | diode_receive/src/main.rs:361-483 | The partial file, the state and the outcome after a batch is closed |
| ReceiverObjects.AdvanceToBatch | diode_receive/src/main.rs:488-504 | Batches are closed one by one up to the target, or the transfer fails on the way |
| ReceiverObjects.FinishFile | diode_receive/src/main.rs:524-536 | A failed transfer is not finalized; any other is, for its current batch only |
| ReceiverObjects.Conclude | diode_receive/src/main.rs:537-588 | Publication by rename, or a failure marker, and the counts |
| ReceiverObjects.Work | diode_receive/src/main.rs:922-1018 | The worker loop over any datagrams ends in the state, counts and directory of the specification |
| Accounting.BufferDataKeeps | diode_receive/src/main.rs:206-229 | A valid chunk is always taken: the cap on buffered bytes cannot fire and the buffered bytes stay exact |
| Accounting.BufferParityKeeps | diode_receive/src/main.rs:231-248 | The same for parity shards |
| Accounting.BufferedBound | diode_receive/src/main.rs:40-42 | One batch never holds more than 1,036,000 bytes |
| Accounting.WriteChunksInBounds | diode_receive/src/main.rs:441-477 | No write extends the output file beyond its declared size, complete batch or not |
| Accounting.AdvanceKeeps | diode_receive/src/main.rs:488-504 | The batch only moves forward, up to the target unless the transfer fails; only the partial file changes |
| Accounting.RunKeeps | diode_receive/src/main.rs:922-1018 | Accounting, file size and freshness when idle hold after every run from every state in which they hold |
| Accounting.BufferedAfterRun | diode_receive/src/main.rs:922-1018 | From program start, after any datagrams, the byte count is the sum of the buffered payloads and far below the 8 MiB cap |
| Tracking.TolerableLoss | diode_receive/src/main.rs:396-433 | Losing any 100 of the packets sent for a batch leaves enough of them |
| Tracking.CollectsHighest | diode_receive/src/main.rs:986-1008 | A transfer that has not failed is collecting the highest batch of which anything arrived |
| Tracking.SegmentStays | diode_receive/src/main.rs:986-1008 | Packets of a batch and of earlier ones, in any order, never fail a transfer that is ready for the batch |
| Tracking.GoodDeliveryCompletes | diode_receive/src/main.rs:986-1012 | Enough of every batch, in order, leaves the last batch complete |
| Transfer.WriteChunksFills | diode_receive/src/main.rs:436-477 | Rebuilt chunks turn a file filled up to a batch into one filled up to its end |
| Transfer.RestoredExact | diode_receive/src/main.rs:381-434 | The decoder is given enough of the right shards if and only if the batch is complete, and then rebuilds it |
| Transfer.FinalizeExact | diode_receive/src/main.rs:361-483 | Closing a batch succeeds exactly when enough of it arrived, and then extends the source prefix on disk by the batch |
| Exactness.AdvanceExact | diode_receive/src/main.rs:488-504 | A packet of a later batch is accepted exactly when it is the next batch and the current one is complete |
| Exactness.EventAgrees | diode_receive/src/main.rs:986-1008 | Every datagram moves the receiver, with its buffers and file, as it moves the tracker |
| Exactness.RunAgrees | diode_receive/src/main.rs:922-1018 | The same over every run during a transfer, and no other file changes |
| Publication.StartPreempts | diode_receive/src/main.rs:306-317 | Any START of another path during a transfer first abandons that one and then acts as on an idle receiver |
| Publication.MarkerReplacesFile | diode_receive/src/main.rs:262-272 | A failure marker replaces the file; one that is there keeps its content, and so does everything else |
| Publication.TransferExact | diode_receive/src/main.rs:294-588 | From START to END, whatever happens in between: the file is published if and only if the batch reached is complete and the rename works, with exactly which content; otherwise the marker is left |
| Tracking.FullDeliveryNeverDecodes | diode_receive/src/main.rs:381-384 | If every chunk arrives, batch by batch, no batch is closed with the help of the decoder |
| Closing.OriginalsFit | diode_receive/src/main.rs:400-411 | Whatever arrived, the decoder gets original shards of 960 bytes under numbers of the batch, each its chunk, padded |
| Closing.RecoveryFits | diode_receive/src/main.rs:412-421 | And recovery shards of 960 bytes, as they arrived, exactly those numbered within what START announced |
| Closing.NoParityNoRecovery | diode_receive/src/main.rs:384-390 | If START announced no parity, a batch with a chunk missing is never closed, whatever the library would say |
| Closing.TooFewNoRecovery | diode_receive/src/main.rs:391-396 | Nor is one with fewer packets than chunks |
| Closing.WrittenIfAvailable | diode_receive/src/main.rs:445-475 | A chunk is written, cut to its length, exactly if enough bytes arrived, or else came from the decoder, for it |
| Closing.ClosesExactly | diode_receive/src/main.rs:361-483 | Whatever is in the buffers, closing a batch succeeds exactly if it is empty or every chunk has its bytes and every write succeeds |
| Closing.EarlierChunksInPlace | diode_receive/src/main.rs:437-477 | Every chunk before the first that cannot be written stands in the file where it belongs, also if closing fails later |
| Closing.FirstFailureStops | diode_receive/src/main.rs:445-477 | Of the first chunk that cannot be written there is what its write kept; after that the file is as it was |
| Recovery.PublishedContent | diode_receive/src/main.rs:524-561 | A published file is the source up to the highest batch that arrived and zeros beyond; it equals the source if and only if the rest of the source is zeros, and always if the last batch was reached |
| Recovery.TolerableLossRecovers | diode_receive/src/main.rs:361-588 | With enough different packets of every batch, among duplicates, late packets, noise and corruption, exactly the source is published |
| Recovery.HundredLostPerBatchRecovers | diode_receive/src/main.rs:361-588 | When at most 100 of the packets sent for each batch are lost or corrupted, whichever they are, exactly the source is published |
| Recovery.EveryChunkArrives | diode_receive/src/main.rs:361-588 | When every chunk arrives, batch by batch, exactly the source is published, whatever becomes of the parity and for any encoder and decoder |
| Recovery.EveryDeliveryIsDecided | diode_receive/src/main.rs:922-1018 | Any list of files sent one after another, whatever happens to their packets: every path has exactly the outcome of its latest delivery, published content or marker, and every delivery is counted as one or the other |
| Recovery.EveryFileRecovers | diode_receive/src/main.rs:922-1018 | Any list of files sent one after another with tolerable loss is published and counted, file by file; of a path that is sent again the latest file is there |
| Recovery.LostTailIsPublished | diode_receive/src/main.rs:531-536 | A run in which a published file differs from its source, because all packets of the last batch were lost, whatever the code does |
| EndToEnd.SentIsReceived | diode_send/src/main.rs:285-371 | The datagrams the sender gets onto the wire for a file, whatever the encoder returns (at most a hundred shards, none if it fails) and whichever parity packets the socket refuses, delivered in order, make the receiver publish exactly that file; nothing is assumed of the decoder |
| Sender.ReadChunk | diode_send/src/main.rs:272-283 | Short and interrupted reads do not show: a chunk is full unless the file ends; a failed read is handed on at once, and success means that no read failed |
| Sender.SendParityPackets | diode_send/src/main.rs:222-270 | The parity datagrams of a batch, padded, numbered and hashed, and none without payloads; a refused one does not stop the others |
| Sender.PadWithBuffer | diode_send/src/main.rs:239-248 | The reused shard buffer gives every payload its own zero padding |
| Sender.SendWithRetry | diode_send/src/main.rs:159-171 | A control packet goes out the given number of times, but at least once, up to the first refusal |
| Sender.SendFileChunks | diode_send/src/main.rs:285-371 | However reads are split, three STARTs, all chunks 0..n-1 in batches each followed by its parity, and three ENDs, of which the socket refuses parity packets at most, and no read failed; if the file has no size, cannot be opened, read or removed, or anything else is refused, exactly which beginning of them went out; the file is removed only on success |
| Sender.ProgressIsPrefix | diode_send/src/main.rs:305-367 | What has been sent at any point of the loop is a beginning of what is to be sent |
| Sender.BatchPlaces | diode_send/src/main.rs:312-367 | A batch is its chunks, each once and in order, and then its hundred parity packets in order |
| Sender.SentInPlaces | diode_send/src/main.rs:285-371 | Where every batch stands among the datagrams of a file, and how many there are |
| Discipline.TransfersConserved | diode_receive/src/main.rs:250-356 | From any well-formed state: transferred, failed and in-flight files grow by exactly the STARTs that were not repetitions |
| Discipline.EveryStartIsAccountedFor | diode_receive/src/main.rs:250-356 | The same from program start, and without a path in flight the state is completely fresh |
| Discipline.AppearsOnlyByPublication | diode_receive/src/main.rs:524-588 | One datagram makes a final name appear or change only as END of the unfailed transfer of that name, with the finalized content |
| Discipline.PublishedOnlyByEnd | diode_receive/src/main.rs:524-588 | The same at every point of every run from program start |
| Discipline.StepTidies | diode_receive/src/main.rs:278-356 | At any datagram with a plain path, the only partial file stays that of the transfer in flight if and only if it is not a START whose file is created but cannot be sized |
| Discipline.RunTidies | diode_receive/src/main.rs:262-356 | Over every run with plain paths, the only partial file is at all times that of the transfer in flight if and only if no such START comes |
| Discipline.EndsOneWay | diode_receive/src/main.rs:294-588 | The datagram that ends a transfer leaves exactly one of the file and its failure marker and no partial file, whatever the file system does |
| Discipline.EveryTransferEndsOneWay | diode_receive/src/main.rs:262-588 | The same at every point of every run from program start |
| Discipline.BadWriteNeverPublishes | diode_receive/src/main.rs:437-477 | If a write of the last batch fails at END, the transfer ends with a marker and no file, however complete the batch is |
| Discipline.UnclosedBatchFails | diode_receive/src/main.rs:488-504 | If the current batch cannot be closed, for whatever reason, when a packet of a later one comes, the transfer has failed and stays at that batch |
| Discipline.FailedTransferEndsFailed | diode_receive/src/main.rs:524-549 | A failed transfer never recovers: whatever comes until END, short of a START of another path, it ends with a marker, no file and one failure counted |
| Discipline.BadWriteInTransferEndsFailed | diode_receive/src/main.rs:476-504 | A write that fails while a batch is closed in the middle of a transfer is never forgotten: the file is not published |
| Discipline.GoesOnlyByOwnStart | diode_receive/src/main.rs:332-334 | A published file disappears at a datagram if and only if that is an accepted START of its own path |
| Discipline.FilesGoOnlyByOwnStart | diode_receive/src/main.rs:332-334 | The same at every point of every run from program start |
| Discipline.PublishedFileStays | diode_receive/src/main.rs:332-334 | Over any run without a START of its path, a published file stays, byte for byte |
| Discipline.RejectedStart | diode_receive/src/main.rs:303-331 | A rejected path, whatever the receiver is doing: a transfer in flight is abandoned, the START is counted as one failure, and it leaves nothing in the directory |
| Discipline.MarkerOnlyIfAccepted | diode_receive/src/main.rs:318-345 | A START that fails on an idle receiver leaves its failure marker if and only if its path is accepted |
| Discipline.BeginsExactly | diode_receive/src/main.rs:318-356 | When a START begins a transfer on an idle receiver, for every path and file system, and exactly which transfer |
| Discipline.FailedOpenExactly | diode_receive/src/main.rs:332-345 | When the output file of an accepted path cannot be opened or sized: what was there under the path is gone, with its old marker, a new empty marker is there, and the partial file exactly if it was created |
| Discipline.LostEndWaits | diode_receive/src/main.rs:294-305 | After START, while neither END nor a START of another path comes, the transfer is in flight, with its partial file and neither the file nor its marker |
| Discipline.EventsKeepGoing | diode_receive/src/main.rs:971-1018 | All packets of a file, and all it ignores, are of that kind |
| Discipline.LostEndIsAFailure | diode_receive/src/main.rs:306-317 | The next START of another plain path, accepted or not, leaves the transfer without END with a failure marker and no file |
| Counting.NeverTwice | diode_receive/src/main.rs:206-229 | Within a transfer, whatever arrives, the batch never goes back and no chunk number is buffered twice, across batches |
| Counting.FirstArrivalWins | diode_receive/src/main.rs:206-248 | While a batch is collected, whatever comes, nothing that is buffered is lost or replaced |
| Counting.ProgressNeverPassesSize | diode_receive/src/main.rs:206-229 | On the sender's packets the progress counter never exceeds the file size |
| Counting.BytesAreCountedInFull | diode_receive/src/main.rs:217-223 | At every point of every run a chunk that is taken is counted with all its bytes: the counter of the transfer never saturates |
| Counting.TotalIsExact | diode_receive/src/main.rs:221-223 | Over any run the total grows by the bytes of the chunks taken and of the UDP packets to forward, as long as it stays within 64 bits |
| UdpForward.OnlyWholeDatagrams | diode_receive/src/main.rs:654-770 | Against any packets: every forwarded datagram is put together, in order, from arrivals counted 0, 1, 2, ... of one id and one declared size, has exactly that size within 4 MiB, and shares no arrival with another |
| UdpForward.RunKeeps | diode_receive/src/main.rs:597-634 | A live flow is neither empty nor complete, and an idle forwarder is fully cleared, so the remaining length never underflows |
| UdpForward.ForeignPacketsDoNotMatter | diode_receive/src/main.rs:705-744 | Taking away packets of other ids that met a live flow changes neither what is sent nor the state |
| UdpForward.TakesOverExactly | diode_receive/src/main.rs:680-736 | When a first fragment takes over, in sizes and clock readings: exactly if it could start a flow and nothing is in flight, or its own flow, or one without a fragment for more than two seconds; else it changes nothing |
| UdpForward.OutOfTurnChangesNothing | diode_receive/src/main.rs:738-751 | A continuation leaves the flow as it is exactly if it is not the next fragment of it by id, number and declared size |
| UdpForward.InTurnIsTakenOrFatal | diode_receive/src/main.rs:752-769 | The next fragment is taken if its payload has 1 to 940 bytes and is not too long, and else ends the flow |
| UdpForward.UnreadableSizeIgnored | diode_receive/src/main.rs:667-676 | A packet whose size field is not a number changes nothing |
| UdpObjects.UdpForwardState.Reset | diode_receive/src/main.rs:628-633 | Every trace of the flow but its last activity is dropped |
| UdpObjects.UdpForwardState.HandleFirst | diode_receive/src/main.rs:680-737 | The first fragment: limits, re-arm rules, and completion in one fragment |
| UdpObjects.UdpForwardState.HandleNext | diode_receive/src/main.rs:742-769 | A continuation: what is ignored, what drops the flow, what extends and completes it |
| UdpObjects.ForwardUdpPackets | diode_receive/src/main.rs:636-771 | The loop sends exactly what the state machine sends and ends in its state |
| UdpDelivery.SendDatagram | diode_send/src/main.rs:458-480 | Every fragment of a datagram, numbered from zero, and all of them twice; nothing for an empty one |
| UdpDelivery.FragmentSurvives | diode_send/src/main.rs:463-478 | Every fragment comes back from the wire as it was |
| UdpDelivery.FragmentIsSafe | diode_receive/src/main.rs:680-769 | A genuine fragment keeps the buffer a proper prefix of the datagram, of a whole number of chunks, and completes only to the datagram |
| UdpDelivery.OnlyThisDatagram | diode_receive/src/main.rs:662-770 | If all packets with a datagram's id are its fragments, then among any other packets whatever they cause to be sent is that datagram |
| UdpDelivery.OnlyGivenDatagrams | diode_receive/src/main.rs:662-770 | On genuine traffic, lost, repeated and reordered at will, everything forwarded is a datagram the sender was given |
| UdpDelivery.EveryDatagramTwice | diode_receive/src/main.rs:680-769 | Without loss and in order, an idle forwarder sends every non-empty datagram exactly twice, in order |
| UdpDelivery.AcrossTheDiode | diode_send/src/main.rs:458-480 | The same from the bytes the sender puts on the wire |
| UdpDelivery.OneIntactCopy | diode_receive/src/main.rs:695-727 | One intact copy and any in-order part of the other, before or after it, give one or two forwards of the datagram and nothing else, from an idle, same-id or stale forwarder |
| UdpDelivery.DisturbedCopyDelivers | diode_receive/src/main.rs:695-744 | With any packets of other ids, and any repeated or out-of-turn fragments of its own, in between, a datagram once taken up is forwarded exactly once |
| UdpDelivery.TwoPartsMakeOne | diode_receive/src/main.rs:738-769 | A copy that is cut and another that has lost its beginning, together without a gap, give exactly one forward |
| UdpDelivery.AbandonedFlowIsReleased | diode_receive/src/main.rs:590-595 | More than two seconds after the last accepted fragment, an intact copy of any datagram is forwarded exactly once, whatever is in flight |
| Pacing.RefinesQueue | diode_send/src/main.rs:54-72 | Under every interleaving, with stale loads and spurious failures, the slots are those of a queue in the order of the exchanges |
| Pacing.GapIsKept | diode_send/src/main.rs:54-72 | Two grants are at least the interval apart if and only if the first slot ends within 64 bits, and no slot precedes its caller's clock reading |
| Pacing.SlotIsEarliest | diode_send/src/main.rs:60-62 | No slot is later than it has to be: it is its caller's clock reading or one interval after the slot before it |
| Pacing.RateIsBounded | diode_send/src/main.rs:54-72 | A window of length W holds at most W / interval + 1 slots |
| Pacing.WireIsBounded | diode_send/src/main.rs:132-137 | In any window of length W of any execution at most W / interval + 1 packets go out, and one more for each thread |
| Pacing.ReturnsAreBounded | diode_send/src/main.rs:54-83 | By clock reading T no more than T / interval + 1 calls have returned, over all threads |
| PacerObjects.SharedPacer.Reserve | diode_send/src/main.rs:59-72 | The exchange loop, however disturbed, terminates and is failed exchanges followed by the one that is granted the slot |
| PacerObjects.SharedPacer.SleepUntil | diode_send/src/main.rs:73-82 | The call ends as soon as the clock shows the slot, late only by what sleeps are late, after at most a million readings |
| PacerObjects.SharedPacer.Wait | diode_send/src/main.rs:54-83 | While other threads act at any time, the call is a run of its own steps of the machine; it returns no earlier than the slot granted to it, and no later than that slot or its second reading of the clock, but for late sleeps; without an interval it touches nothing |
| Calendar.DateIsCorrect | diode_common/src/logging.rs:43-53 | For every day number the computed date is a calendar date, and exactly that many days after 1970-01-01 |
| Calendar.Inverse | diode_common/src/logging.rs:43-53 | Every calendar date comes back from its day count |
| Calendar.FollowsTheCalendar | diode_common/src/logging.rs:43-53 | Day zero is 1970-01-01 and the next day number is the next calendar day, by the Gregorian leap rule |
| Calendar.PrintedDateExact | diode_common/src/logging.rs:53 | The printed date is right if and only if its year fits 32 bits |
| Timestamp.StampReadsBack | diode_common/src/logging.rs:40-54 | For every second from 1970 on, the 23 characters read back as the very instant if and only if the year has four digits |
| Timestamp.Separators | diode_common/src/logging.rs:54 | The separators of a timestamp, column by column |
| Timestamp.FmtNowReadsBack | diode_common/src/logging.rs:36-55 | For every system clock, the line gives back its time if and only if that is not before 1970 and its year has four digits |

## Left out

- Sockets, threads, channels and buffer sizes. The retry with back-off on a full send queue does not show: a datagram is taken or refused.
- Command lines, directory walking and stability polling.
- Reed-Solomon field arithmetic, MD5 and SHA-256: the first two are parameters, the digest is only logged. Flushing the output file, whose errors the source ignores.
- `is_safe_rel_path` and `log_safe`: which paths are accepted is a parameter.
- Recovery of poisoned locks, which depends on the Rust runtime and bypasses the counters.
- `Pacer::from_bitrate_mbps`: the interval is a parameter.
- Display, serial port, system log and the file splitting scripts.
- The result of `send_parity_packets`: an encoder error leaves a batch without parity packets here as in the source, which only logs it (`diode_send/src/main.rs:331-345`).
- Erasure.SumCodeRecovers: shows the property for one parity shard; that it holds for a hundred is the assumption on the library.
- The path on disk: an output directory is a map from names to contents, without subdirectories, links or permissions.
- Wrap-around of the counts of transferred and failed files and of the total of UDP bytes: these are unbounded here; the sums of bytes that saturate in the source saturate here.
- Sender.SendFileChunks: the size in START is the size that is then read; a file that changes while it is sent is not modelled.
- UdpObjects.ForwardUdpPackets: a failed send to the internal host, which the source logs and ignores, counts as sent.
- Pacing.RateIsBounded: stated for windows that end at least one interval before the largest 64-bit number; beyond that the source's deadline saturates, as `Pacing.GapIsKept` says. The same holds for `Pacing.WireIsBounded` and `Pacing.ReturnsAreBounded`.
