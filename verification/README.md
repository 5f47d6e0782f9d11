# Verified model of metra's transfer core

metra moves large files over QUIC. The client cuts a file into lanes and sends each lane on its own
stream; the server writes all lanes into one staging file, records its progress in a small
checkpoint, and renames the staging file when every lane is at its end. An upload can be interrupted
anywhere and resumed.

This project models that core in Dafny and proves what it promises, over all interleavings, all
interruptions and all inputs. There are four parts.

**Striped upload on the server.** `ranges.dfy` cuts a file into lanes, in 64-bit arithmetic;
`checkpoint.dfy` has the checkpoint and its rounding; `admission.dfy` opens a lane.
`striped_upload.dfy` is a step system of lane handlers, disconnects and power losses.
`striped_safety.dfy` proves crash consistency and the contents of the renamed file under any lock
discipline; `striped_progress.dfy` proves when stored offsets rise and fall, the lag of the checkpoint
and the number of sessions; `striped_recovery.dfy` proves that an upload can always still be completed,
and the exact condition of the lag bound under one lock. `striped_locks.dfy` runs the upload under the
server's table of checkpoint locks and shows when all tasks share one lock; `striped_lock_race.dfy` has
the run in which they do not, and the exact condition of the lag bound in the server as it is.
`finalize_race.dfy` and `finalize_once.dfy` are the race of the lanes to finalize, with finalize locks
known by identity too. `lane_writer.dfy` is the disk writer's loop with the order of its writes, syncs
and records; `app_state.dfy` and `leases.dfy` are the shared state and the lane leases.
`single_lane.dfy` is the upload of a file on one stream.

**Sender, frames and pipelines.** `frames.dfy` is the wire format, with the cipher as a pair of
functions `seal` and `open` that satisfy two laws: opening what was sealed gives it back, and sealing
adds 16 bytes (section 2.8 of RFC 8439); `Frames.LawfulAeadExists` shows that the laws can be met. `frame_loop.dfy` and `lane_codec.dfy` are the server's
frame-reading loop and the round trip through it. `send_pipeline.dfy` and `receive_pipeline.dfy` are
the three-stage pipelines of both sides, under every schedule and with failing stages.
`lane_transfer.dfy` joins them with the disk writer: a lane from the client's file to the server's.

**The session report.** `session_report.dfy` joins the lanes on the client: the byte totals and the
fold of the acknowledgements. `client_session.dfy` derives what each lane reports from its send loop.

**Tuning.** `policy_store.dfy` is the policy list and the selection from it, used by
`lane_policy.dfy` and `runtime_policy.dfy`; `percentile.dfy` has the throughput summaries;
`sorting.dfy` the library sort they rely on.

`common.dfy` holds constants, machine integers and sums.

## Storage and concurrency

- Each step of a system is one action of one task between two points where another task can act.
  Loading and storing the checkpoint are separate steps. In `striped_upload.dfy`, `Config.locked` says
  whether all tasks share one checkpoint lock, and safety is proved for both values.
  `striped_locks.dfy` derives which of them applies: the table of locks, which a terminal status
  empties, gives every run one lock until the first terminal status.
- The operations on a transfer's directory (create the staging file, replace or remove the
  checkpoint, rename) become durable in order. A power loss keeps some prefix of them.
- A byte of the staging file that was never synced may be anything after a power loss. A synced byte
  keeps its value. Overwriting a byte adds the new value to what a power loss may leave, so writing
  the same value again keeps the byte durable.
- The sender is honest: it sends the source's bytes from the acknowledged offset on. What it sends
  may be cut off after any byte.
- Times are opaque, ordered values. Throughput is in real numbers, not floating point.

## Findings

- Lag of the checkpoint behind the disk. The bound of 2 MiB for a writer that waits for its next chunk
  holds in the server, with its table of locks and with failing streams, exactly when there is one lane
  or no lane has 2 MiB (`StripedLockRace.LagBoundIff`). A failed stream sets a terminal status, which
  drops the checkpoint lock from the table (crates/metra-server/src/quic.rs:1293-1295); a lane that is
  between load and store at that moment can then put another lane's stored offset back
  (`StripedLockRace.FailedStreamSetsBack`). Until the first terminal status the bound always holds
  (`StripedLocks.LagBelowUntilTerminal`).
- Even with one lock for all tasks the bound holds exactly when the destination may be written, or
  there is one lane, or no lane has 2 MiB (`StripedRecovery.LagBoundIff`): a rejected finalize removes
  the checkpoint (crates/metra-server/src/quic.rs:1183) without that lock.
- Disjoint writers. For the same reason, live accepted handlers of a transfer own disjoint ranges in
  every run exactly when all lane counts that its opens name cut the file in the same way
  (`Leases.DisjointIff`): after a removal, while handlers are still live, the next open creates
  whatever layout it names.
- The client normalizes its lane count to the file size but not to the server's limit of 64 lanes;
  `Admission.ClientOpensAcceptedIff` says exactly when its opens are accepted.
- The client accepts any positive I/O chunk, while a frame carries at most 64 MiB;
  `SendPipeline.LaneEncoderAcceptsIff` and `LaneCodec.SendGeneratedLane` say exactly when a lane can
  be encoded.
- The stability factor's clamp only ever acts on a negative median:
  `Percentile.StabilityClampIsNoOpIff`.

## Model

| member | source | states |
|---|---|---|
| Ranges.SplitRanges | crates/metra-server/src/quic.rs:1511-1524 | the server's loop, in 64-bit arithmetic that never wraps, yields lane i from `i*base + min(i, remainder)` to the start of lane i+1 |
| Ranges.LanesPartitionFile | crates/metra-client/src/transfer.rs:2843-2856 | every byte of the file lies in exactly one lane |
| Ranges.LanesDisjoint | crates/metra-client/src/transfer.rs:2843-2856 | two lanes never overlap |
| Ranges.LanesBalanced | crates/metra-client/src/transfer.rs:2843-2856 | lane lengths differ by at most one byte, longer lanes first |
| Ranges.LanesNonEmptyIff | crates/metra-client/src/transfer.rs:2829-2832 | no lane is empty exactly when there are at least as many bytes as lanes |
| Admission.OpenAcceptedIff | crates/metra-server/src/quic.rs:343-368 | which opens are accepted and as what, in the fields of the message: at most 64 lanes, an index below the count, a range inside the file; 0 lanes is one, a range end of 0 is the end of the file, and exactly one lane over the whole file is not striped |
| Admission.NormalizedLaneCount | crates/metra-client/src/transfer.rs:2829-2832 | the requested count, raised to 1 and lowered to the file size |
| Admission.ClientOpensAcceptedIff | crates/metra-server/src/quic.rs:343-368 | on every lane of every non-empty file, the server accepts the client's open as the range it meant, without its end-of-file default, exactly when there are at most 64 lanes |
| Admission.ClientOpensMatchLayoutIff | crates/metra-server/src/quic.rs:170-208 | an accepted lane passes the layout check against any reachable checkpoint made for that lane count, and against none made for another |
| Checkpoint.DurableIsGreatestResumePoint | crates/metra-server/src/quic.rs:1477-1484 | the rounded offset is the greatest legal resume point (lane start, multiple of 1 MiB, lane end) not above the offset |
| Checkpoint.FixedPointsAreResumePoints | crates/metra-server/src/quic.rs:1477-1484 | the fixed points of the rounding are exactly the legal resume points |
| Checkpoint.DurableMonotone | crates/metra-server/src/quic.rs:1477-1484 | rounding keeps order |
| Checkpoint.DurableLag | crates/metra-server/src/quic.rs:1477-1484 | rounding gives up less than 1 MiB and stays in the lane |
| Checkpoint.ValidateLayout | crates/metra-server/src/quic.rs:170-208 | accepts an open exactly for the first entry of its lane index, with equal file size, lane count and range; each refusal is the first check that fails |
| Checkpoint.NewIsCanonical | crates/metra-server/src/quic.rs:1490-1509 | a new checkpoint has the transfer's id and layout, legal resume points and no bytes transferred |
| Checkpoint.CanonicalValidates | crates/metra-server/src/quic.rs:170-208 | every lane of the transfer's own layout passes the check against every reachable checkpoint |
| Checkpoint.ReopenedIsIdentity | crates/metra-server/src/quic.rs:1350-1351 | reloading a reachable checkpoint lowers no offset: it changes nothing |
| Checkpoint.RaisedStaysCanonical | crates/metra-server/src/quic.rs:1367-1372 | an update keeps a checkpoint reachable, raises its own lane to the durable part of the new offset if that is higher, and leaves the other lanes alone |
| Checkpoint.TotalTransferredBounded | crates/metra-server/src/quic.rs:150-162 | the transferred total never exceeds the file size, and equals it exactly when all lanes are complete |
| Checkpoint.TotalAfterSet | crates/metra-server/src/quic.rs:150-155 | setting one lane's offset changes the total by exactly what that lane counts more or less; with the total of 0 of a new checkpoint this fixes the total |
| Checkpoint.OpenOutcome | crates/metra-server/src/quic.rs:1330-1354 | every open against every stored checkpoint: a refused one answers with the first check that fails and leaves the stored checkpoint as it was, or a fresh one if there was none; an accepted one changes at most the offset of its own entry, and answers with it and with the bytes transferred |
| Checkpoint.UpdateOutcome | crates/metra-server/src/quic.rs:1357-1376 | every update of every stored checkpoint: refused, with nothing changed, without a checkpoint or without the lane; otherwise only the lane's offset changes, to the later of the stored and the new durable one, and the answered total grows by what the lane gained |
| Checkpoint.ReopenResumesAtStoredOffset | crates/metra-server/src/quic.rs:1320-1355 | opening any lane keeps the checkpoint (or creates it) and resumes at its stored offset |
| Checkpoint.UpdateRaisesOwnLane | crates/metra-server/src/quic.rs:1357-1376 | updating any lane of a reachable checkpoint succeeds, raises that lane only, and answers with a total that has grown by as many bytes as the offset |
| Checkpoint.CheckpointFile.LoadOrInitLaneResume | crates/metra-server/src/quic.rs:1320-1355 | file contents and answer, on every checkpoint and every open; a refused open leaves the file as it was, or a fresh checkpoint if there was none |
| Checkpoint.CheckpointFile.UpdateCheckpointOffset | crates/metra-server/src/quic.rs:1357-1376 | file contents and answer, also without a checkpoint or without the lane; an error changes nothing |
| StripedSafety.CrashConsistency | crates/metra-server/src/quic.rs:837-885 | in every run, with lost checkpoint updates allowed, every byte the stored checkpoint claims is durably in the staging file with the source's value, whatever a power loss does next |
| StripedSafety.CompleteMeansWholeFile | crates/metra-server/src/quic.rs:158-162 | a sound checkpoint whose lanes are all complete covers the whole file |
| StripedSafety.RenamedFileIsSource | crates/metra-server/src/quic.rs:1162-1181 | in every run, the file that is renamed has the source's length and bytes, and no later power loss changes it; a destination is also only refused to such a file |
| StripedSafety.FinalizesOnlyWholeLanes | crates/metra-server/src/quic.rs:567-608 | in every run, a lane goes on to finalize only when every byte of its range is durable |
| StripedSafety.GivesUpOnlyIfIncomplete | crates/metra-server/src/quic.rs:1162-1170 | a lane leaves the rename to others only when the checkpoint it has loaded lacks part of some lane |
| StripedSafety.MissingCheckpointEndsHandler | crates/metra-server/src/quic.rs:1363 | a handler that finds no checkpoint to update or to finalize ends, and brings none back |
| StripedSafety.SyncsWhenDue | crates/metra-server/src/quic.rs:847-880 | in every run, a writer syncs and records only when 1 MiB has gathered, or for what is left when its stream has ended |
| StripedSafety.NextKeepsInv | crates/metra-server/src/quic.rs:335-608 | every step of every handler, and every power loss, keeps all checkpoints in the directory log and in memory sound |
| StripedProgress.LagBound | crates/metra-server/src/quic.rs:837-880 | with one checkpoint lock, as long as no checkpoint was removed or with one lane, a waiting writer is less than 2 MiB ahead of the stored offset, and less than 1 MiB once the stream has ended |
| StripedProgress.ShortLaneLag | crates/metra-server/src/quic.rs:837-880 | when no lane has 2 MiB, none lags by 2 MiB, under any lock discipline and after any removal |
| StripedProgress.WhatSetsBack | crates/metra-server/src/quic.rs:1181-1189 | with one lock, what sets a lane back is a power loss or the removal after a rejected finalize |
| StripedProgress.UsefulSessionsComplete | crates/metra-server/src/quic.rs:1347-1354 | with one lock, a permitted destination and no power loss, `end/C - start/C + 1` useful sessions complete a lane |
| StripedProgress.StoredOffsetsOnlyRise | crates/metra-server/src/quic.rs:1370-1372 | with one checkpoint lock, no lane step lowers any stored offset |
| StripedProgress.UsefulSessionRaisesOffset | crates/metra-server/src/quic.rs:866-880 | a session that wrote 1 MiB or reached the lane's end leaves the stored offset above where it resumed |
| StripedProgress.UsefulSessionsBounded | crates/metra-server/src/quic.rs:1347-1354 | over all disconnects and restarts a lane has at most `end/C - start/C + 1` useful sessions, and is complete after that many |
| StripedRecovery.LaneSession | crates/metra-server/src/quic.rs:457-608 | one undisturbed session from wherever the checkpoint stands receives the whole lane and changes only that lane's offset, to its end |
| StripedRecovery.AlwaysRecoverable | crates/metra-server/src/quic.rs:335-608 | from every state any run reaches before the rename, with a permitted destination, breaking off what is going on and opening each lane at most once, in order, leads to the rename of a file equal to the source |
| StripedRecovery.NeverRenamedUnlessPermitted | crates/metra-server/src/quic.rs:1211-1242 | with a refused destination no run ever renames |
| StripedRecovery.LagBoundIff | crates/metra-server/src/quic.rs:837-880 | with one lock, no waiting writer of any run lags by 2 MiB if and only if the destination is permitted, or there is one lane, or no lane has 2 MiB |
| StripedLocks.RunsAreUploads | crates/metra-server/src/state.rs:86-106 | every run under the table of checkpoint locks is a run of the upload under any lock discipline, so that crash consistency and the contents of the rename carry over |
| StripedLocks.SingleLockUntilTerminal | crates/metra-server/src/state.rs:86-106 | until the first terminal status, or always with one lane, it is a run with one checkpoint lock and no removal |
| StripedLocks.LagBelowUntilTerminal | crates/metra-server/src/quic.rs:837-880 | so until then no waiting writer lags by 2 MiB |
| StripedLocks.OffsetsRiseUntilTerminal | crates/metra-server/src/quic.rs:1357-1376 | and no lane's step lowers a stored offset |
| StripedLocks.FailingHasCause | crates/metra-server/src/quic.rs:1299-1317 | a lane marks the transfer failed only after it has seen it Running, or when it has refused the destination |
| StripedLockRace.FailedStreamSetsBack | crates/metra-server/src/quic.rs:1293-1317 | with two lanes or more and a first lane of 2 MiB or more, a run in which a failed stream gives two tasks different locks, and one lane's store lowers the stored offset of another that waits 2 MiB ahead of it |
| StripedLockRace.LagBoundIff | crates/metra-server/src/quic.rs:837-880 | under the table of locks, no waiting writer of any run lags by 2 MiB if and only if there is one lane or no lane has 2 MiB |
| StripedRecovery.LagBoundFailsAfterRejection | crates/metra-server/src/quic.rs:1181-1189 | for two lanes and any file of 4 MiB or more, a run with a rejected finalize in which a waiting writer is 2 MiB or more ahead of the stored offset |
| FinalizeOnce.FinalizedExactlyOnce | crates/metra-server/src/quic.rs:1133-1191 | every maximal interleaving answers every lane within a bounded number of steps and removes the checkpoint; if the destination is free, or may be overwritten and is not immutable, it ends Completed after exactly one rename, every lane acknowledged and the client's fold Completed; if it is occupied, and immutable or not to be overwritten, it ends Failed without a rename |
| FinalizeOnce.CompletedIsFinal | crates/metra-server/src/quic.rs:1145-1160 | within a session Completed is never left and there is never a second rename |
| FinalizeOnce.CompleteIffFinished | crates/metra-server/src/quic.rs:1162-1170 | the loaded checkpoint is complete exactly when every lane has recorded its end |
| FinalizeOnce.AloneWhileRunning | crates/metra-server/src/quic.rs:1141-1142 | until a terminal status is set, only one lane is in the critical section |
| FinalizeOnce.DroppedLockIsGone | crates/metra-server/src/state.rs:97-106 | once a lane has dropped the finalize lock after a terminal status, no lane that asks later is given that lock |
| FinalizeOnce.RunningUntilFinished | crates/metra-server/src/quic.rs:484 | a transfer is Running for as long as a lane that has started is not at its end |
| FinalizeOnce.UnansweredLaneCanMove | crates/metra-server/src/quic.rs:1133-1191 | no deadlock: a lane without an answer can move, or the lane holding its lock can |
| FinalizeOnce.StepKeepsInv | crates/metra-server/src/quic.rs:1193-1276 | every step of the race keeps the invariant, with locks that change identity |
| LaneWriter.WriteLane | crates/metra-server/src/quic.rs:831-885 | striped or not, for any chunk sizes, the file holds the chunks at the resume offset, all of it synced, checkpoint and counter show it, and the journal of writes, syncs and records is WriterOps of the chunks; without a checkpoint the writer fails and does not bring it back |
| LaneWriter.WriterKeepsOrder | crates/metra-server/src/quic.rs:837-880 | that journal records every byte in the end, none before a sync that covers it, and with less than 1 MiB not yet recorded before each chunk |
| LaneWriter.SyncsAreFew | crates/metra-server/src/quic.rs:856-880 | and it syncs at most once per 1 MiB written, and once at the end |
| LaneWriter.TakeChunk | crates/metra-server/src/quic.rs:837-865 | one turn of the loop: the chunk is written, and synced before it is recorded when 1 MiB has gathered |
| LaneWriter.FinishLane | crates/metra-server/src/quic.rs:866-885 | after the channel closes, what is not yet recorded is synced and recorded, and nothing otherwise |
| LaneWriter.PersistProgress | crates/metra-server/src/quic.rs:1009-1029 | checkpoint and counter after recording an offset, capped at the file size |
| LaneWriter.RaisedTwice | crates/metra-server/src/quic.rs:1370-1372 | raising a lane twice is raising it once to the later offset |
| AppState.State.TryAcquireLaneWriter | crates/metra-server/src/state.rs:59-65 | succeeds exactly when the lane is free; a refusal changes nothing |
| AppState.State.ReleaseLaneWriter | crates/metra-server/src/state.rs:67-73 | frees that lease and no other |
| AppState.State.FinalizeLockFor | crates/metra-server/src/state.rs:75-84 | the lock in the table, or a new one that is then in the table |
| AppState.State.CheckpointLockFor | crates/metra-server/src/state.rs:86-95 | the same for checkpoint locks |
| AppState.State.ClearTransferLocks | crates/metra-server/src/state.rs:97-106 | forgets both locks of that transfer and of no other |
| AppState.State.SetTransferStatus | crates/metra-server/src/quic.rs:1278-1298 | status and capped counter of a known transfer; a terminal status of a known one forgets its locks; an unknown one changes nothing |
| Leases.LeasesAreLiveHandlers | crates/metra-server/src/quic.rs:104-132 | in every run the leases are exactly the lanes of the live handlers, one handler for each |
| Leases.OnlyTheHolderFrees | crates/metra-server/src/quic.rs:111-116 | a refused acquire, or another handler's end, never frees a live handler's lease |
| Leases.EndedHandlersHoldNothing | crates/metra-server/src/quic.rs:104-132 | a handler that fails the layout check, finds no checkpoint to update, or ends, holds no lease any more |
| Leases.FinalizingSawComplete | crates/metra-server/src/quic.rs:1162-1189 | a handler removes a checkpoint only after it has found one of its transfer complete |
| Leases.WritersAreDisjoint | crates/metra-server/src/quic.rs:429-453 | when all lane counts that the opens of a transfer name cut its file in the same way, any two live accepted striped handlers own disjoint ranges in every run, removals of the checkpoint included |
| Leases.TwoLayoutsOverlap | crates/metra-server/src/quic.rs:1181-1189 | for any two lane counts that cut a file differently, a run of honest opens in which two live accepted handlers own the same byte |
| Leases.DisjointIff | crates/metra-server/src/quic.rs:104-132 | so live accepted handlers are disjoint in every run if and only if the lane counts cut the file in one way |
| SingleLane.StagingIsPrefix | crates/metra-server/src/quic.rs:457-470 | over any number of interrupted sessions the staging file is a prefix of the source and a session resumes at its length |
| SingleLane.NeverIncomplete | crates/metra-server/src/quic.rs:1065-1081 | after a successful receive finalize sees the whole file: the incomplete-stream answer is never given, nor the oversize refusal, and completions report the full size |
| SingleLane.DestinationNeverPartial | crates/metra-server/src/quic.rs:1244-1262 | the destination is never seen with part of the file, and each rename moves exactly the source; a discarded upload touches no storage |
| SingleLane.ProtectedDestinationKept | crates/metra-server/src/quic.rs:1211-1242 | an existing destination that is immutable or may not be overwritten keeps its contents in every run, and nothing is removed or renamed |
| SingleLane.DestinationCheckIff | crates/metra-server/src/quic.rs:1211-1242 | the check goes on exactly when nothing is at the destination or it may be replaced; otherwise it answers that it refused, and the staging file stays |
| SingleLane.ResumesWhere | crates/metra-server/src/quic.rs:454-470 | in every run a session resumes at the length of the staging file, 0 if there is none, or for a discarded upload at the counter, capped at the file size |
| SingleLane.CounterFollowsStaging | crates/metra-server/src/quic.rs:1009-1029 | while a session streams to disk the counter lies between where it resumed and the length of the staging file, and recording sets it to the latter |
| SingleLane.NoByteWrittenTwice | crates/metra-server/src/quic.rs:537-566 | the staging file is as long as what all sessions together have written since the last rename |
| SingleLane.OneSessionCompletes | crates/metra-server/src/quic.rs:530-608 | after any interruption, one undisturbed session completes the transfer and writes only what is missing, if the destination may be written |
| SingleLane.StepKeepsInv | crates/metra-server/src/quic.rs:1048-1131 | every step keeps the prefix, the resume offset and the destination, in the disk and the discarding variant |
| Frames.HeaderRoundTrip | crates/metra-proto/src/lib.rs:132-169 | a header of 16 bytes decodes to the length and nonce it was made of |
| Frames.HeaderBytes | crates/metra-proto/src/lib.rs:147-150 | the first four of the sixteen bytes hold the length, lowest byte first, and the last twelve the nonce |
| Frames.HeaderIsCanonical | crates/metra-proto/src/lib.rs:132-169 | 16 bytes decode to a length and nonce exactly when they are the encoding of them |
| Frames.BigEndianReversesLittleEndian | crates/metra-client/src/transfer.rs:2637 | the counter's bytes are those of the little-endian encoding in opposite order |
| Frames.EncodeSucceedsIff | crates/metra-proto/src/lib.rs:171-189 | a frame can be made exactly of 1 byte to 64 MiB |
| Frames.FrameRoundTrip | crates/metra-proto/src/lib.rs:171-221 | a frame decodes to its plaintext, and its length is what the header announces |
| Frames.DecodePayload | crates/metra-proto/src/lib.rs:191-221 | what a payload decodes to with either codec, with the announced length; it is refused only for a length out of bounds, a wrong size, or a cipher that is missing, refuses or gives another length |
| Frames.NoncesDistinct | crates/metra-client/src/transfer.rs:2634-2639 | different counters below 2^64 give different nonces |
| Frames.LittleEndianRoundTrip | crates/metra-proto/src/lib.rs:148 | the length field decodes to what it encodes |
| Frames.LittleEndianInverse | crates/metra-proto/src/lib.rs:156 | and every four bytes are the encoding of the number they decode to |
| Frames.BigEndianInjective | crates/metra-client/src/transfer.rs:2637 | different counters have different encodings |
| FrameLoop.ReceivedBytes | crates/metra-server/src/quic.rs:729-766 | on any byte stream the loop takes at most the expected bytes, and all of them exactly when it completes |
| FrameLoop.ReceiveLaneNoDisk | crates/metra-server/src/quic.rs:725-766 | the loop's answer on any byte stream, which of the four errors ended it, and what is left of the stream |
| FrameLoop.FramesRoundTrip | crates/metra-server/src/quic.rs:729-766 | the loop recovers the pieces of a list of frames and stops right behind them |
| FrameLoop.WholeFramesFit | crates/metra-server/src/quic.rs:922-935 | the number of whole frames before a cut: that many fit and one more does not |
| FrameLoop.CutFrames | crates/metra-server/src/quic.rs:922-935 | cut anywhere, the loop recovers exactly the pieces whose frames are whole |
| LaneCodec.EncodedFrameCarries | crates/metra-proto/src/lib.rs:171-221 | a piece can be encoded exactly when it has 1 byte to 64 MiB, and its frame then carries it to the server |
| LaneCodec.FrameHeader | crates/metra-client/src/transfer.rs:2697-2706 | on the stream, the i-th frame of a session announces the length of its piece, and its nonce is the lane's prefix and the number i |
| LaneCodec.SessionNoncesDistinct | crates/metra-client/src/transfer.rs:2697-2698 | no two of the first 2^64 frames that a session sends carry the same nonce |
| LaneCodec.StreamRoundTrip | crates/metra-server/src/quic.rs:922-996 | for any cutting into such pieces and either codec, the loop recovers the exact pieces, consumes the whole stream and meets no overflow or mismatch |
| LaneCodec.CutStreamYieldsWholeFrames | crates/metra-server/src/quic.rs:922-935 | after a disconnect at any byte, exactly the pieces that arrived whole are recovered |
| LaneCodec.SendGeneratedLane | crates/metra-client/src/transfer.rs:2772-2827 | the generated lane's loop sends frames that carry exactly the zeros asked for, with distinct nonces, unless its first chunk is longer than a frame may be |
| LaneCodec.GeneratedLaneArrives | crates/metra-client/src/transfer.rs:2772-2827 | and the server receives exactly them |
| ReceivePipeline.PipelineRefinesLoop | crates/metra-server/src/quic.rs:831-996 | every schedule of the three tasks on any byte stream, with a writer that may fail anywhere, ends; without a failure it writes exactly what the sequential loop yields, with one a prefix; it succeeds exactly when the loop completes and the writer did not fail, with the expected number of bytes |
| ReceivePipeline.WrittenIsPrefix | crates/metra-server/src/quic.rs:830-846 | at every moment what was written is a prefix of that, and at most as many frames wait in a channel as the depth, raised to 1 and lowered to 32 |
| ReceivePipeline.HonestStreamDrains | crates/metra-server/src/quic.rs:831-996 | with an honest sender cut off at any byte, exactly the whole frames are written, and the call succeeds exactly when nothing was cut off |
| ReceivePipeline.StuckMeansOver | crates/metra-server/src/quic.rs:831-976 | no deadlock: a pipeline that cannot move has written everything |
| ReceivePipeline.RunsAreFinite | crates/metra-server/src/quic.rs:831-976 | every schedule ends, within a bound given by the stream |
| SendPipeline.SendsExactlyTheRange | crates/metra-client/src/transfer.rs:2641-2770 | every schedule ends with all stages over; it returns success exactly when the file is long enough and no chunk read was refused by the encoder, and then the stream holds the frames, in file order, of exactly `file[resume..end]` |
| SendPipeline.SendsNothingAtTheEnd | crates/metra-client/src/transfer.rs:2609-2612 | a lane that is already at its end sends nothing and succeeds |
| SendPipeline.RunNoncesDistinct | crates/metra-client/src/transfer.rs:2692-2714 | at every moment of every schedule the frames made so far never repeat a nonce |
| LaneTransfer.ReceivesTheSource | crates/metra-server/src/quic.rs:831-996 | for all schedules of both pipelines and a connection broken after any byte, what the server's writer was given is at every moment a prefix of the source's range; it reports success exactly when nothing was cut off and its writer did not fail, and then it has all of it |
| LaneTransfer.ChunksAreHonest | crates/metra-server/src/quic.rs:843-846 | each chunk given to the writer is the next part of the source, as the upload systems assume |
| LaneTransfer.WriteReceived | crates/metra-server/src/quic.rs:831-885 | the disk writer on those chunks: the file has the source's bytes from the resume offset as far as they came, and is otherwise what it was |
| SendPipeline.StreamIsPrefix | crates/metra-client/src/transfer.rs:2716-2736 | at every moment the stream holds whole frames of a prefix of the range |
| SendPipeline.BuffersConserved | crates/metra-client/src/transfer.rs:2641-2648 | while the reader is alive no buffer is lost or made, and giving one back never blocks |
| SendPipeline.EncryptQueueBounded | crates/metra-client/src/transfer.rs:2650-2652 | at most as many frames wait for the sender as the depth, or one |
| SendPipeline.NoStageFails | crates/metra-client/src/transfer.rs:2655-2714 | no stage ever finds its channel closed or its encoding refused |
| SendPipeline.StuckMeansOver | crates/metra-client/src/transfer.rs:2641-2755 | no deadlock |
| SendPipeline.RunsAreFinite | crates/metra-client/src/transfer.rs:2641-2755 | every schedule ends, by a measure that weights bytes by the stages they have left |
| SendPipeline.LaneEncoderAcceptsIff | crates/metra-client/src/transfer.rs:2700-2706 | a lane's chunks can all be encoded exactly when none can be longer than 64 MiB |
| SendPipeline.SentRangeIsReceived | crates/metra-client/src/transfer.rs:2597-2770 | what the pipeline sent is what the server's loop receives, byte for byte |
| SessionReport.FoldIsMaximum | crates/metra-client/src/transfer.rs:719-740 | the folded acknowledgement is one of them and the greatest by status priority, bytes and time |
| SessionReport.FoldKeepsFirst | crates/metra-client/src/transfer.rs:719-740 | of several greatest acknowledgements it is the first to be joined |
| SessionReport.FoldOrderIndependent | crates/metra-client/src/transfer.rs:2433-2441 | its status, bytes and time do not depend on the order of joining |
| SessionReport.FoldStatus | crates/metra-client/src/transfer.rs:710-740 | Failed exactly when some lane failed; Completed exactly when some completed and none failed; Running exactly when some was running and none failed or completed |
| SessionReport.JoinLanes | crates/metra-client/src/transfer.rs:2428-2450 | the join loop's totals and folded acknowledgement |
| SessionReport.TotalsOrderIndependent | crates/metra-client/src/transfer.rs:2433-2436 | the byte totals do not depend on the order of joining |
| ClientSession.FileLaneReports | crates/metra-client/src/transfer.rs:2590-2594 | a file lane that reports success, under any schedule, has streamed exactly what was left of its range |
| ClientSession.SendGeneratedLaneSession | crates/metra-client/src/transfer.rs:2500-2595 | a generated lane checks the acknowledged offset, sends and reports what was left of its range, and the server's loop recovers exactly the zeros from what it wrote; it fails exactly on an offset outside the lane or a chunk too long for a frame |
| ClientSession.FileSessionConservesBytes | crates/metra-client/src/transfer.rs:2428-2450 | for any acknowledged resume offsets, any schedules and any completion order, a successful session reports resumed plus streamed bytes equal to the file size |
| ClientSession.ReportAgreesWithCheckpoint | crates/metra-server/src/quic.rs:150-155 | when the lanes resume at the offsets of a checkpoint, the client reports as resumed exactly the total this checkpoint counts, and as streamed all the rest |
| PolicyStore.UpsertInto | crates/metra-client/src/lane_policy.rs:83-105 | replaces the first entry of the profile or appends, and sorts |
| PolicyStore.StoreIsLastWriterWins | crates/metra-client/src/lane_policy.rs:65-105 | after any upserts into an empty store the list is strictly ascending (disk before no_disk, then width, size, I/O chunk), with exactly the last entry written for each profile |
| PolicyStore.StoreIsFunctionOfMap | crates/metra-client/src/lane_policy.rs:92-105 | the list and every selection depend only on the map of last writers, not on the history |
| PolicyStore.SelectsNearest | crates/metra-client/src/lane_policy.rs:121-162 | on any list: nothing exactly when no entry is usable, otherwise a usable entry, lexicographically nearest, most recently tuned among the nearest; exact exactly when a usable entry has the profile |
| PolicyStore.SelectsFirst | crates/metra-client/src/lane_policy.rs:121-131 | and of equally good entries the first in the list |
| PolicyStore.SelectsFromMap | crates/metra-client/src/runtime_policy.rs:129-177 | after accepted upserts, a request gets its own profile's last entry, reported exact, or else one of the nearest of the map, reported not exact |
| LanePolicy.LanePolicyFile.Upsert | crates/metra-client/src/lane_policy.rs:65-115 | refuses zero lanes and changes nothing then; otherwise one upsert on any file, and the last-writer map on a file it made |
| LanePolicy.LanePolicyFile.Consult | crates/metra-client/src/transfer.rs:1927-1931 | the selection from the file, which on a file it made is the answer from the last-writer map |
| RuntimePolicy.TrimEmptyIff | crates/metra-client/src/runtime_policy.rs:68-70 | a profile name trims to nothing exactly when it holds only white space |
| RuntimePolicy.RuntimePolicyFile.Upsert | crates/metra-client/src/runtime_policy.rs:67-123 | the three refusals, each exactly when its check is the first to fail; otherwise one upsert |
| RuntimePolicy.RuntimePolicyFile.Consult | crates/metra-client/src/transfer.rs:2022-2026 | the selection from the file, as for lanes |
| Percentile.PercentileMonotone | crates/metra-client/src/transfer.rs:2972-2989 | a higher quantile never gives a lower value |
| Percentile.PercentileBounds | crates/metra-client/src/transfer.rs:2972-2989 | every percentile of a sorted list lies between its first and last element |
| Percentile.SegmentBounds | crates/metra-client/src/transfer.rs:2980-2988 | a percentile lies between two neighbouring samples |
| Percentile.Interpolates | crates/metra-client/src/transfer.rs:2980-2988 | where `quantile * (n - 1)` is k + w, the percentile is the point w of the way from sample k to sample k + 1 |
| Percentile.SampleQuantiles | crates/metra-client/src/transfer.rs:2980-2988 | so the quantiles k / (n - 1) give the samples themselves |
| Percentile.ClampsQuantile | crates/metra-client/src/transfer.rs:2980 | quantiles below 0 and above 1 give the first and the last sample |
| Percentile.SummaryMedian | crates/metra-client/src/transfer.rs:2960-2965 | p50 is the middle sample of an odd number of samples, and the mean of the two middle ones of an even number |
| Percentile.SummaryP95 | crates/metra-client/src/transfer.rs:2960-2966 | p95 lies 19/20 of the way from the first to the last sample, between two neighbours |
| Percentile.SummaryMean | crates/metra-client/src/transfer.rs:2961 | the mean is that of the samples as they were taken |
| Percentile.SummaryIsOrdered | crates/metra-client/src/transfer.rs:2948-2970 | `min <= p50 <= p95 <= max`, and the mean lies between min and max |
| Percentile.SummaryEnds | crates/metra-client/src/transfer.rs:2960-2969 | min and max are the smallest and the largest sample |
| Percentile.SummaryOrderIndependent | crates/metra-client/src/transfer.rs:2948-2970 | a summary does not depend on the order of the samples |
| Percentile.StabilityIsShareOfP95 | crates/metra-client/src/transfer.rs:1669-1675 | the stability factor is the share of p95 that the median reaches, at most 1, and 0 when either is not positive |
| Percentile.StabilityClampIsNoOpIff | crates/metra-client/src/transfer.rs:1669-1675 | with p95 > 0 the clamp changes nothing exactly when the median is not negative |
| Percentile.StabilityClampIsNoOp | crates/metra-client/src/transfer.rs:1669-1675 | so it is a no-op on samples that are not negative |

## Left out

- StripedProgress.UsefulSessionRaisesOffset: for runs in which no checkpoint was removed, or one lane; after a removal the session counts in UsefulSessionsBounded as one of those before it.
- StripedSafety.RenamedFileIsSource: every rename of a run, and runs end with the first one; opening a striped transfer again after its rename is outside what the source promises.
- FinalizeOnce.FinalizedExactlyOnce: one session from a fresh checkpoint in which no stream fails; the failures of the finalize itself are modelled.
- ReceivePipeline.PipelineRefinesLoop: is about the moment when all three tasks are over; on a decode failure the function returns earlier, before it has joined the writer. An honest sender's frames always decode.
- SendPipeline.SendsExactlyTheRange: a failing write to the network is not a step; LaneTransfer covers it as a stream that is cut off.
- SingleLane.StagingIsPrefix: process failures, disconnects and failed writes, but no power loss: the single-lane path has no checkpoint and trusts the file's length.
- Percentile.SummaryIsOrdered: over the reals; rounding of floating point is not modelled.
- Striped uploads that discard their payload: the checkpoint and finalize logic is the same, without a file.
- A transfer that is opened both on one lane and striped, and two transfers with one destination path; whether a destination may be written does not change during a transfer.
- Storage errors other than as the abrupt end of a handler or of the disk writer, and the failure to remove a checkpoint file.
- The transferred-bytes counter beside the checkpoint in the concurrent models; it is only followed in the single-lane and lane-writer models.
- QUIC, TLS, certificates, REST handlers and transport profiles: streams are byte sequences that may be cut.
- JSON, control frames and SQLite: messages, checkpoints and summaries are typed values.
- ChaCha20-Poly1305 and BLAKE3: only the two laws above; secrecy and authenticity are not modelled.
- Command line, terminal interface, tracing, metrics and telemetry, benchmark and tuning drivers: no property beyond simple case analysis.
