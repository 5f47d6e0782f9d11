/**
 The disk writer of a lane as the server runs it: one loop over the chunks of the channel, a sync and
 a checkpoint update about every 1 MiB, and a last one when the channel closes
 (crates/metra-server/src/quic.rs).
 */
module LaneWriter {
  import opened Common
  import opened Checkpoint

  // ---------------------------------------------------------------- the order of writing, syncing and recording

  datatype DiskOp = Wrote(bytes: nat) | Synced | Recorded(offset: nat)

  /** What a writer has done, in order. */
  class Journal {
    ghost var ops: seq<DiskOp>

    constructor ()
      ensures ops == []
    {
      ops := [];
    }
  }

  function BytesIn(ops: seq<DiskOp>): nat {
    if ops == [] then 0
    else BytesIn(ops[..|ops| - 1]) + if ops[|ops| - 1].Wrote? then ops[|ops| - 1].bytes else 0
  }

  function LastRecorded(resume: nat, ops: seq<DiskOp>): nat {
    if ops == [] then resume
    else if ops[|ops| - 1].Recorded? then ops[|ops| - 1].offset else LastRecorded(resume, ops[..|ops| - 1])
  }

  /** A record is of bytes that were written before a sync before it. */
  ghost predicate SyncedAt(resume: nat, ops: seq<DiskOp>, k: nat)
    requires k < |ops|
  {
    ops[k].Recorded? ==> exists j :: 0 <= j < k && ops[j].Synced? && ops[k].offset <= resume + BytesIn(ops[..j])
  }

  ghost predicate SyncedBeforeRecorded(resume: nat, ops: seq<DiskOp>) {
    forall k :: 0 <= k < |ops| ==> SyncedAt(resume, ops, k)
  }

  /** When a chunk is about to be written, less than 1 MiB is not yet recorded. */
  ghost predicate InTimeAt(resume: nat, ops: seq<DiskOp>, k: nat)
    requires k < |ops|
  {
    ops[k].Wrote? ==> resume + BytesIn(ops[..k]) < LastRecorded(resume, ops[..k]) + RESUME_CHUNK_SIZE_BYTES
  }

  ghost predicate RecordedInTime(resume: nat, ops: seq<DiskOp>) {
    forall k :: 0 <= k < |ops| ==> InTimeAt(resume, ops, k)
  }

  /** What the writer does with the chunks still to come, when `since` bytes are written but not recorded. */
  function WriterOps(resume: nat, written: nat, since: nat, chunks: seq<seq<byte>>): seq<DiskOp>
    decreases |chunks|
  {
    if chunks == [] then
      if since > 0 then [Synced, Recorded(resume + written)] else []
    else
      ChunkOps(resume, written + |chunks[0]|, since + |chunks[0]|, |chunks[0]|)
      + WriterOps(resume, written + |chunks[0]|, SinceAfter(since + |chunks[0]|), chunks[1..])
  }

  /** One turn of the loop: `written` and `since` already count the chunk. */
  function ChunkOps(resume: nat, written: nat, since: nat, bytes: nat): seq<DiskOp> {
    if since >= RESUME_CHUNK_SIZE_BYTES then [Wrote(bytes), Synced, Recorded(resume + written)] else [Wrote(bytes)]
  }

  function SinceAfter(since: nat): nat { if since >= RESUME_CHUNK_SIZE_BYTES then 0 else since }

  /** The trace so far: what has been written, and what of it is recorded, safely and in time. */
  ghost predicate GoodSoFar(resume: nat, ops: seq<DiskOp>, written: nat, since: nat) {
    && BytesIn(ops) == written && LastRecorded(resume, ops) + since == resume + written
    && SyncedBeforeRecorded(resume, ops) && RecordedInTime(resume, ops)
  }

  lemma Snoc(resume: nat, ops: seq<DiskOp>, op: DiskOp)
    ensures BytesIn(ops + [op]) == BytesIn(ops) + if op.Wrote? then op.bytes else 0
    ensures LastRecorded(resume, ops + [op]) == if op.Recorded? then op.offset else LastRecorded(resume, ops)
  {
    assert (ops + [op])[..|ops|] == ops;
  }

  lemma SyncedSnoc(resume: nat, ops: seq<DiskOp>, op: DiskOp)
    requires SyncedBeforeRecorded(resume, ops)
    requires op.Recorded? ==> exists j :: 0 <= j < |ops| && ops[j].Synced? && op.offset <= resume + BytesIn(ops[..j])
    ensures SyncedBeforeRecorded(resume, ops + [op])
  {
    var more := ops + [op];
    forall k | 0 <= k < |more| ensures SyncedAt(resume, more, k) {
      assert k < |ops| ==> SyncedAt(resume, ops, k);
      if more[k].Recorded? {
        var j :| 0 <= j < k && ops[j].Synced? && more[k].offset <= resume + BytesIn(ops[..j]);
        assert more[..j] == ops[..j] && more[j].Synced?;
      }
    }
  }

  lemma InTimeSnoc(resume: nat, ops: seq<DiskOp>, op: DiskOp)
    requires RecordedInTime(resume, ops)
    requires op.Wrote? ==> resume + BytesIn(ops) < LastRecorded(resume, ops) + RESUME_CHUNK_SIZE_BYTES
    ensures RecordedInTime(resume, ops + [op])
  {
    var more := ops + [op];
    forall k | 0 <= k < |more| ensures InTimeAt(resume, more, k) {
      assert k < |ops| ==> InTimeAt(resume, ops, k);
      assert more[..k] == ops[..k];
      assert ops[..|ops|] == ops;
    }
  }

  lemma GoodWithWrite(resume: nat, ops: seq<DiskOp>, written: nat, since: nat, n: nat)
    requires GoodSoFar(resume, ops, written, since) && since < RESUME_CHUNK_SIZE_BYTES
    ensures GoodSoFar(resume, ops + [Wrote(n)], written + n, since + n)
  {
    Snoc(resume, ops, Wrote(n));
    SyncedSnoc(resume, ops, Wrote(n));
    InTimeSnoc(resume, ops, Wrote(n));
  }

  lemma GoodWithRecord(resume: nat, ops: seq<DiskOp>, written: nat, since: nat)
    requires GoodSoFar(resume, ops, written, since)
    ensures GoodSoFar(resume, ops + [Synced] + [Recorded(resume + written)], written, 0)
  {
    var synced := ops + [Synced];
    Snoc(resume, ops, Synced);
    SyncedSnoc(resume, ops, Synced);
    InTimeSnoc(resume, ops, Synced);
    assert synced[|ops|].Synced? && synced[..|ops|] == ops;
    Snoc(resume, synced, Recorded(resume + written));
    SyncedSnoc(resume, synced, Recorded(resume + written));
    InTimeSnoc(resume, synced, Recorded(resume + written));
  }

  lemma GoodTurn(resume: nat, ops: seq<DiskOp>, written: nat, since: nat, n: nat)
    requires GoodSoFar(resume, ops, written, since) && since < RESUME_CHUNK_SIZE_BYTES
    ensures GoodSoFar(resume, ops + ChunkOps(resume, written + n, since + n, n), written + n, SinceAfter(since + n))
  {
    GoodWithWrite(resume, ops, written, since, n);
    if since + n >= RESUME_CHUNK_SIZE_BYTES {
      var wrote := ops + [Wrote(n)];
      GoodWithRecord(resume, wrote, written + n, since + n);
      assert wrote + [Synced] + [Recorded(resume + (written + n))] == ops + ChunkOps(resume, written + n, since + n, n);
    }
  }

  /** `all` is the whole trace and `total` all bytes, when the trace so far is `ops`. */
  lemma {:induction false} GoodToTheEnd(resume: nat, ops: seq<DiskOp>, written: nat, since: nat, chunks: seq<seq<byte>>,
                                        all: seq<DiskOp>, total: nat)
    requires GoodSoFar(resume, ops, written, since) && since < RESUME_CHUNK_SIZE_BYTES
    requires all == ops + WriterOps(resume, written, since, chunks) && total == written + |Flatten(chunks)|
    ensures GoodSoFar(resume, all, total, 0)
    decreases |chunks|
  {
    if chunks == [] {
      GoodFinish(resume, ops, written, since);
    } else {
      var n, left := |chunks[0]|, chunks[1..];
      var turn, rest := ChunkOps(resume, written + n, since + n, n), WriterOps(resume, written + n, SinceAfter(since + n), left);
      GoodTurn(resume, ops, written, since, n);
      assert WriterOps(resume, written, since, chunks) == turn + rest;
      JoinAssociates(ops, turn, rest);
      assert all == ops + turn + rest;
      GoodToTheEnd(resume, ops + turn, written + n, SinceAfter(since + n), left, all, total);
    }
  }

  lemma JoinAssociates(a: seq<DiskOp>, b: seq<DiskOp>, c: seq<DiskOp>)
    ensures a + (b + c) == a + b + c
  {
  }

  lemma GoodFinish(resume: nat, ops: seq<DiskOp>, written: nat, since: nat)
    requires GoodSoFar(resume, ops, written, since)
    ensures GoodSoFar(resume, ops + WriterOps(resume, written, since, []), written, 0)
  {
    if since > 0 {
      GoodWithRecord(resume, ops, written, since);
      assert ops + [Synced] + [Recorded(resume + written)] == ops + WriterOps(resume, written, since, []);
    } else {
      assert ops + WriterOps(resume, written, since, []) == ops;
    }
  }

  /**
   The order of the writer, whatever the sizes of its chunks: every byte is recorded in the end, none
   before it is synced, and before each chunk less than 1 MiB is waiting to be recorded.
   */
  lemma WriterKeepsOrder(resume: nat, chunks: seq<seq<byte>>)
    ensures var ops := WriterOps(resume, 0, 0, chunks);
      && SyncedBeforeRecorded(resume, ops) && RecordedInTime(resume, ops)
      && BytesIn(ops) == |Flatten(chunks)| && LastRecorded(resume, ops) == resume + |Flatten(chunks)|
  {
    var ops := WriterOps(resume, 0, 0, chunks);
    assert [] + ops == ops;
    GoodToTheEnd(resume, [], 0, 0, chunks, ops, |Flatten(chunks)|);
  }

  function Syncs(ops: seq<DiskOp>): nat {
    if ops == [] then 0 else (if ops[0].Synced? then 1 else 0) + Syncs(ops[1..])
  }

  lemma {:induction false} SyncsAppend(a: seq<DiskOp>, b: seq<DiskOp>)
    ensures Syncs(a + b) == Syncs(a) + Syncs(b)
  {
    if a == [] {
      assert a + b == b;
    } else {
      assert (a + b)[1..] == a[1..] + b;
      SyncsAppend(a[1..], b);
    }
  }

  lemma SyncsOnce(offset: nat)
    ensures Syncs([Synced, Recorded(offset)]) == 1
  {
    assert [Synced, Recorded(offset)][1..] == [Recorded(offset)] && [Recorded(offset)][1..] == [];
    assert Syncs([Recorded(offset)]) == 0;
  }

  lemma SyncsInTurn(resume: nat, written: nat, since: nat, bytes: nat)
    ensures Syncs(ChunkOps(resume, written, since, bytes)) == if since >= RESUME_CHUNK_SIZE_BYTES then 1 else 0
  {
    SyncsOnce(resume + written);
    var ops := ChunkOps(resume, written, since, bytes);
    assert ops[1..] == if since >= RESUME_CHUNK_SIZE_BYTES then [Synced, Recorded(resume + written)] else [];
  }

  /** Nor does the writer sync more often than it has to: once per 1 MiB written, and once at the end. */
  lemma {:induction false} SyncsAreFew(resume: nat, written: nat, since: nat, chunks: seq<seq<byte>>)
    ensures Syncs(WriterOps(resume, written, since, chunks)) * RESUME_CHUNK_SIZE_BYTES
          < since + |Flatten(chunks)| + RESUME_CHUNK_SIZE_BYTES
    decreases |chunks|
  {
    if chunks == [] {
      SyncsOnce(resume + written);
    } else {
      var n := |chunks[0]|;
      SyncsInTurn(resume, written + n, since + n, n);
      SyncsAreFew(resume, written + n, SinceAfter(since + n), chunks[1..]);
      SyncsAppend(ChunkOps(resume, written + n, since + n, n), WriterOps(resume, written + n, SinceAfter(since + n), chunks[1..]));
    }
  }

  // ---------------------------------------------------------------- the file and the counter

  /** A file handle: its contents, its position, and what the last sync put on disk. */
  class StagingFile {
    var content: seq<byte>
    var position: nat
    var onDisk: seq<byte>

    constructor (content: seq<byte>, position: nat)
      requires position <= |content|
      ensures this.content == content && this.position == position && this.onDisk == []
    {
      this.content, this.position, this.onDisk := content, position, [];
    }

    ghost predicate Valid()
      reads this
    {
      position <= |content|
    }

    method WriteAll(bytes: seq<byte>, ghost journal: Journal)
      requires Valid()
      modifies this`content, this`position, journal
      ensures Valid() && content == Overwritten(old(content), old(position), bytes)
      ensures position == old(position) + |bytes|
      ensures journal.ops == old(journal.ops) + [Wrote(|bytes|)]
    {
      journal.ops := journal.ops + [Wrote(|bytes|)];
      content := Overwritten(content, position, bytes);
      position := position + |bytes|;
    }

    method SyncData(ghost journal: Journal)
      modifies this`onDisk, journal
      ensures onDisk == content
      ensures journal.ops == old(journal.ops) + [Synced]
    {
      journal.ops := journal.ops + [Synced];
      onDisk := content;
    }
  }

  /** The counter of the transfer that status queries read. */
  class Progress {
    var bytesTransferred: nat
    const fileSizeBytes: nat

    constructor (fileSizeBytes: nat)
      ensures this.fileSizeBytes == fileSizeBytes && bytesTransferred == 0
    {
      this.fileSizeBytes, this.bytesTransferred := fileSizeBytes, 0;
    }
  }

  /** Contents after writing `bytes` at `pos`, extending the file if they go past its end. */
  function Overwritten(content: seq<byte>, pos: nat, bytes: seq<byte>): seq<byte>
    requires pos <= |content|
  {
    content[..pos] + bytes + (if pos + |bytes| <= |content| then content[pos + |bytes|..] else [])
  }

  lemma OverwrittenTwice(content: seq<byte>, pos: nat, a: seq<byte>, b: seq<byte>)
    requires pos <= |content|
    ensures pos + |a| <= |Overwritten(content, pos, a)|
    ensures Overwritten(Overwritten(content, pos, a), pos + |a|, b) == Overwritten(content, pos, a + b)
  {
  }

  /** Two updates of a lane leave the same checkpoint as the later one alone. */
  lemma RaisedTwice(c: TransferCheckpoint, fileSize: nat, totalLanes: nat, lane: nat, a: nat, b: nat)
    requires Canonical(c, fileSize, totalLanes) && lane < totalLanes && a <= b
    ensures c.lanes[lane].rangeStart <= c.lanes[lane].rangeEndExclusive
    ensures Raised(Raised(c, lane, a), lane, b) == Raised(c, lane, b)
  {
    assert CanonicalLane(c, lane);
    DurableMonotone(a, b, c.lanes[lane].rangeStart, c.lanes[lane].rangeEndExclusive);
  }

  /** `persist_progress`: the checkpoint first when striped, then the transfer's counter. */
  method PersistProgress(checkpoint: CheckpointFile, progress: Progress, striped: bool, lane: nat, newOffset: nat, ghost journal: Journal)
    returns (r: Result<(), CheckpointError>)
    modifies checkpoint, progress, journal
    ensures !striped ==> r.Ok? && checkpoint.stored == old(checkpoint.stored)
                         && progress.bytesTransferred == Min(newOffset, progress.fileSizeBytes)
    ensures striped ==>
      var (stored, total) := UpdateOffset(old(checkpoint.stored), lane, newOffset);
      && checkpoint.stored == stored
      && r == (if total.Ok? then Ok(()) else Err(total.error))
      && progress.bytesTransferred == (if total.Ok? then Min(total.value, progress.fileSizeBytes) else old(progress.bytesTransferred))
    ensures journal.ops == if r.Ok? then old(journal.ops) + [Recorded(newOffset)] else old(journal.ops)
  {
    var bytes := newOffset;
    if striped {
      var total := checkpoint.UpdateCheckpointOffset(lane, newOffset);
      if total.Err? {
        return Err(total.error);
      }
      bytes := total.value;
    }
    progress.bytesTransferred := Min(bytes, progress.fileSizeBytes);
    journal.ops := journal.ops + [Recorded(newOffset)];
    r := Ok(());
  }

  /** Checkpoint after the writer has recorded `offset`; nothing is recorded before the first byte. */
  ghost function RecordedIn(c: TransferCheckpoint, lane: nat, resume: nat, offset: nat): TransferCheckpoint
    requires lane < |c.lanes| && c.lanes[lane].rangeStart <= c.lanes[lane].rangeEndExclusive
  {
    if offset > resume then Raised(c, lane, offset) else c
  }

  /** The next progress update succeeds and records the new offset. */
  lemma RecordsNext(c: TransferCheckpoint, fileSize: nat, totalLanes: nat, lane: nat, resume: nat, last: nat, next: nat)
    requires Canonical(c, fileSize, totalLanes) && lane < totalLanes && resume <= last < next
    ensures c.lanes[lane].rangeStart <= c.lanes[lane].rangeEndExclusive
    ensures var recorded := RecordedIn(c, lane, resume, last);
            UpdateOffset(Some(recorded), lane, next)
               == (Some(RecordedIn(c, lane, resume, next)), Ok(TotalTransferred(RecordedIn(c, lane, resume, next).lanes)))
  {
    RaisedStaysCanonical(c, fileSize, totalLanes, lane, last);
    var recorded := RecordedIn(c, lane, resume, last);
    UpdateRaisesOwnLane(recorded, fileSize, totalLanes, lane, next);
    RaisedTwice(c, fileSize, totalLanes, lane, last, next);
  }

  /** The lane that the writer is for; `checkpoint` is what was stored when it started. */
  datatype Lane = Lane(striped: bool, checkpoint: Option<TransferCheckpoint>, fileSize: nat, totalLanes: nat, index: nat, resume: nat)

  /** A striped lane has a legal entry in the checkpoint, if there is one. */
  ghost predicate Readable(lane: Lane) {
    lane.striped && lane.checkpoint.Some? ==>
      && Canonical(lane.checkpoint.value, lane.fileSize, lane.totalLanes) && lane.index < lane.totalLanes
      && lane.checkpoint.value.lanes[lane.index].rangeStart <= lane.checkpoint.value.lanes[lane.index].rangeEndExclusive
  }

  /** A striped lane whose checkpoint is gone: nothing can be recorded. */
  predicate Gone(lane: Lane) { lane.striped && lane.checkpoint.None? }

  /** The checkpoint file when everything up to `offset` is recorded. */
  ghost function StoredAt(lane: Lane, offset: nat): Option<TransferCheckpoint>
    requires Readable(lane)
  {
    if lane.striped && lane.checkpoint.Some? then Some(RecordedIn(lane.checkpoint.value, lane.index, lane.resume, offset))
    else lane.checkpoint
  }

  /** And the transfer's byte count. */
  ghost function CountedAt(lane: Lane, offset: nat): nat
    requires Readable(lane)
  {
    if lane.striped && lane.checkpoint.Some? then TotalTransferred(StoredAt(lane, offset).value.lanes) else offset
  }

  /** The checkpoint and the counter show everything up to `offset`. */
  ghost predicate Shows(checkpoint: CheckpointFile, progress: Progress, lane: Lane, offset: nat)
    reads checkpoint, progress
    requires Readable(lane)
  {
    && checkpoint.stored == StoredAt(lane, offset)
    && (offset > lane.resume ==> !Gone(lane) && progress.bytesTransferred == Min(CountedAt(lane, offset), progress.fileSizeBytes))
  }

  // ---------------------------------------------------------------- the loop

  /** Sync, then record: the bytes are on disk before the checkpoint says so. */
  method SyncAndRecord(file: StagingFile, checkpoint: CheckpointFile, progress: Progress, striped: bool, index: nat, next: nat,
                       ghost lane: Lane, ghost last: nat, ghost journal: Journal)
    returns (r: Result<(), CheckpointError>)
    requires Readable(lane) && lane.striped == striped && lane.index == index && lane.resume <= last < next
    requires Shows(checkpoint, progress, lane, last)
    modifies file`onDisk, checkpoint, progress, journal
    ensures file.onDisk == file.content
    ensures !Gone(lane) ==> r.Ok? && Shows(checkpoint, progress, lane, next)
    ensures Gone(lane) ==> r == Err(MissingCheckpoint) && checkpoint.stored == None
    ensures journal.ops == old(journal.ops) + [Synced] + if r.Ok? then [Recorded(next)] else []
  {
    file.SyncData(journal);
    if striped && lane.checkpoint.Some? {
      RecordsNext(lane.checkpoint.value, lane.fileSize, lane.totalLanes, index, lane.resume, last, next);
    }
    r := PersistProgress(checkpoint, progress, striped, index, next, journal);
  }

  /** The file is what it was, with `arrived` written at the resume offset. */
  ghost predicate Holds(file: StagingFile, before: seq<byte>, resume: nat, arrived: seq<byte>)
    reads file`content, file`position
  {
    && resume <= |before|
    && file.position == resume + |arrived| <= |file.content|
    && file.content == Overwritten(before, resume, arrived)
  }

  method WriteChunk(file: StagingFile, chunk: seq<byte>, ghost before: seq<byte>, ghost resume: nat, ghost arrived: seq<byte>, ghost journal: Journal)
    requires Holds(file, before, resume, arrived)
    modifies file`content, file`position, journal
    ensures Holds(file, before, resume, arrived + chunk)
    ensures journal.ops == old(journal.ops) + [Wrote(|chunk|)]
  {
    OverwrittenTwice(before, resume, arrived, chunk);
    file.WriteAll(chunk, journal);
  }

  /** One turn of the writer's loop: write the chunk, and sync and record when 1 MiB has gathered. */
  method TakeChunk(file: StagingFile, checkpoint: CheckpointFile, progress: Progress, striped: bool, index: nat, resume: nat,
                   written: nat, sinceUpdate: nat, chunk: seq<byte>,
                   ghost lane: Lane, ghost before: seq<byte>, ghost arrived: seq<byte>, ghost journal: Journal)
    returns (r: Result<(), CheckpointError>, sinceUpdate': nat)
    requires Readable(lane) && lane.striped == striped && lane.index == index && lane.resume == resume
    requires chunk != [] && written == |arrived| && sinceUpdate <= written
    requires Holds(file, before, resume, arrived)
    requires Shows(checkpoint, progress, lane, resume + written - sinceUpdate)
    modifies file, checkpoint, progress, journal
    ensures Holds(file, before, resume, arrived + chunk)
    ensures r.Ok? ==> sinceUpdate' == SinceAfter(sinceUpdate + |chunk|)
    ensures r.Ok? ==> Shows(checkpoint, progress, lane, resume + written + |chunk| - sinceUpdate')
    ensures r.Ok? && sinceUpdate' == 0 ==> file.onDisk == file.content
    ensures r.Ok? ==> journal.ops == old(journal.ops) + ChunkOps(resume, written + |chunk|, sinceUpdate + |chunk|, |chunk|)
    ensures r.Err? ==> Gone(lane) && r.error == MissingCheckpoint && checkpoint.stored == None
    ensures r.Err? ==> journal.ops <= old(journal.ops) + ChunkOps(resume, written + |chunk|, sinceUpdate + |chunk|, |chunk|)
  {
    WriteChunk(file, chunk, before, resume, arrived, journal);
    r, sinceUpdate' := Ok(()), sinceUpdate + |chunk|;
    if sinceUpdate' >= RESUME_CHUNK_SIZE_BYTES {
      r := SyncAndRecord(file, checkpoint, progress, striped, index, resume + written + |chunk|,
                         lane, resume + written - sinceUpdate, journal);
      sinceUpdate' := 0;
    }
  }

  /** After the channel has closed: a last sync and record if anything is not yet recorded. */
  method FinishLane(file: StagingFile, checkpoint: CheckpointFile, progress: Progress, striped: bool, index: nat, resume: nat,
                    written: nat, sinceUpdate: nat, ghost lane: Lane, ghost journal: Journal)
    returns (r: Result<nat, CheckpointError>)
    requires Readable(lane) && lane.striped == striped && lane.index == index && lane.resume == resume
    requires sinceUpdate <= written
    requires Shows(checkpoint, progress, lane, resume + written - sinceUpdate)
    modifies file`onDisk, checkpoint, progress, journal
    ensures sinceUpdate > 0 ==> file.onDisk == file.content
    ensures sinceUpdate == 0 ==> file.onDisk == old(file.onDisk)
    ensures !Gone(lane) || sinceUpdate == 0 ==> r == Ok(written) && Shows(checkpoint, progress, lane, resume + written)
    ensures Gone(lane) && sinceUpdate > 0 ==> r == Err(MissingCheckpoint) && checkpoint.stored == None
    ensures r.Ok? ==> journal.ops == old(journal.ops) + WriterOps(resume, written, sinceUpdate, [])
    ensures journal.ops <= old(journal.ops) + WriterOps(resume, written, sinceUpdate, [])
  {
    r := Ok(written);
    if sinceUpdate > 0 {
      var persisted := SyncAndRecord(file, checkpoint, progress, striped, index, resume + written,
                                     lane, resume + written - sinceUpdate, journal);
      if persisted.Err? {
        r := Err(persisted.error);
      }
    }
  }

  /** The trace of a turn, in the trace of the whole. */
  lemma TraceNext(all: seq<DiskOp>, before: seq<DiskOp>, turn: seq<DiskOp>, rest: seq<DiskOp>, after: seq<DiskOp>)
    requires all == before + (turn + rest) && after <= before + turn
    ensures after <= all
    ensures after == before + turn ==> all == after + rest
  {
    assert all == before + turn + rest;
  }

  /** `arrived` is in the file, all but its last `since` bytes are recorded, and `rest` is still to be done. */
  ghost predicate Midway(file: StagingFile, checkpoint: CheckpointFile, progress: Progress, lane: Lane, journal: Journal,
                         before: seq<byte>, all: seq<DiskOp>, arrived: seq<byte>, rest: seq<DiskOp>, since: nat)
    reads file, checkpoint, progress, journal
    requires Readable(lane)
  {
    && since <= |arrived|
    && Holds(file, before, lane.resume, arrived)
    && (since == 0 && arrived != [] ==> file.onDisk == file.content)
    && Shows(checkpoint, progress, lane, lane.resume + |arrived| - since)
    && all == journal.ops + rest
  }

  method TakeNext(file: StagingFile, checkpoint: CheckpointFile, progress: Progress, striped: bool, index: nat, resume: nat,
                  written: nat, sinceUpdate: nat, chunk: seq<byte>,
                  ghost lane: Lane, ghost before: seq<byte>, ghost all: seq<DiskOp>, ghost arrived: seq<byte>, ghost rest: seq<DiskOp>,
                  ghost journal: Journal)
    returns (r: Result<(), CheckpointError>, sinceUpdate': nat)
    requires Readable(lane) && lane.striped == striped && lane.index == index && lane.resume == resume
    requires chunk != [] && written == |arrived|
    requires Midway(file, checkpoint, progress, lane, journal, before, all, arrived,
                    ChunkOps(resume, written + |chunk|, sinceUpdate + |chunk|, |chunk|) + rest, sinceUpdate)
    modifies file, checkpoint, progress, journal
    ensures r.Ok? ==> sinceUpdate' == SinceAfter(sinceUpdate + |chunk|)
    ensures r.Ok? ==> Midway(file, checkpoint, progress, lane, journal, before, all, arrived + chunk, rest, sinceUpdate')
    ensures r.Err? ==> Gone(lane) && r.error == MissingCheckpoint && checkpoint.stored == None && journal.ops <= all
  {
    ghost var started := journal.ops;
    r, sinceUpdate' := TakeChunk(file, checkpoint, progress, striped, index, resume, written, sinceUpdate, chunk,
                                 lane, before, arrived, journal);
    TraceNext(all, started, ChunkOps(resume, written + |chunk|, sinceUpdate + |chunk|, |chunk|), rest, journal.ops);
  }

  /** What has arrived and what is still in the channel, before and after taking a chunk. */
  lemma ArrivesNext(arrived: seq<byte>, queue: seq<seq<byte>>)
    ensures queue != [] ==> arrived + queue[0] + Flatten(queue[1..]) == arrived + Flatten(queue)
    ensures arrived + Flatten([]) == arrived
  {
  }

  /** The loop over the chunks of the channel, until it closes or the checkpoint turns out to be gone. */
  method WriteChunks(file: StagingFile, checkpoint: CheckpointFile, progress: Progress, striped: bool, index: nat, resume: nat,
                     chunks: seq<seq<byte>>, ghost lane: Lane, ghost before: seq<byte>, ghost all: seq<DiskOp>, ghost journal: Journal)
    returns (r: Result<(), CheckpointError>, written: nat, sinceUpdate: nat, ghost arrived: seq<byte>)
    requires Readable(lane) && lane.striped == striped && lane.index == index && lane.resume == resume
    requires forall i :: 0 <= i < |chunks| ==> chunks[i] != []
    requires Midway(file, checkpoint, progress, lane, journal, before, all, [], WriterOps(resume, 0, 0, chunks), 0)
    modifies file, checkpoint, progress, journal
    ensures r.Ok? ==> arrived == Flatten(chunks) && written == |arrived|
    ensures r.Ok? ==> Midway(file, checkpoint, progress, lane, journal, before, all, arrived,
                             WriterOps(resume, written, sinceUpdate, []), sinceUpdate)
    ensures r.Err? ==> Gone(lane) && r.error == MissingCheckpoint && checkpoint.stored == None && journal.ops <= all
    ensures r.Err? ==> chunks != []
  {
    written, sinceUpdate, arrived := 0, 0, [];
    var queue := chunks;
    while queue != []
      invariant forall i :: 0 <= i < |queue| ==> queue[i] != []
      invariant arrived + Flatten(queue) == Flatten(chunks) && written == |arrived| && (queue != [] ==> chunks != [])
      invariant Midway(file, checkpoint, progress, lane, journal, before, all, arrived,
                       WriterOps(resume, written, sinceUpdate, queue), sinceUpdate)
      decreases |queue|
    {
      ArrivesNext(arrived, queue);
      var chunk := queue[0];
      queue := queue[1..];
      var taken, since := TakeNext(file, checkpoint, progress, striped, index, resume, written, sinceUpdate, chunk, lane, before, all,
                                   arrived, WriterOps(resume, written + |chunk|, SinceAfter(sinceUpdate + |chunk|), queue), journal);
      if taken.Err? {
        return Err(taken.error), written, sinceUpdate, arrived;
      }
      written, sinceUpdate, arrived := written + |chunk|, since, arrived + chunk;
    }
    ArrivesNext(arrived, queue);
    r := Ok(());
  }

  /**
   The disk writer of a lane. Whatever the sizes of the chunks, when the channel has closed the file
   holds the chunks at the resume offset, everything written is on disk, and the checkpoint (of a
   striped lane) or the counter alone shows all of it. If the checkpoint is gone, the writer fails as
   soon as it has something to record, and does not bring it back. The journal says in which order all
   this happened; WriterKeepsOrder says what that order guarantees.
   */
  method WriteLane(file: StagingFile, checkpoint: CheckpointFile, progress: Progress, striped: bool, index: nat, resume: nat,
                   chunks: seq<seq<byte>>, ghost lane: Lane, ghost journal: Journal)
    returns (r: Result<nat, CheckpointError>)
    requires file.Valid() && file.position == resume
    requires lane.striped == striped && lane.checkpoint == checkpoint.stored && lane.index == index && lane.resume == resume
    requires Readable(lane)
    requires forall i :: 0 <= i < |chunks| ==> chunks[i] != []
    modifies file, checkpoint, progress, journal
    ensures !Gone(lane) || chunks == [] ==>
      && r == Ok(|Flatten(chunks)|)
      && Holds(file, old(file.content), resume, Flatten(chunks))
      && (chunks != [] ==> file.onDisk == file.content)
      && Shows(checkpoint, progress, lane, resume + |Flatten(chunks)|)
      && journal.ops == old(journal.ops) + WriterOps(resume, 0, 0, chunks)
    ensures Gone(lane) && chunks != [] ==> r == Err(MissingCheckpoint) && checkpoint.stored == None
    ensures journal.ops <= old(journal.ops) + WriterOps(resume, 0, 0, chunks)
  {
    ghost var all := journal.ops + WriterOps(resume, 0, 0, chunks);
    var done, written, sinceUpdate, arrived := WriteChunks(file, checkpoint, progress, striped, index, resume, chunks, lane, file.content, all, journal);
    if done.Err? {
      return Err(done.error);
    }
    r := FinishLane(file, checkpoint, progress, striped, index, resume, written, sinceUpdate, lane, journal);
  }
}
