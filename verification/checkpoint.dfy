/**
 The per-transfer checkpoint: one durable offset per lane, rounded down to 1 MiB so that a restart
 resumes at a chunk boundary (crates/metra-server/src/quic.rs).
 */
module Checkpoint {
  import opened Common
  import opened Ranges

  datatype LaneCheckpoint = LaneCheckpoint(laneIndex: nat, rangeStart: nat, rangeEndExclusive: nat, offset: nat)

  datatype TransferCheckpoint = TransferCheckpoint(
    transferId: nat,
    fileSizeBytes: nat,
    totalLanes: nat,
    lanes: seq<LaneCheckpoint>)

  datatype CheckpointError =
    | FileSizeMismatch
    | LaneCountMismatch
    | MissingLane
    | LaneRangeMismatch
    | MissingCheckpoint
    | UnorderedRange          // the clamp of an entry whose range ends before it starts panics

  // ---------------------------------------------------------------- durable offsets

  function DurableResumeOffset(offset: nat, rangeStart: nat, rangeEnd: nat): nat
    requires rangeStart <= rangeEnd
  {
    var clamped := Clamp(offset, rangeStart, rangeEnd);
    if clamped >= rangeEnd then rangeEnd
    else
      var aligned := clamped - clamped % RESUME_CHUNK_SIZE_BYTES;
      Clamp(aligned, rangeStart, rangeEnd)
  }

  /** The offsets a lane may ever resume from: its two ends, and the 1 MiB boundaries between them. */
  predicate ResumePoint(offset: nat, rangeStart: nat, rangeEnd: nat) {
    && rangeStart <= offset <= rangeEnd
    && (offset == rangeStart || offset == rangeEnd || offset % RESUME_CHUNK_SIZE_BYTES == 0)
  }

  /** Rounding picks the greatest resume point that is not past the clamped offset. */
  lemma DurableIsGreatestResumePoint(offset: nat, rangeStart: nat, rangeEnd: nat, other: nat)
    requires rangeStart <= rangeEnd
    ensures var d := DurableResumeOffset(offset, rangeStart, rangeEnd);
            && ResumePoint(d, rangeStart, rangeEnd)
            && d <= Clamp(offset, rangeStart, rangeEnd)
            && (ResumePoint(other, rangeStart, rangeEnd) && other <= Clamp(offset, rangeStart, rangeEnd) ==> other <= d)
  {
    var clamped := Clamp(offset, rangeStart, rangeEnd);
    var aligned := clamped - clamped % RESUME_CHUNK_SIZE_BYTES;
    assert aligned % RESUME_CHUNK_SIZE_BYTES == 0;
    if other <= clamped && other % RESUME_CHUNK_SIZE_BYTES == 0 {
      MultiplesBelow(other, clamped);
    }
  }

  lemma MultiplesBelow(multiple: nat, x: nat)
    requires multiple % RESUME_CHUNK_SIZE_BYTES == 0 && multiple <= x
    ensures multiple <= x - x % RESUME_CHUNK_SIZE_BYTES
  {
  }

  /** The stored offsets are exactly the fixed points of the rounding, so reloading never lowers one. */
  lemma FixedPointsAreResumePoints(offset: nat, rangeStart: nat, rangeEnd: nat)
    requires rangeStart <= rangeEnd
    ensures DurableResumeOffset(offset, rangeStart, rangeEnd) == offset <==> ResumePoint(offset, rangeStart, rangeEnd)
  {
    DurableIsGreatestResumePoint(offset, rangeStart, rangeEnd, offset);
  }

  lemma DurableMonotone(a: nat, b: nat, rangeStart: nat, rangeEnd: nat)
    requires rangeStart <= rangeEnd && a <= b
    ensures DurableResumeOffset(a, rangeStart, rangeEnd) <= DurableResumeOffset(b, rangeStart, rangeEnd)
  {
    DurableIsGreatestResumePoint(a, rangeStart, rangeEnd, 0);
    DurableIsGreatestResumePoint(b, rangeStart, rangeEnd, DurableResumeOffset(a, rangeStart, rangeEnd));
  }

  /** Rounding gives up less than one chunk. */
  lemma DurableLag(offset: nat, rangeStart: nat, rangeEnd: nat)
    requires rangeStart <= offset <= rangeEnd
    ensures var d := DurableResumeOffset(offset, rangeStart, rangeEnd);
            rangeStart <= d <= offset < d + RESUME_CHUNK_SIZE_BYTES
  {
  }

  // ---------------------------------------------------------------- checkpoint values

  function TotalTransferred(lanes: seq<LaneCheckpoint>): nat {
    if lanes == [] then 0
    else TotalTransferred(lanes[..|lanes| - 1]) + Max(0, lanes[|lanes| - 1].offset - lanes[|lanes| - 1].rangeStart)
  }

  predicate AllLanesComplete(c: TransferCheckpoint) {
    forall i :: 0 <= i < |c.lanes| ==> c.lanes[i].offset >= c.lanes[i].rangeEndExclusive
  }

  /** Position of the first entry with the given lane index. */
  function FindLane(lanes: seq<LaneCheckpoint>, laneIndex: nat): (r: Option<nat>)
    ensures r.Some? ==> r.value < |lanes| && lanes[r.value].laneIndex == laneIndex
    ensures r.Some? ==> forall i :: 0 <= i < r.value ==> lanes[i].laneIndex != laneIndex
    ensures r.None? ==> forall i :: 0 <= i < |lanes| ==> lanes[i].laneIndex != laneIndex
  {
    if lanes == [] then None
    else if lanes[0].laneIndex == laneIndex then Some(0)
    else
      match FindLane(lanes[1..], laneIndex)
      case None => None
      case Some(i) => Some(i + 1)
  }

  function ValidateLayout(
    c: TransferCheckpoint, fileSize: nat, totalLanes: nat, rangeStart: nat, rangeEnd: nat, laneIndex: nat)
    : (r: Result<nat, CheckpointError>)
    ensures r.Ok? ==>
      && c.fileSizeBytes == fileSize && c.totalLanes == totalLanes
      && r.value < |c.lanes|
      && c.lanes[r.value].laneIndex == laneIndex
      && c.lanes[r.value].rangeStart == rangeStart && c.lanes[r.value].rangeEndExclusive == rangeEnd
      && forall i :: 0 <= i < r.value ==> c.lanes[i].laneIndex != laneIndex
    ensures r == Err(FileSizeMismatch) <==> c.fileSizeBytes != fileSize
    ensures r == Err(LaneCountMismatch) <==> c.fileSizeBytes == fileSize && c.totalLanes != totalLanes
    ensures r == Err(MissingLane) <==>
      && c.fileSizeBytes == fileSize && c.totalLanes == totalLanes
      && forall i :: 0 <= i < |c.lanes| ==> c.lanes[i].laneIndex != laneIndex
    ensures r.Err? ==> r.error in {FileSizeMismatch, LaneCountMismatch, MissingLane, LaneRangeMismatch}
  {
    if c.fileSizeBytes != fileSize then Err(FileSizeMismatch)
    else if c.totalLanes != totalLanes then Err(LaneCountMismatch)
    else
      match FindLane(c.lanes, laneIndex)
      case None => Err(MissingLane)
      case Some(i) =>
        if c.lanes[i].rangeStart != rangeStart || c.lanes[i].rangeEndExclusive != rangeEnd
        then Err(LaneRangeMismatch) else Ok(i)
  }

  function NewCheckpoint(transferId: nat, fileSize: nat, totalLanes: nat): TransferCheckpoint
    requires totalLanes > 0
  {
    TransferCheckpoint(transferId, fileSize, totalLanes,
      seq(totalLanes, i requires 0 <= i =>
        LaneCheckpoint(i, LaneStart(fileSize, totalLanes, i), LaneEnd(fileSize, totalLanes, i),
                       LaneStart(fileSize, totalLanes, i))))
  }

  function SetOffset(c: TransferCheckpoint, i: nat, offset: nat): TransferCheckpoint
    requires i < |c.lanes|
  {
    c.(lanes := c.lanes[i := c.lanes[i].(offset := offset)])
  }

  /** What opening a lane does to the loaded copy: round the lane's own offset down. */
  function Reopened(c: TransferCheckpoint, i: nat): TransferCheckpoint
    requires i < |c.lanes| && c.lanes[i].rangeStart <= c.lanes[i].rangeEndExclusive
  {
    SetOffset(c, i, DurableResumeOffset(c.lanes[i].offset, c.lanes[i].rangeStart, c.lanes[i].rangeEndExclusive))
  }

  /** What a progress update does to the loaded copy: raise the lane's offset, never lower it. */
  function Raised(c: TransferCheckpoint, i: nat, newOffset: nat): TransferCheckpoint
    requires i < |c.lanes| && c.lanes[i].rangeStart <= c.lanes[i].rangeEndExclusive
  {
    var durable := DurableResumeOffset(newOffset, c.lanes[i].rangeStart, c.lanes[i].rangeEndExclusive);
    SetOffset(c, i, Max(c.lanes[i].offset, durable))
  }

  // ---------------------------------------------------------------- checkpoints the server can reach

  ghost predicate CanonicalLane(c: TransferCheckpoint, i: nat)
    requires i < |c.lanes| && c.totalLanes > 0
  {
    var lane := c.lanes[i];
    && lane.laneIndex == i
    && lane.rangeStart == LaneStart(c.fileSizeBytes, c.totalLanes, i)
    && lane.rangeEndExclusive == LaneEnd(c.fileSizeBytes, c.totalLanes, i)
    && ResumePoint(lane.offset, lane.rangeStart, lane.rangeEndExclusive)
  }

  /** A checkpoint with the layout of the transfer and a legal resume point in every lane. */
  ghost predicate Canonical(c: TransferCheckpoint, fileSize: nat, totalLanes: nat) {
    && c.fileSizeBytes == fileSize
    && c.totalLanes == totalLanes == |c.lanes|
    && totalLanes > 0
    && forall i :: 0 <= i < |c.lanes| ==> CanonicalLane(c, i)
  }

  lemma NewIsCanonical(transferId: nat, fileSize: nat, totalLanes: nat)
    requires totalLanes > 0
    ensures Canonical(NewCheckpoint(transferId, fileSize, totalLanes), fileSize, totalLanes)
    ensures TotalTransferred(NewCheckpoint(transferId, fileSize, totalLanes).lanes) == 0
    ensures NewCheckpoint(transferId, fileSize, totalLanes).transferId == transferId
  {
    var c := NewCheckpoint(transferId, fileSize, totalLanes);
    forall i | 0 <= i < |c.lanes| ensures CanonicalLane(c, i) {
      LaneInsideFile(fileSize, totalLanes, i);
    }
    NothingTransferred(c.lanes);
  }

  lemma {:induction false} NothingTransferred(lanes: seq<LaneCheckpoint>)
    requires forall i :: 0 <= i < |lanes| ==> lanes[i].offset == lanes[i].rangeStart
    ensures TotalTransferred(lanes) == 0
  {
    if lanes != [] {
      NothingTransferred(lanes[..|lanes| - 1]);
    }
  }

  lemma {:induction false} FindLaneAt(lanes: seq<LaneCheckpoint>, laneIndex: nat, base: nat)
    requires forall i :: 0 <= i < |lanes| ==> lanes[i].laneIndex == base + i
    requires base <= laneIndex < base + |lanes|
    ensures FindLane(lanes, laneIndex) == Some(laneIndex - base)
  {
    if laneIndex != base {
      FindLaneAt(lanes[1..], laneIndex, base + 1);
    }
  }

  /** Every open with the transfer's own layout passes validation against every reachable checkpoint. */
  lemma CanonicalValidates(c: TransferCheckpoint, fileSize: nat, totalLanes: nat, lane: nat)
    requires Canonical(c, fileSize, totalLanes) && lane < totalLanes
    ensures ValidateLayout(c, fileSize, totalLanes, LaneStart(fileSize, totalLanes, lane),
                           LaneEnd(fileSize, totalLanes, lane), lane) == Ok(lane)
  {
    forall i | 0 <= i < |c.lanes| ensures c.lanes[i].laneIndex == 0 + i { assert CanonicalLane(c, i); }
    FindLaneAt(c.lanes, lane, 0);
    assert CanonicalLane(c, lane);
  }

  /** Reloading a reachable checkpoint lowers nothing: it is the identity. */
  lemma ReopenedIsIdentity(c: TransferCheckpoint, fileSize: nat, totalLanes: nat, lane: nat)
    requires Canonical(c, fileSize, totalLanes) && lane < totalLanes
    ensures c.lanes[lane].rangeStart <= c.lanes[lane].rangeEndExclusive
    ensures Reopened(c, lane) == c
  {
    assert CanonicalLane(c, lane);
    FixedPointsAreResumePoints(c.lanes[lane].offset, c.lanes[lane].rangeStart, c.lanes[lane].rangeEndExclusive);
  }

  /** An update keeps a checkpoint reachable, raises its own lane and leaves the other lanes alone. */
  lemma RaisedStaysCanonical(c: TransferCheckpoint, fileSize: nat, totalLanes: nat, lane: nat, newOffset: nat)
    requires Canonical(c, fileSize, totalLanes) && lane < totalLanes
    ensures c.lanes[lane].rangeStart <= c.lanes[lane].rangeEndExclusive
    ensures var r := Raised(c, lane, newOffset);
            && Canonical(r, fileSize, totalLanes)
            && (forall i :: 0 <= i < totalLanes ==> c.lanes[i].offset <= r.lanes[i].offset)
            && (forall i :: 0 <= i < totalLanes && i != lane ==> c.lanes[i] == r.lanes[i])
            && r.lanes[lane].offset == Max(c.lanes[lane].offset,
                 DurableResumeOffset(newOffset, c.lanes[lane].rangeStart, c.lanes[lane].rangeEndExclusive))
  {
    assert CanonicalLane(c, lane);
    var r := Raised(c, lane, newOffset);
    DurableIsGreatestResumePoint(newOffset, c.lanes[lane].rangeStart, c.lanes[lane].rangeEndExclusive, 0);
    forall i | 0 <= i < |r.lanes| ensures CanonicalLane(r, i) {
      assert CanonicalLane(c, i);
    }
  }

  lemma {:induction false} TotalOfPrefix(c: TransferCheckpoint, fileSize: nat, totalLanes: nat, m: nat)
    requires Canonical(c, fileSize, totalLanes) && m <= totalLanes
    ensures TotalTransferred(c.lanes[..m]) <= LaneStart(fileSize, totalLanes, m)
    ensures TotalTransferred(c.lanes[..m]) == LaneStart(fileSize, totalLanes, m)
       <==> forall i :: 0 <= i < m ==> c.lanes[i].offset >= c.lanes[i].rangeEndExclusive
  {
    if m == 0 {
      LayoutEnds(fileSize, totalLanes);
    } else {
      TotalOfPrefix(c, fileSize, totalLanes, m - 1);
      assert c.lanes[..m][..m - 1] == c.lanes[..m - 1];
      assert CanonicalLane(c, m - 1);
    }
  }

  /** The transferred total never exceeds the file, and reaches it exactly when all lanes are complete. */
  lemma TotalTransferredBounded(c: TransferCheckpoint, fileSize: nat, totalLanes: nat)
    requires Canonical(c, fileSize, totalLanes)
    ensures TotalTransferred(c.lanes) <= fileSize
    ensures TotalTransferred(c.lanes) == fileSize <==> AllLanesComplete(c)
  {
    TotalOfPrefix(c, fileSize, totalLanes, totalLanes);
    assert c.lanes[..totalLanes] == c.lanes;
    LayoutEnds(fileSize, totalLanes);
  }

  /** Setting one lane's offset changes the total by what that lane then counts more or less. */
  lemma {:induction false} TotalAfterSet(lanes: seq<LaneCheckpoint>, i: nat, offset: nat)
    requires i < |lanes|
    ensures TotalTransferred(lanes[i := lanes[i].(offset := offset)])
         == TotalTransferred(lanes) - Max(0, lanes[i].offset - lanes[i].rangeStart) + Max(0, offset - lanes[i].rangeStart)
  {
    var front, after := lanes[..|lanes| - 1], lanes[i := lanes[i].(offset := offset)];
    if i < |lanes| - 1 {
      TotalAfterSet(front, i, offset);
      assert after[..|lanes| - 1] == front[i := front[i].(offset := offset)];
    } else {
      assert after[..|lanes| - 1] == front;
    }
  }

  // ---------------------------------------------------------------- the stored checkpoint

  /** Effect and result of opening a lane: (checkpoint file afterwards, resume offset and total). */
  function LoadOrInit(
    stored: Option<TransferCheckpoint>, transferId: nat, fileSize: nat, totalLanes: nat,
    laneIndex: nat, rangeStart: nat, rangeEnd: nat)
    : (Option<TransferCheckpoint>, Result<(nat, nat), CheckpointError>)
    requires totalLanes > 0 && rangeStart <= rangeEnd
  {
    var c := if stored.Some? then stored.value else NewCheckpoint(transferId, fileSize, totalLanes);
    match ValidateLayout(c, fileSize, totalLanes, rangeStart, rangeEnd, laneIndex)
    case Err(e) => (Some(c), Err(e))
    case Ok(i) =>
      var reopened := Reopened(c, i);
      (Some(reopened), Ok((reopened.lanes[i].offset, TotalTransferred(reopened.lanes))))
  }

  /** Effect and result of a progress update: (checkpoint file afterwards, transferred total). */
  function UpdateOffset(stored: Option<TransferCheckpoint>, laneIndex: nat, newOffset: nat)
    : (Option<TransferCheckpoint>, Result<nat, CheckpointError>)
  {
    match stored
    case None => (None, Err(MissingCheckpoint))
    case Some(c) =>
      match FindLane(c.lanes, laneIndex)
      case None => (stored, Err(MissingLane))
      case Some(i) =>
        if c.lanes[i].rangeStart > c.lanes[i].rangeEndExclusive then (stored, Err(UnorderedRange))
        else
          var raised := Raised(c, i, newOffset);
          (Some(raised), Ok(TotalTransferred(raised.lanes)))
  }

  /** Which check of an open fails first, in the fields of the checkpoint; None when all pass. */
  ghost predicate FirstRefusal(c: TransferCheckpoint, fileSize: nat, totalLanes: nat, laneIndex: nat, rangeStart: nat, rangeEnd: nat,
                               e: CheckpointError)
  {
    if c.fileSizeBytes != fileSize then e == FileSizeMismatch
    else if c.totalLanes != totalLanes then e == LaneCountMismatch
    else if forall i :: 0 <= i < |c.lanes| ==> c.lanes[i].laneIndex != laneIndex then e == MissingLane
    else
      && e == LaneRangeMismatch
      && exists i :: 0 <= i < |c.lanes| && c.lanes[i].laneIndex == laneIndex
                     && (c.lanes[i].rangeStart != rangeStart || c.lanes[i].rangeEndExclusive != rangeEnd)
  }

  /** The two checkpoints differ at most in the offset of entry i. */
  predicate SameButOffset(c: TransferCheckpoint, d: TransferCheckpoint, i: nat) {
    && c.transferId == d.transferId && c.fileSizeBytes == d.fileSizeBytes && c.totalLanes == d.totalLanes
    && i < |c.lanes| == |d.lanes|
    && d.lanes[i] == c.lanes[i].(offset := d.lanes[i].offset)
    && forall j :: 0 <= j < |c.lanes| && j != i ==> d.lanes[j] == c.lanes[j]
  }

  /**
   Every open of every stored checkpoint. A refused one leaves the stored checkpoint as it is, or a
   fresh one if there was none, and answers with the first check that fails. An accepted one changes at
   most the offset of the lane's entry, to the greatest resume point that is not past it, and answers
   with that offset and the bytes transferred.
   */
  lemma OpenOutcome(stored: Option<TransferCheckpoint>, transferId: nat, fileSize: nat, totalLanes: nat,
                    laneIndex: nat, rangeStart: nat, rangeEnd: nat)
    requires totalLanes > 0 && rangeStart <= rangeEnd
    ensures var (after, r) := LoadOrInit(stored, transferId, fileSize, totalLanes, laneIndex, rangeStart, rangeEnd);
            var c := if stored.Some? then stored.value else NewCheckpoint(transferId, fileSize, totalLanes);
            && (stored.None? ==> Canonical(c, fileSize, totalLanes) && TotalTransferred(c.lanes) == 0)
            && after.Some?
            && (r.Err? ==> after == Some(c) && FirstRefusal(c, fileSize, totalLanes, laneIndex, rangeStart, rangeEnd, r.error))
            && (r.Ok? ==>
                  && c.fileSizeBytes == fileSize && c.totalLanes == totalLanes
                  && exists i: nat :: SameButOffset(c, after.value, i) && c.lanes[i].laneIndex == laneIndex
                       && c.lanes[i].rangeStart == rangeStart && c.lanes[i].rangeEndExclusive == rangeEnd
                       && after.value.lanes[i].offset == r.value.0
                       && r.value.0 == DurableResumeOffset(c.lanes[i].offset, rangeStart, rangeEnd)
                       && r.value.1 == TotalTransferred(c.lanes) - Max(0, c.lanes[i].offset - rangeStart) + (r.value.0 - rangeStart))
  {
    var c := if stored.Some? then stored.value else NewCheckpoint(transferId, fileSize, totalLanes);
    NewIsCanonical(transferId, fileSize, totalLanes);
    var checked := ValidateLayout(c, fileSize, totalLanes, rangeStart, rangeEnd, laneIndex);
    if checked.Ok? {
      var i := checked.value;
      var resume := DurableResumeOffset(c.lanes[i].offset, rangeStart, rangeEnd);
      DurableIsGreatestResumePoint(c.lanes[i].offset, rangeStart, rangeEnd, rangeStart);
      TotalAfterSet(c.lanes, i, resume);
      assert SameButOffset(c, Reopened(c, i), i);
    }
  }

  /**
   Every update of every stored checkpoint. Without a checkpoint, without the lane or with an entry
   whose range is out of order it is refused, and the file stays as it is; otherwise the lane's offset
   becomes the greater of its own and the durable part of the new one, nothing else changes, and the
   answer is the old total plus what the lane has gained.
   */
  lemma UpdateOutcome(stored: Option<TransferCheckpoint>, laneIndex: nat, newOffset: nat)
    ensures var (after, r) := UpdateOffset(stored, laneIndex, newOffset);
            && (r.Err? ==> after == stored)
            && (r == Err(MissingCheckpoint) <==> stored.None?)
            && (r == Err(MissingLane) <==>
                  stored.Some? && forall i :: 0 <= i < |stored.value.lanes| ==> stored.value.lanes[i].laneIndex != laneIndex)
            && (r.Err? ==> r.error in {MissingCheckpoint, MissingLane, UnorderedRange})
            && (r.Ok? ==>
                  && stored.Some? && after.Some?
                  && exists i: nat :: SameButOffset(stored.value, after.value, i) && stored.value.lanes[i].laneIndex == laneIndex
                       && var lane := stored.value.lanes[i];
                          && lane.rangeStart <= lane.rangeEndExclusive
                          && after.value.lanes[i].offset
                             == Max(lane.offset, DurableResumeOffset(newOffset, lane.rangeStart, lane.rangeEndExclusive))
                          && r.value == TotalTransferred(stored.value.lanes) - Max(0, lane.offset - lane.rangeStart)
                                        + (after.value.lanes[i].offset - lane.rangeStart))
  {
    if stored.Some? && FindLane(stored.value.lanes, laneIndex).Some? {
      var c, i := stored.value, FindLane(stored.value.lanes, laneIndex).value;
      if c.lanes[i].rangeStart <= c.lanes[i].rangeEndExclusive {
        var durable := DurableResumeOffset(newOffset, c.lanes[i].rangeStart, c.lanes[i].rangeEndExclusive);
        DurableIsGreatestResumePoint(newOffset, c.lanes[i].rangeStart, c.lanes[i].rangeEndExclusive, 0);
        TotalAfterSet(c.lanes, i, Max(c.lanes[i].offset, durable));
        assert SameButOffset(c, Raised(c, i, newOffset), i);
      }
    }
  }

  /** The checkpoint file of one transfer, accessed under its checkpoint lock. */
  class CheckpointFile {
    var stored: Option<TransferCheckpoint>

    constructor ()
      ensures stored == None
    {
      stored := None;
    }

    method LoadOrInitLaneResume(transferId: nat, fileSize: nat, totalLanes: nat,
                                laneIndex: nat, rangeStart: nat, rangeEnd: nat)
      returns (r: Result<(nat, nat), CheckpointError>)
      requires totalLanes > 0 && rangeStart <= rangeEnd
      modifies this
      ensures (stored, r) == LoadOrInit(old(stored), transferId, fileSize, totalLanes, laneIndex, rangeStart, rangeEnd)
      ensures r.Err? && old(stored).Some? ==> stored == old(stored)
      ensures r.Err? && old(stored).None? ==> stored.Some? && Canonical(stored.value, fileSize, totalLanes)
    {
      NewIsCanonical(transferId, fileSize, totalLanes);
      if stored.None? {
        stored := Some(NewCheckpoint(transferId, fileSize, totalLanes));
      }
      var checkpoint := stored.value;
      match ValidateLayout(checkpoint, fileSize, totalLanes, rangeStart, rangeEnd, laneIndex) {
        case Err(e) => return Err(e);
        case Ok(i) =>
          var lane := checkpoint.lanes[i];
          var resume := DurableResumeOffset(lane.offset, lane.rangeStart, lane.rangeEndExclusive);
          checkpoint := checkpoint.(lanes := checkpoint.lanes[i := lane.(offset := resume)]);
          stored := Some(checkpoint);
          return Ok((resume, TotalTransferred(checkpoint.lanes)));
      }
    }

    method UpdateCheckpointOffset(laneIndex: nat, newOffset: nat) returns (r: Result<nat, CheckpointError>)
      modifies this
      ensures (stored, r) == UpdateOffset(old(stored), laneIndex, newOffset)
      ensures r.Err? ==> stored == old(stored)
    {
      match stored {
        case None => return Err(MissingCheckpoint);
        case Some(checkpoint) =>
          match FindLane(checkpoint.lanes, laneIndex) {
            case None => return Err(MissingLane);
            case Some(i) =>
              var lane := checkpoint.lanes[i];
              if lane.rangeStart > lane.rangeEndExclusive {
                return Err(UnorderedRange);
              }
              var durableOffset := DurableResumeOffset(newOffset, lane.rangeStart, lane.rangeEndExclusive);
              lane := lane.(offset := Max(lane.offset, durableOffset));
              var updated := checkpoint.(lanes := checkpoint.lanes[i := lane]);
              stored := Some(updated);
              return Ok(TotalTransferred(updated.lanes));
          }
      }
    }
  }

  /** Opening any lane of a reachable checkpoint keeps it as it is and resumes at the stored offset. */
  lemma ReopenResumesAtStoredOffset(stored: Option<TransferCheckpoint>, transferId: nat, fileSize: nat, totalLanes: nat, lane: nat)
    requires totalLanes > 0 && lane < totalLanes
    requires stored.Some? ==> Canonical(stored.value, fileSize, totalLanes)
    ensures LaneStart(fileSize, totalLanes, lane) <= LaneEnd(fileSize, totalLanes, lane)
    ensures var c := if stored.Some? then stored.value else NewCheckpoint(transferId, fileSize, totalLanes);
            && Canonical(c, fileSize, totalLanes)
            && LoadOrInit(stored, transferId, fileSize, totalLanes, lane,
                          LaneStart(fileSize, totalLanes, lane), LaneEnd(fileSize, totalLanes, lane))
               == (Some(c), Ok((c.lanes[lane].offset, TotalTransferred(c.lanes))))
  {
    NewIsCanonical(transferId, fileSize, totalLanes);
    LaneInsideFile(fileSize, totalLanes, lane);
    var c := if stored.Some? then stored.value else NewCheckpoint(transferId, fileSize, totalLanes);
    CanonicalValidates(c, fileSize, totalLanes, lane);
    ReopenedIsIdentity(c, fileSize, totalLanes, lane);
  }

  /** Updating any lane of a reachable checkpoint raises that lane only, and reports the new total. */
  lemma UpdateRaisesOwnLane(c: TransferCheckpoint, fileSize: nat, totalLanes: nat, lane: nat, newOffset: nat)
    requires Canonical(c, fileSize, totalLanes) && lane < totalLanes
    ensures c.lanes[lane].rangeStart <= c.lanes[lane].rangeEndExclusive
    ensures var (stored, r) := UpdateOffset(Some(c), lane, newOffset);
            && stored == Some(Raised(c, lane, newOffset))
            && Canonical(stored.value, fileSize, totalLanes)
            && r == Ok(TotalTransferred(stored.value.lanes))
            && r.value - TotalTransferred(c.lanes) == stored.value.lanes[lane].offset - c.lanes[lane].offset
            && r.value <= fileSize
  {
    assert CanonicalLane(c, lane);
    TotalAfterSet(c.lanes, lane, Raised(c, lane, newOffset).lanes[lane].offset);
    CanonicalValidates(c, fileSize, totalLanes, lane);
    RaisedStaysCanonical(c, fileSize, totalLanes, lane, newOffset);
    TotalTransferredBounded(Raised(c, lane, newOffset), fileSize, totalLanes);
  }
}
