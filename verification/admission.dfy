/**
 Opening a lane: what the client asks for and what the server lets through
 (crates/metra-client/src/transfer.rs, crates/metra-server/src/quic.rs).
 */
module Admission {
  import opened Common
  import opened Ranges
  import opened Checkpoint

  datatype OpenRequest = OpenRequest(
    fileSizeBytes: nat, laneIndex: nat, totalLanes: nat, rangeStart: nat, rangeEndExclusive: nat)

  datatype OpenError = TooManyLanes | InvalidLaneIndex | InvalidRange

  datatype AcceptedOpen = AcceptedOpen(
    laneIndex: nat, totalLanes: nat, rangeStart: nat, rangeEndExclusive: nat, striped: bool)

  /** The checks the server makes on an open message before it looks at any state. */
  function CheckOpen(open: OpenRequest): Result<AcceptedOpen, OpenError> {
    var totalLanes := Max(open.totalLanes, 1);
    if totalLanes > TRANSFER_LANES_MAX then Err(TooManyLanes)
    else if open.laneIndex >= totalLanes then Err(InvalidLaneIndex)
    else
      var end := if open.rangeEndExclusive == 0 then open.fileSizeBytes else open.rangeEndExclusive;
      if open.rangeStart >= end || end > open.fileSizeBytes then Err(InvalidRange)
      else
        var striped := totalLanes > 1 || open.rangeStart != 0 || end != open.fileSizeBytes;
        Ok(AcceptedOpen(open.laneIndex, totalLanes, open.rangeStart, end, striped))
  }

  /** The number of lanes the client uses: at least one, and never more than bytes in the file. */
  function NormalizedLaneCount(lanes: nat, fileSizeBytes: nat): (r: nat)
    requires lanes <= U32_MAX
    ensures 1 <= r <= U32_MAX
    ensures fileSizeBytes > 0 ==> r <= fileSizeBytes
    ensures 1 <= lanes <= fileSizeBytes ==> r == lanes
    ensures lanes > fileSizeBytes > 0 ==> r == fileSizeBytes
    ensures lanes == 0 || fileSizeBytes == 0 ==> r == 1
  {
    var upper := Max(if fileSizeBytes <= U32_MAX then fileSizeBytes else U32_MAX, 1);
    Min(Max(lanes, 1), upper)
  }

  /** The open message the client sends for one of its lanes. */
  function ClientOpen(fileSizeBytes: nat, lanes: nat, lane: nat): OpenRequest
    requires lane < lanes
  {
    OpenRequest(fileSizeBytes, lane, lanes,
      LaneStart(fileSizeBytes, lanes, lane), LaneEnd(fileSizeBytes, lanes, lane))
  }

  /** What the server must get out of a client's open: that lane's own range, taken literally. */
  function IntendedOpen(fileSizeBytes: nat, lanes: nat, lane: nat): AcceptedOpen
    requires lane < lanes
  {
    AcceptedOpen(lane, lanes, LaneStart(fileSizeBytes, lanes, lane), LaneEnd(fileSizeBytes, lanes, lane), lanes > 1)
  }

  /**
   Which opens the server accepts, and as what: 0 lanes is one lane, a range that ends at 0 ends at the
   end of the file, and only one lane over the whole file is not striped.
   */
  lemma OpenAcceptedIff(open: OpenRequest)
    ensures CheckOpen(open) == Err(TooManyLanes) <==> open.totalLanes > 64
    ensures CheckOpen(open) == Err(InvalidLaneIndex) <==>
            open.totalLanes <= 64 && open.laneIndex >= open.totalLanes && open.laneIndex > 0
    ensures CheckOpen(open).Ok? <==>
      && open.totalLanes <= 64 && (open.laneIndex < open.totalLanes || (open.totalLanes == 0 && open.laneIndex == 0))
      && open.rangeStart < open.fileSizeBytes
      && (open.rangeEndExclusive == 0 || open.rangeStart < open.rangeEndExclusive <= open.fileSizeBytes)
    ensures CheckOpen(open).Ok? ==>
      var a := CheckOpen(open).value;
      && a.laneIndex == open.laneIndex && a.rangeStart == open.rangeStart
      && a.totalLanes == (if open.totalLanes == 0 then 1 else open.totalLanes)
      && a.rangeEndExclusive == (if open.rangeEndExclusive == 0 then open.fileSizeBytes else open.rangeEndExclusive)
      && (!a.striped <==> a.totalLanes == 1 && a.rangeStart == 0 && a.rangeEndExclusive == open.fileSizeBytes)
  {
  }

  /** A well-formed open with a literal range passes all checks. */
  lemma LiteralOpenPasses(open: OpenRequest)
    requires open.laneIndex < open.totalLanes <= TRANSFER_LANES_MAX
    requires open.rangeStart < open.rangeEndExclusive <= open.fileSizeBytes
    ensures CheckOpen(open) == Ok(AcceptedOpen(open.laneIndex, open.totalLanes, open.rangeStart, open.rangeEndExclusive,
              open.totalLanes > 1 || open.rangeStart != 0 || open.rangeEndExclusive != open.fileSizeBytes))
  {
  }

  /** The server takes the open of any lane that is not empty as it was meant. */
  lemma ClientOpenIsAccepted(fileSizeBytes: nat, lanes: nat, lane: nat)
    requires lane < lanes <= TRANSFER_LANES_MAX && LaneStart(fileSizeBytes, lanes, lane) < LaneEnd(fileSizeBytes, lanes, lane)
    ensures CheckOpen(ClientOpen(fileSizeBytes, lanes, lane)) == Ok(IntendedOpen(fileSizeBytes, lanes, lane))
  {
    LaneInsideFile(fileSizeBytes, lanes, lane);
    LiteralOpenPasses(ClientOpen(fileSizeBytes, lanes, lane));
    if lanes == 1 {
      LayoutEnds(fileSizeBytes, 1);
      assert lane == 0;
    }
  }

  lemma TooManyLanesRefused(open: OpenRequest)
    requires open.totalLanes > TRANSFER_LANES_MAX
    ensures CheckOpen(open) == Err(TooManyLanes)
  {
  }

  /**
   Client and server agree on every lane of every non-empty file exactly when the normalized lane
   count is within the server's limit; the `0 means end of file` default is never taken.
   */
  lemma ClientOpensAcceptedIff(fileSizeBytes: nat, requested: nat, lane: nat)
    requires fileSizeBytes > 0 && requested <= U32_MAX
    requires lane < NormalizedLaneCount(requested, fileSizeBytes)
    ensures var lanes := NormalizedLaneCount(requested, fileSizeBytes);
            (CheckOpen(ClientOpen(fileSizeBytes, lanes, lane)) == Ok(IntendedOpen(fileSizeBytes, lanes, lane))
             <==> lanes <= TRANSFER_LANES_MAX)
  {
    var lanes := NormalizedLaneCount(requested, fileSizeBytes);
    if lanes <= TRANSFER_LANES_MAX {
      LanesNonEmptyIff(fileSizeBytes, lanes);
      ClientOpenIsAccepted(fileSizeBytes, lanes, lane);
    } else {
      TooManyLanesRefused(ClientOpen(fileSizeBytes, lanes, lane));
    }
  }

  /**
   An accepted client lane also passes the layout check against any checkpoint the server can hold
   for that lane count, and against none it can hold for a different one.
   */
  lemma ClientOpensMatchLayoutIff(fileSizeBytes: nat, requested: nat, lane: nat, c: TransferCheckpoint, storedLanes: nat)
    requires fileSizeBytes > 0 && requested <= U32_MAX
    requires lane < NormalizedLaneCount(requested, fileSizeBytes)
    requires Canonical(c, fileSizeBytes, storedLanes)
    ensures var lanes := NormalizedLaneCount(requested, fileSizeBytes);
            var open := ClientOpen(fileSizeBytes, lanes, lane);
            (ValidateLayout(c, fileSizeBytes, lanes, open.rangeStart, open.rangeEndExclusive, lane) == Ok(lane)
             <==> storedLanes == lanes)
  {
    var lanes := NormalizedLaneCount(requested, fileSizeBytes);
    if storedLanes == lanes {
      CanonicalValidates(c, fileSizeBytes, lanes, lane);
    }
  }
}
