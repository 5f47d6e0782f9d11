/**
 A client session from its lanes: each lane checks the acknowledged resume offset, sends the rest of
 its range and reports (crates/metra-client/src/transfer.rs).
 */
module ClientSession {
  import opened Common
  import opened Ranges
  import opened Checkpoint
  import opened Frames
  import opened FrameLoop
  import opened LaneCodec
  import opened SessionReport
  import S = SendPipeline

  datatype SendError = InvalidResumeOffset | SendFailed

  /** What `send_lane` reports, given the acknowledged offset and what its send loop returned. */
  function LaneReport(fileSize: nat, lanes: nat, lane: nat, resume: nat, streamed: Option<nat>, ack: CompleteAck): Result<LaneResult, SendError>
    requires lane < lanes
  {
    if !ResumeOffsetAccepted(fileSize, lanes, lane, resume) then Err(InvalidResumeOffset)
    else
      match streamed
      case None => Err(SendFailed)
      case Some(n) => Ok(LaneResult(n, resume - LaneStart(fileSize, lanes, lane), ack))
  }

  /** The result of a file lane: some schedule of its pipeline ran to its end and returned it. */
  ghost predicate FileLaneSent(fileSize: nat, lanes: nat, lane: nat, resume: nat, r: LaneResult)
    requires lane < lanes
  {
    exists cfg: S.Config, run, actions ::
      && S.IsRun(cfg, run, actions) && S.Stuck(cfg, run[|actions|])
      && cfg.resume == resume && cfg.rangeEnd == LaneEnd(fileSize, lanes, lane)
      && S.Returned(cfg, run[|actions|]).Ok?
      && LaneReport(fileSize, lanes, lane, resume, Some(S.Returned(cfg, run[|actions|]).value), r.completeAck) == Ok(r)
  }

  /** A file lane that reports success has streamed exactly what was left of its range. */
  lemma FileLaneReports(fileSize: nat, lanes: nat, lane: nat, resume: nat, r: LaneResult)
    requires lane < lanes && FileLaneSent(fileSize, lanes, lane, resume, r)
    ensures LaneReports(fileSize, lanes, lane, resume, r)
  {
    var cfg: S.Config, run, actions :|
      && S.IsRun(cfg, run, actions) && S.Stuck(cfg, run[|actions|])
      && cfg.resume == resume && cfg.rangeEnd == LaneEnd(fileSize, lanes, lane)
      && S.Returned(cfg, run[|actions|]).Ok?
      && LaneReport(fileSize, lanes, lane, resume, Some(S.Returned(cfg, run[|actions|]).value), r.completeAck) == Ok(r);
  }

  /** The server's loop recovers exactly the zeros from the stream, and reads all of it. */
  ghost predicate Arrives(codec: Lane, out: seq<byte>, total: nat) {
    var o := ReceiveFrames(LaneReceiver(codec), out, total);
    o.end == Complete && o.rest == [] && Flatten(o.pieces) == Zeros(total)
  }

  /** A generated lane, from the acknowledged offset to its report. */
  method SendGeneratedLaneSession(fileSize: nat, lanes: nat, lane: nat, resume: nat, codec: Lane, ioChunkBytes: nat, ack: CompleteAck)
    returns (r: Result<LaneResult, SendError>, out: seq<byte>)
    requires lane < lanes && ValidLane(codec) && ioChunkBytes > 0
    ensures r.Ok? ==> LaneReports(fileSize, lanes, lane, resume, r.value) && r.value.completeAck == ack
    ensures r.Ok? <==>
      && ResumeOffsetAccepted(fileSize, lanes, lane, resume)
      && (resume == LaneEnd(fileSize, lanes, lane) || Min(LaneEnd(fileSize, lanes, lane) - resume, ioChunkBytes) <= MAX_PLAINTEXT_BYTES)
    ensures r.Ok? ==>
      && resume <= LaneEnd(fileSize, lanes, lane)
      && Arrives(codec, out, LaneEnd(fileSize, lanes, lane) - resume)
  {
    var start, end := LaneStart(fileSize, lanes, lane), LaneEnd(fileSize, lanes, lane);
    out := [];
    if resume < start || resume > end {
      return Err(InvalidResumeOffset), out;
    }
    var streamed, sent, frames, pieces := SendGeneratedLane(codec, resume, end, ioChunkBytes);
    out := sent;
    if streamed.Err? {
      return Err(SendFailed), out;
    }
    GeneratedLaneArrives(codec, frames, pieces, end - resume);
    r := Ok(LaneResult(streamed.value, resume - start, ack));
  }

  /**
   Session conservation. Whatever resume offsets the server acknowledged, under every schedule of every
   lane's pipeline and in whatever order the lanes complete, a session whose lanes all succeed reports
   resumed + streamed == file size.
   */
  lemma FileSessionConservesBytes(fileSize: nat, lanes: nat, resumes: seq<nat>, results: seq<LaneResult>, joined: seq<LaneResult>)
    requires lanes > 0 && |results| == |resumes| == lanes
    requires forall l :: 0 <= l < lanes ==> FileLaneSent(fileSize, lanes, l, resumes[l], results[l])
    requires multiset(joined) == multiset(results)
    ensures Resumed(joined) + Streamed(joined) == fileSize
  {
    forall l | 0 <= l < lanes ensures LaneReports(fileSize, lanes, l, resumes[l], results[l]) {
      FileLaneReports(fileSize, lanes, l, resumes[l], results[l]);
    }
    SessionConservesBytes(fileSize, lanes, resumes, results, joined);
  }

  /**
   Client and server agree. A session whose lanes resume at the offsets of a checkpoint reports as
   resumed the total that this checkpoint counts as transferred, and as streamed all the rest.
   */
  lemma ReportAgreesWithCheckpoint(c: TransferCheckpoint, fileSize: nat, lanes: nat, results: seq<LaneResult>, joined: seq<LaneResult>)
    requires Canonical(c, fileSize, lanes) && |results| == lanes
    requires forall l :: 0 <= l < lanes ==> FileLaneSent(fileSize, lanes, l, c.lanes[l].offset, results[l])
    requires multiset(joined) == multiset(results)
    ensures Resumed(joined) == TotalTransferred(c.lanes)
    ensures Streamed(joined) == fileSize - TotalTransferred(c.lanes)
  {
    forall l | 0 <= l < lanes ensures LaneReports(fileSize, lanes, l, c.lanes[l].offset, results[l]) {
      FileLaneReports(fileSize, lanes, l, c.lanes[l].offset, results[l]);
    }
    ReportsAgree(c, fileSize, lanes, results, joined);
  }

  lemma ReportsAgree(c: TransferCheckpoint, fileSize: nat, lanes: nat, results: seq<LaneResult>, joined: seq<LaneResult>)
    requires Canonical(c, fileSize, lanes) && |results| == lanes
    requires forall l :: 0 <= l < lanes ==> LaneReports(fileSize, lanes, l, c.lanes[l].offset, results[l])
    requires multiset(joined) == multiset(results)
    ensures Resumed(joined) == TotalTransferred(c.lanes)
    ensures Streamed(joined) == fileSize - TotalTransferred(c.lanes)
  {
    var resumes := seq(lanes, l requires 0 <= l < lanes => c.lanes[l].offset);
    SessionConservesBytes(fileSize, lanes, resumes, results, joined);
    ResumedInLaneOrder(c, fileSize, lanes, results, lanes);
    assert results[..lanes] == results && c.lanes[..lanes] == c.lanes;
    TotalsOrderIndependent(joined, results);
  }

  lemma {:induction false} ResumedInLaneOrder(c: TransferCheckpoint, fileSize: nat, lanes: nat, results: seq<LaneResult>, m: nat)
    requires Canonical(c, fileSize, lanes) && |results| == lanes && m <= lanes
    requires forall l :: 0 <= l < lanes ==> LaneReports(fileSize, lanes, l, c.lanes[l].offset, results[l])
    ensures Resumed(results[..m]) == TotalTransferred(c.lanes[..m])
  {
    if m > 0 {
      ResumedInLaneOrder(c, fileSize, lanes, results, m - 1);
      assert results[..m][..m - 1] == results[..m - 1] && c.lanes[..m][..m - 1] == c.lanes[..m - 1];
      assert LaneReports(fileSize, lanes, m - 1, c.lanes[m - 1].offset, results[m - 1]);
      assert CanonicalLane(c, m - 1);
    }
  }
}
