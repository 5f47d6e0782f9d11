/**
 A lane from end to end: the client's send pipeline, a connection that may break after any byte, the
 server's receive pipeline and its disk writer, under every schedule of both
 (crates/metra-client/src/transfer.rs, crates/metra-server/src/quic.rs).
 */
module LaneTransfer {
  import opened Common
  import opened Checkpoint
  import opened FrameLoop
  import opened LaneCodec
  import S = SendPipeline
  import R = ReceivePipeline
  import W = LaneWriter

  /** A run of the client's pipeline that sent its range. */
  ghost predicate Sent(cfg: S.Config, run: seq<S.State>, actions: seq<S.Action>, lane: Lane) {
    && S.IsRun(cfg, run, actions) && S.Stuck(cfg, run[|actions|]) && S.EncodesFor(cfg, lane)
    && cfg.resume < cfg.rangeEnd && S.Returned(cfg, run[|actions|]).Ok?
  }

  /** The server's pipeline for that lane, fed with the first `cut` bytes of what was sent. */
  ghost predicate Fed(cfg: R.Config, sent: S.Config, out: seq<byte>, cut: nat, lane: Lane) {
    && cut <= |out| && sent.resume <= sent.rangeEnd
    && cfg.rx == LaneReceiver(lane) && cfg.stream == out[..cut] && cfg.expected == sent.rangeEnd - sent.resume
  }

  lemma FlattenPrefix(a: seq<seq<byte>>, b: seq<seq<byte>>)
    requires a <= b
    ensures Flatten(a) <= Flatten(b)
  {
    S.PrefixIsShorter(b, |a|);
    assert b[..|a|] == a;
  }

  /**
   What is on its way is the source. At every moment of every schedule of both sides, with the
   connection broken after any byte, the bytes that the server's writer has been given are the source's
   from the resume offset on. When the server's tasks are over it reports success exactly when nothing
   was cut off and its writer did not fail, and then it has the whole range.
   */
  lemma ReceivesTheSource(sent: S.Config, sendRun: seq<S.State>, sendActions: seq<S.Action>, lane: Lane, cut: nat,
                          cfg: R.Config, run: seq<R.State>, actions: seq<R.Action>, i: nat)
    requires Sent(sent, sendRun, sendActions, lane) && Fed(cfg, sent, sendRun[|sendActions|].out, cut, lane)
    requires R.IsRun(cfg, run, actions) && i < |run|
    ensures sent.rangeEnd <= |sent.file| && Flatten(run[i].written) <= sent.file[sent.resume..sent.rangeEnd]
    ensures forall k :: 0 <= k < |run[i].written| ==> run[i].written[k] != []
    ensures R.Stuck(cfg, run[|actions|]) ==>
      var end := run[|actions|];
      && (R.Returned(cfg, end).Ok? <==> cut == |sendRun[|sendActions|].out| && end.writer.WriterDone?)
      && (R.Returned(cfg, end).Ok? ==> Flatten(end.written) == sent.file[sent.resume..sent.rangeEnd])
  {
    var s := sendRun[|sendActions|];
    S.SendsExactlyTheRange(sent, sendRun, sendActions);
    CutStreamYieldsWholeFrames(lane, s.frames, s.pieces, cut);
    R.WrittenIsPrefix(cfg, run, actions, i);
    var m := WholeFrames(s.frames, cut);
    assert run[i].written <= s.pieces[..m] <= s.pieces;
    FlattenPrefix(run[i].written, s.pieces);
    S.RunKeepsInv(sent, sendRun, sendActions, |sendActions|);
    forall k | 0 <= k < |run[i].written| ensures run[i].written[k] != [] {
      assert run[i].written[k] == s.pieces[k];
    }
    if R.Stuck(cfg, run[|actions|]) {
      R.HonestStreamDrains(cfg, run, actions, lane, s.frames, s.pieces, cut);
      if cut == |s.out| {
        assert s.pieces[..|s.pieces|] == s.pieces;
      }
    }
  }

  lemma PartOfPrefix(source: seq<byte>, resume: nat, rangeEnd: nat, before: seq<byte>, part: seq<byte>)
    requires resume <= rangeEnd <= |source| && before + part <= source[resume..rangeEnd]
    ensures var at := resume + |before|; at + |part| <= rangeEnd && part == source[at..at + |part|]
  {
    var upTo := before + part;
    assert part == upTo[|before|..] && upTo == source[resume..rangeEnd][..|upTo|];
    assert source[resume..rangeEnd][..|upTo|] == source[resume..resume + |upTo|];
  }

  /**
   Each chunk that the writer is given is the next part of the source: the premise under which the
   striped and the single-lane uploads write.
   */
  lemma ChunksAreHonest(source: seq<byte>, resume: nat, rangeEnd: nat, written: seq<seq<byte>>, k: nat)
    requires resume <= rangeEnd <= |source| && Flatten(written) <= source[resume..rangeEnd] && k < |written|
    ensures var at := resume + |Flatten(written[..k])|;
            at + |written[k]| <= rangeEnd && written[k] == source[at..at + |written[k]|]
  {
    assert written[..k + 1] == written[..k] + [written[k]];
    FlattenSnoc(written[..k], written[k]);
    FlattenPrefix(written[..k + 1], written);
    PartOfPrefix(source, resume, rangeEnd, Flatten(written[..k]), written[k]);
  }

  /** Writing received bytes at the resume offset. */
  lemma OverwrittenWithSource(before: seq<byte>, source: seq<byte>, resume: nat, rangeEnd: nat, bytes: seq<byte>)
    requires resume <= |before| && resume <= rangeEnd <= |source| && bytes <= source[resume..rangeEnd]
    ensures var after, end := W.Overwritten(before, resume, bytes), resume + |bytes|;
      && |after| >= end && after[..resume] == before[..resume]
      && after[resume..end] == source[resume..end]
      && (end <= |before| ==> |after| == |before| && after[end..] == before[end..])
  {
    assert bytes == source[resume..resume + |bytes|];
  }

  /**
   The disk writer on what the server's pipeline gave it: the file has the source's bytes from the
   resume offset on as far as they came, and is otherwise what it was.
   */
  method WriteReceived(file: W.StagingFile, checkpoint: CheckpointFile, progress: W.Progress, striped: bool, index: nat,
                       chunks: seq<seq<byte>>, ghost sent: S.Config, ghost lane: W.Lane, ghost journal: W.Journal)
    returns (r: Result<nat, CheckpointError>)
    requires file.Valid() && file.position == sent.resume
    requires lane.striped == striped && lane.checkpoint == checkpoint.stored && lane.index == index && lane.resume == sent.resume
    requires W.Readable(lane)
    requires sent.resume <= sent.rangeEnd <= |sent.file| && Flatten(chunks) <= sent.file[sent.resume..sent.rangeEnd]
    requires forall k :: 0 <= k < |chunks| ==> chunks[k] != []
    modifies file, checkpoint, progress, journal
    ensures !W.Gone(lane) ==>
      var end := sent.resume + |Flatten(chunks)|;
      && r == Ok(|Flatten(chunks)|) && end <= |file.content|
      && file.content[..sent.resume] == old(file.content)[..sent.resume]
      && file.content[sent.resume..end] == sent.file[sent.resume..end]
      && (end <= |old(file.content)| ==>
            |file.content| == |old(file.content)| && file.content[end..] == old(file.content)[end..])
      && (chunks != [] ==> file.onDisk == file.content)
      && W.Shows(checkpoint, progress, lane, end)
  {
    ghost var before := file.content;
    OverwrittenWithSource(before, sent.file, sent.resume, sent.rangeEnd, Flatten(chunks));
    r := W.WriteLane(file, checkpoint, progress, striped, index, file.position, chunks, lane, journal);
  }
}
