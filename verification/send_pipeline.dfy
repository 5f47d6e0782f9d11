/**
 The client's three-stage send pipeline for a file lane: reader, encrypter and sender, joined by two
 bounded channels, with read buffers that go round through a pool
 (crates/metra-client/src/transfer.rs).
 */
module SendPipeline {
  import opened Common
  import opened Frames
  import opened FrameLoop
  import opened LaneCodec

  /** `encode(chunk, i)` is what the encrypter makes of the i-th chunk of the session, if it can. */
  datatype Config = Config(
    encode: (seq<byte>, nat) -> Option<seq<byte>>,
    file: seq<byte>, resume: nat, rangeEnd: nat, ioChunkBytes: nat, depth: nat, transformDepth: nat)

  /** What the caller sees to: an acknowledged offset in the lane, buffers that hold something, and one buffer at least. */
  predicate ValidConfig(cfg: Config) {
    cfg.resume <= cfg.rangeEnd && cfg.ioChunkBytes >= 1 && cfg.depth >= 1
  }

  function MaxChunk(cfg: Config): nat
    requires cfg.resume <= cfg.rangeEnd
  {
    Min(cfg.ioChunkBytes, cfg.rangeEnd - cfg.resume)
  }

  datatype Reader =
    | NeedsBuffer
    | HasBuffer
    | HasChunk(chunk: seq<byte>)   // waiting for room in the read channel
    | ReaderDone                   // pool receiver and read channel dropped
    | ReaderFailed                 // early end of the file, or read channel closed
    | ReaderAborted                // by the sender, when it failed

  datatype WireChunk = WireChunk(wire: seq<byte>, plaintextLen: nat)

  datatype Encrypter =
    | NeedsChunk
    | HasFrame(frame: WireChunk)   // waiting for room in the encrypt channel
    | EncrypterDone
    | EncrypterFailed              // a chunk was refused; both channels dropped

  datatype Sender =
    | NeedsFrame
    | Recycles                     // frame written, about to give its buffer back
    | SenderDone
    | SenderFailed                 // the frames ended before the lane did

  /**
   `pieces` and `frames` are the histories of the chunks read and of the frames made so far, and
   `sent` the number of frames on the stream; the stages never look at them.
   */
  datatype State = State(
    pos: nat,
    pool: nat,
    reader: Reader,
    readQueue: seq<seq<byte>>,
    encrypter: Encrypter,
    frameCounter: nat,
    encryptQueue: seq<WireChunk>,
    sender: Sender,
    remaining: nat,
    bytesStreamed: nat,
    out: seq<byte>,
    pieces: seq<seq<byte>>,
    frames: seq<seq<byte>>,
    sent: nat)

  function Init(cfg: Config): State
    requires cfg.resume <= cfg.rangeEnd
  {
    State(cfg.resume, cfg.depth, NeedsBuffer, [], NeedsChunk, 0, [], NeedsFrame, cfg.rangeEnd - cfg.resume, 0, [], [], [], 0)
  }

  /** `Read(n)`: the file system may return fewer bytes than asked for, but none only at the end of the file. */
  datatype Action = TakeBuffer | Read(n: nat) | MeetEnd | SendChunk | Encrypt | SendFrame | Transmit | Recycle | Finish

  predicate ReaderOver(s: State) { s.reader.ReaderDone? || s.reader.ReaderFailed? || s.reader.ReaderAborted? }

  predicate EncrypterOver(s: State) { s.encrypter.EncrypterDone? || s.encrypter.EncrypterFailed? }

  predicate SenderOver(s: State) { s.sender.SenderDone? || s.sender.SenderFailed? }

  predicate Enabled(cfg: Config, s: State, a: Action) {
    match a
    case TakeBuffer => s.reader.NeedsBuffer? && (s.pos >= cfg.rangeEnd || s.pool > 0)
    case Read(n) =>
      && s.reader.HasBuffer?
      && 1 <= n && s.pos + n <= |cfg.file| && n <= cfg.rangeEnd - s.pos && n <= cfg.ioChunkBytes
    case MeetEnd => s.reader.HasBuffer? && s.pos >= |cfg.file|
    case SendChunk => s.reader.HasChunk? && (EncrypterOver(s) || |s.readQueue| < cfg.depth)
    case Encrypt => s.encrypter.NeedsChunk? && (s.readQueue != [] || ReaderOver(s))
    case SendFrame => s.encrypter.HasFrame? && |s.encryptQueue| < Max(cfg.transformDepth, 1)
    case Transmit => s.sender.NeedsFrame? && s.remaining > 0 && (s.encryptQueue != [] || EncrypterOver(s))
    case Recycle => s.sender.Recycles? && (ReaderOver(s) || s.pool < cfg.depth)
    case Finish => s.sender.NeedsFrame? && s.remaining == 0
  }

  function Do(cfg: Config, s: State, a: Action): State
    requires Enabled(cfg, s, a)
  {
    match a
    case TakeBuffer =>
      if s.pos >= cfg.rangeEnd then s.(reader := ReaderDone)
      else s.(reader := HasBuffer, pool := s.pool - 1)
    case Read(n) =>
      var chunk := cfg.file[s.pos..s.pos + n];
      s.(reader := HasChunk(chunk), pos := s.pos + n, pieces := s.pieces + [chunk])
    case MeetEnd => s.(reader := ReaderFailed)
    case SendChunk =>
      if EncrypterOver(s) then s.(reader := ReaderFailed)
      else s.(reader := NeedsBuffer, readQueue := s.readQueue + [s.reader.chunk])
    case Encrypt =>
      if s.readQueue == [] then s.(encrypter := EncrypterDone)
      else
        (match cfg.encode(s.readQueue[0], s.frameCounter)
         case None => s.(readQueue := [], encrypter := EncrypterFailed)
         case Some(wire) => s.(readQueue := s.readQueue[1..], frameCounter := s.frameCounter + 1,
                               frames := s.frames + [wire],
                               encrypter := HasFrame(WireChunk(wire, |s.readQueue[0]|))))
    case SendFrame => s.(encryptQueue := s.encryptQueue + [s.encrypter.frame], encrypter := NeedsChunk)
    case Transmit =>
      if s.encryptQueue == [] then s.(sender := SenderFailed, reader := if ReaderOver(s) then s.reader else ReaderAborted)
      else
        var chunk := s.encryptQueue[0];
        s.(encryptQueue := s.encryptQueue[1..], sender := Recycles, out := s.out + chunk.wire, sent := s.sent + 1,
           remaining := Max(0, s.remaining - chunk.plaintextLen), bytesStreamed := s.bytesStreamed + chunk.plaintextLen)
    case Recycle => s.(sender := NeedsFrame, pool := if ReaderOver(s) then s.pool else s.pool + 1)
    case Finish => s.(sender := SenderDone)
  }

  ghost predicate IsRun(cfg: Config, run: seq<State>, actions: seq<Action>) {
    && ValidConfig(cfg)
    && |run| == |actions| + 1
    && run[0] == Init(cfg)
    && forall i :: 0 <= i < |actions| ==> Enabled(cfg, run[i], actions[i]) && run[i + 1] == Do(cfg, run[i], actions[i])
  }

  ghost predicate Stuck(cfg: Config, s: State) { forall a :: !Enabled(cfg, s, a) }

  /** The call's result once all three tasks are joined. */
  function Returned(cfg: Config, s: State): Result<nat, ()> {
    if s.sender.SenderDone? && s.reader.ReaderDone? && s.encrypter.EncrypterDone? && s.bytesStreamed == cfg.rangeEnd - cfg.resume
    then Ok(s.bytesStreamed) else Err(())
  }

  // ---------------------------------------------------------------- the invariant

  /** Buffers that are out of the pool. */
  function BuffersOut(s: State): nat {
    (if s.reader.HasBuffer? || s.reader.HasChunk? then 1 else 0)
    + |s.readQueue|
    + (if s.encrypter.HasFrame? then 1 else 0)
    + |s.encryptQueue|
    + (if s.sender.Recycles? then 1 else 0)
  }

  /** The frames made so far are those of the first chunks, in order; the queue holds those not yet sent. */
  ghost predicate FramesInOrder(cfg: Config, s: State) {
    && s.sent + |s.encryptQueue| + (if s.encrypter.HasFrame? then 1 else 0) == s.frameCounter == |s.frames| <= |s.pieces|
    && (forall i :: 0 <= i < |s.frames| ==> cfg.encode(s.pieces[i], i) == Some(s.frames[i]))
    && (forall i :: 0 <= i < |s.encryptQueue| ==>
          s.encryptQueue[i] == WireChunk(s.frames[s.sent + i], |s.pieces[s.sent + i]|))
    && (s.encrypter.HasFrame? ==>
          s.encrypter.frame == WireChunk(s.frames[s.frameCounter - 1], |s.pieces[s.frameCounter - 1]|))
  }

  /** Unless a chunk was refused, every chunk read is framed, queued or in the reader's hands, in order. */
  ghost predicate ChunksInOrder(s: State) {
    s.encrypter.EncrypterFailed? ||
    (&& s.frameCounter + |s.readQueue| + (if s.reader.HasChunk? then 1 else 0) == |s.pieces|
     && (forall i :: 0 <= i < |s.readQueue| ==> s.readQueue[i] == s.pieces[s.frameCounter + i])
     && (s.reader.HasChunk? ==> s.reader.chunk == s.pieces[|s.pieces| - 1]))
  }

  /** The chunks read so far are the file from the resume offset on. */
  ghost predicate ReadSoFar(cfg: Config, pos: nat, pieces: seq<seq<byte>>) {
    && cfg.resume <= pos <= cfg.rangeEnd
    && (pieces == [] <==> pos == cfg.resume)
    && (pos > cfg.resume ==> pos <= |cfg.file| && Flatten(pieces) == cfg.file[cfg.resume..pos])
    && forall i :: 0 <= i < |pieces| ==> 1 <= |pieces[i]| <= MaxChunk(cfg)
  }

  /** The stream and the counters agree with the first `sent` frames. */
  ghost predicate SentSoFar(cfg: Config, pieces: seq<seq<byte>>, frames: seq<seq<byte>>, sent: nat,
                            out: seq<byte>, bytesStreamed: nat, remaining: nat)
  {
    && sent <= |frames| <= |pieces|
    && out == Flatten(frames[..sent])
    && bytesStreamed == |Flatten(pieces[..sent])|
    && cfg.resume + bytesStreamed + remaining == cfg.rangeEnd
  }

  /** A chunk that was read cannot be encoded. */
  ghost predicate Refused(cfg: Config, pieces: seq<seq<byte>>) {
    exists i :: 0 <= i < |pieces| && cfg.encode(pieces[i], i).None?
  }

  /** The only reasons for a failure. */
  ghost predicate Cause(cfg: Config, s: State) { |cfg.file| < cfg.rangeEnd || Refused(cfg, s.pieces) }

  ghost predicate BuffersInv(cfg: Config, s: State) {
    && (!ReaderOver(s) ==> s.pool + BuffersOut(s) <= cfg.depth)
    && (!ReaderOver(s) && !s.encrypter.EncrypterFailed? ==> s.pool + BuffersOut(s) == cfg.depth)
  }

  ghost predicate StagesInv(cfg: Config, s: State) {
    && (s.reader.HasBuffer? ==> s.pos < cfg.rangeEnd)
    && (s.reader.ReaderDone? ==> s.pos == cfg.rangeEnd)
    && (s.reader.ReaderFailed? ==> Cause(cfg, s) && (s.pos < cfg.rangeEnd || s.encrypter.EncrypterFailed?))
    && (s.reader.ReaderAborted? ==> s.sender.SenderFailed? && s.encrypter.EncrypterFailed?)
    && (s.encrypter.EncrypterDone? ==> ReaderOver(s) && s.readQueue == [])
    && (s.encrypter.EncrypterFailed? ==> Refused(cfg, s.pieces) && |s.frames| < |s.pieces|)
    && (s.sender.SenderDone? ==> s.remaining == 0)
    && (s.sender.SenderFailed? ==> Cause(cfg, s) && s.remaining > 0 && EncrypterOver(s) && ReaderOver(s))
  }

  ghost predicate Inv(cfg: Config, s: State) {
    && FramesInOrder(cfg, s)
    && ChunksInOrder(s)
    && ReadSoFar(cfg, s.pos, s.pieces)
    && SentSoFar(cfg, s.pieces, s.frames, s.sent, s.out, s.bytesStreamed, s.remaining)
    && BuffersInv(cfg, s)
    && StagesInv(cfg, s)
  }

  // ---------------------------------------------------------------- steps

  lemma ReadGoesOn(cfg: Config, pos: nat, pieces: seq<seq<byte>>, n: nat)
    requires ReadSoFar(cfg, pos, pieces) && 1 <= n <= Min(cfg.ioChunkBytes, cfg.rangeEnd - pos) && pos + n <= |cfg.file|
    ensures ReadSoFar(cfg, pos + n, pieces + [cfg.file[pos..pos + n]])
  {
    FlattenSnoc(pieces, cfg.file[pos..pos + n]);
    if pos == cfg.resume {
      assert Flatten(pieces) == [];
    } else {
      assert cfg.file[cfg.resume..pos] + cfg.file[pos..pos + n] == cfg.file[cfg.resume..pos + n];
    }
  }

  /** A chunk more does not undo a refusal. */
  lemma RefusalStays(cfg: Config, pieces: seq<seq<byte>>, chunk: seq<byte>)
    ensures Refused(cfg, pieces) ==> Refused(cfg, pieces + [chunk])
  {
    if Refused(cfg, pieces) {
      var i :| 0 <= i < |pieces| && cfg.encode(pieces[i], i).None?;
      assert (pieces + [chunk])[i] == pieces[i];
    }
  }

  lemma ReadKeepsOrder(cfg: Config, s: State, n: nat)
    requires FramesInOrder(cfg, s) && ChunksInOrder(s) && Enabled(cfg, s, Read(n))
    ensures FramesInOrder(cfg, Do(cfg, s, Read(n))) && ChunksInOrder(Do(cfg, s, Read(n)))
  {
  }

  lemma ReadKeepsStages(cfg: Config, s: State, n: nat)
    requires BuffersInv(cfg, s) && StagesInv(cfg, s) && Enabled(cfg, s, Read(n))
    ensures BuffersInv(cfg, Do(cfg, s, Read(n))) && StagesInv(cfg, Do(cfg, s, Read(n)))
  {
    RefusalStays(cfg, s.pieces, cfg.file[s.pos..s.pos + n]);
  }

  /** One chunk more has been read; nothing more has been sent. */
  lemma SentStays(cfg: Config, pieces: seq<seq<byte>>, chunk: seq<byte>, frames: seq<seq<byte>>, sent: nat,
                  out: seq<byte>, bytesStreamed: nat, remaining: nat)
    requires SentSoFar(cfg, pieces, frames, sent, out, bytesStreamed, remaining)
    ensures SentSoFar(cfg, pieces + [chunk], frames, sent, out, bytesStreamed, remaining)
  {
    assert (pieces + [chunk])[..sent] == pieces[..sent];
  }

  lemma ReadKeepsInv(cfg: Config, s: State, n: nat)
    requires ValidConfig(cfg) && Inv(cfg, s) && Enabled(cfg, s, Read(n))
    ensures Inv(cfg, Do(cfg, s, Read(n)))
  {
    ReadGoesOn(cfg, s.pos, s.pieces, n);
    SentStays(cfg, s.pieces, cfg.file[s.pos..s.pos + n], s.frames, s.sent, s.out, s.bytesStreamed, s.remaining);
    ReadKeepsOrder(cfg, s, n);
    ReadKeepsStages(cfg, s, n);
  }

  lemma TakeBufferKeepsInv(cfg: Config, s: State)
    requires ValidConfig(cfg) && Inv(cfg, s) && Enabled(cfg, s, TakeBuffer)
    ensures Inv(cfg, Do(cfg, s, TakeBuffer))
  {
  }

  lemma MeetEndKeepsInv(cfg: Config, s: State)
    requires ValidConfig(cfg) && Inv(cfg, s) && Enabled(cfg, s, MeetEnd)
    ensures Inv(cfg, Do(cfg, s, MeetEnd))
  {
  }

  lemma SendChunkKeepsInv(cfg: Config, s: State)
    requires ValidConfig(cfg) && Inv(cfg, s) && Enabled(cfg, s, SendChunk)
    ensures Inv(cfg, Do(cfg, s, SendChunk))
  {
    assert s.encrypter.EncrypterDone? ==> false;
  }

  lemma EncryptKeepsFrames(cfg: Config, s: State)
    requires FramesInOrder(cfg, s) && ChunksInOrder(s) && Enabled(cfg, s, Encrypt)
    requires s.readQueue != [] && cfg.encode(s.readQueue[0], s.frameCounter).Some?
    ensures FramesInOrder(cfg, Do(cfg, s, Encrypt)) && ChunksInOrder(Do(cfg, s, Encrypt))
  {
    assert s.readQueue[0] == s.pieces[s.frameCounter + 0];
  }

  lemma EncryptKeepsInv(cfg: Config, s: State)
    requires ValidConfig(cfg) && Inv(cfg, s) && Enabled(cfg, s, Encrypt)
    ensures Inv(cfg, Do(cfg, s, Encrypt))
  {
    if s.readQueue != [] {
      assert s.readQueue[0] == s.pieces[s.frameCounter + 0];
      if cfg.encode(s.readQueue[0], s.frameCounter).Some? {
        EncryptKeepsFrames(cfg, s);
        assert Do(cfg, s, Encrypt).frames[..s.sent] == s.frames[..s.sent];
      } else {
        assert Refused(cfg, s.pieces);
      }
    }
  }

  lemma SendFrameKeepsInv(cfg: Config, s: State)
    requires ValidConfig(cfg) && Inv(cfg, s) && Enabled(cfg, s, SendFrame)
    ensures Inv(cfg, Do(cfg, s, SendFrame))
  {
  }

  lemma SendingGoesOn(cfg: Config, pos: nat, pieces: seq<seq<byte>>, frames: seq<seq<byte>>, sent: nat,
                      out: seq<byte>, bytesStreamed: nat, remaining: nat)
    requires ReadSoFar(cfg, pos, pieces) && SentSoFar(cfg, pieces, frames, sent, out, bytesStreamed, remaining)
    requires sent < |frames|
    ensures remaining >= |pieces[sent]|
    ensures SentSoFar(cfg, pieces, frames, sent + 1, out + frames[sent], bytesStreamed + |pieces[sent]|, remaining - |pieces[sent]|)
  {
    assert pieces[..sent + 1] == pieces[..sent] + [pieces[sent]];
    assert frames[..sent + 1] == frames[..sent] + [frames[sent]];
    FlattenSnoc(pieces[..sent], pieces[sent]);
    FlattenSnoc(frames[..sent], frames[sent]);
    PrefixIsShorter(pieces, sent + 1);
  }

  lemma PrefixIsShorter(pieces: seq<seq<byte>>, m: nat)
    requires m <= |pieces|
    ensures Flatten(pieces) == Flatten(pieces[..m]) + Flatten(pieces[m..])
  {
    assert pieces == pieces[..m] + pieces[m..];
    FlattenAppend(pieces[..m], pieces[m..]);
  }

  /** When the frames have ended early, there is a reason. */
  lemma EndedEarly(cfg: Config, s: State)
    requires ValidConfig(cfg) && Inv(cfg, s) && s.remaining > 0 && s.encryptQueue == [] && EncrypterOver(s)
    ensures Cause(cfg, s)
  {
    assert s.pieces[..|s.pieces|] == s.pieces;
  }

  lemma TransmitKeepsFrames(cfg: Config, s: State)
    requires FramesInOrder(cfg, s) && Enabled(cfg, s, Transmit) && s.encryptQueue != []
    ensures FramesInOrder(cfg, Do(cfg, s, Transmit))
  {
  }

  lemma TransmitKeepsInv(cfg: Config, s: State)
    requires ValidConfig(cfg) && Inv(cfg, s) && Enabled(cfg, s, Transmit)
    ensures Inv(cfg, Do(cfg, s, Transmit))
  {
    if s.encryptQueue != [] {
      assert s.encryptQueue[0] == WireChunk(s.frames[s.sent + 0], |s.pieces[s.sent + 0]|);
      TransmitKeepsFrames(cfg, s);
      SendingGoesOn(cfg, s.pos, s.pieces, s.frames, s.sent, s.out, s.bytesStreamed, s.remaining);
    } else {
      EndedEarly(cfg, s);
    }
  }

  lemma RecycleKeepsInv(cfg: Config, s: State)
    requires ValidConfig(cfg) && Inv(cfg, s) && Enabled(cfg, s, Recycle)
    ensures Inv(cfg, Do(cfg, s, Recycle))
  {
  }

  lemma FinishKeepsInv(cfg: Config, s: State)
    requires ValidConfig(cfg) && Inv(cfg, s) && Enabled(cfg, s, Finish)
    ensures Inv(cfg, Do(cfg, s, Finish))
  {
  }

  lemma StepKeepsInv(cfg: Config, s: State, a: Action)
    requires ValidConfig(cfg) && Inv(cfg, s) && Enabled(cfg, s, a)
    ensures Inv(cfg, Do(cfg, s, a))
  {
    match a {
      case TakeBuffer => TakeBufferKeepsInv(cfg, s);
      case Read(n) => ReadKeepsInv(cfg, s, n);
      case MeetEnd => MeetEndKeepsInv(cfg, s);
      case SendChunk => SendChunkKeepsInv(cfg, s);
      case Encrypt => EncryptKeepsInv(cfg, s);
      case SendFrame => SendFrameKeepsInv(cfg, s);
      case Transmit => TransmitKeepsInv(cfg, s);
      case Recycle => RecycleKeepsInv(cfg, s);
      case Finish => FinishKeepsInv(cfg, s);
    }
  }

  lemma {:induction false} RunKeepsInv(cfg: Config, run: seq<State>, actions: seq<Action>, i: nat)
    requires IsRun(cfg, run, actions) && i < |run|
    ensures Inv(cfg, run[i])
  {
    if i > 0 {
      RunKeepsInv(cfg, run, actions, i - 1);
      StepKeepsInv(cfg, run[i - 1], actions[i - 1]);
    }
  }

  // ---------------------------------------------------------------- termination and progress

  /** Unread bytes weigh most, then chunks and frames by how many stages they have ahead. */
  function Measure(cfg: Config, s: State): nat {
    10 * Max(0, cfg.rangeEnd - s.pos)
    + (match s.reader case NeedsBuffer => 2 case HasBuffer => 1 case HasChunk(_) => 9 case _ => 0)
    + 6 * |s.readQueue|
    + (match s.encrypter case NeedsChunk => 1 case HasFrame(_) => 6 case _ => 0)
    + 4 * |s.encryptQueue|
    + (match s.sender case NeedsFrame => 1 case Recycles => 4 case _ => 0)
  }

  lemma MeasureFalls(cfg: Config, s: State, a: Action)
    requires ValidConfig(cfg) && Enabled(cfg, s, a)
    ensures Measure(cfg, Do(cfg, s, a)) < Measure(cfg, s)
  {
  }

  lemma {:induction false} RunsAreFinite(cfg: Config, run: seq<State>, actions: seq<Action>, i: nat)
    requires IsRun(cfg, run, actions) && i < |run|
    ensures i + Measure(cfg, run[i]) <= Measure(cfg, Init(cfg))
  {
    if i > 0 {
      RunsAreFinite(cfg, run, actions, i - 1);
      MeasureFalls(cfg, run[i - 1], actions[i - 1]);
    }
  }

  /** When no bytes remain to be sent, every chunk that was read has been sent, and all were read. */
  lemma EverythingSent(cfg: Config, s: State)
    requires ValidConfig(cfg) && Inv(cfg, s) && s.remaining == 0
    ensures s.sent == |s.frames| == |s.pieces| && s.pos == cfg.rangeEnd
  {
    PrefixIsShorter(s.pieces, s.sent);
  }

  /** No deadlock: a pipeline that cannot move has ended all three stages. */
  lemma StuckMeansOver(cfg: Config, s: State)
    requires ValidConfig(cfg) && Inv(cfg, s) && Stuck(cfg, s)
    ensures ReaderOver(s) && EncrypterOver(s) && SenderOver(s)
  {
    assert !Enabled(cfg, s, TakeBuffer) && !Enabled(cfg, s, Read(1)) && !Enabled(cfg, s, MeetEnd) && !Enabled(cfg, s, SendChunk);
    assert !Enabled(cfg, s, Encrypt) && !Enabled(cfg, s, SendFrame) && !Enabled(cfg, s, Transmit);
    assert !Enabled(cfg, s, Recycle) && !Enabled(cfg, s, Finish);
    if s.sender.SenderDone? {
      EverythingSent(cfg, s);
    }
  }

  // ---------------------------------------------------------------- main results

  /** The whole range is on the stream: the frames, in order, of chunks that are file[resume..rangeEnd]. */
  ghost predicate RangeSent(cfg: Config, s: State)
    requires ValidConfig(cfg) && cfg.rangeEnd <= |cfg.file|
  {
    && s.out == Flatten(s.frames) && |s.frames| == |s.pieces|
    && (forall i :: 0 <= i < |s.frames| ==> cfg.encode(s.pieces[i], i) == Some(s.frames[i]))
    && Flatten(s.pieces) == cfg.file[cfg.resume..cfg.rangeEnd]
  }

  lemma DoneMeansSent(cfg: Config, s: State)
    requires ValidConfig(cfg) && Inv(cfg, s) && s.sender.SenderDone?
    requires cfg.resume < cfg.rangeEnd || cfg.rangeEnd <= |cfg.file|
    ensures cfg.rangeEnd <= |cfg.file| && RangeSent(cfg, s) && s.bytesStreamed == cfg.rangeEnd - cfg.resume
  {
    EverythingSent(cfg, s);
    assert s.frames[..s.sent] == s.frames && s.pieces[..s.sent] == s.pieces;
  }

  /**
   Every schedule of the three stages, with any short reads, ends with all stages over after a bounded
   number of steps. It sends the whole range and returns its length, unless the file ends before the
   range does or a chunk that was read cannot be encoded; then it returns an error.
   */
  lemma SendsExactlyTheRange(cfg: Config, run: seq<State>, actions: seq<Action>)
    requires IsRun(cfg, run, actions) && Stuck(cfg, run[|actions|]) && cfg.resume < cfg.rangeEnd
    ensures var s := run[|actions|];
            && ReaderOver(s) && EncrypterOver(s) && SenderOver(s)
            && |actions| <= Measure(cfg, Init(cfg))
            && (Returned(cfg, s).Ok? <==> cfg.rangeEnd <= |cfg.file| && !Refused(cfg, s.pieces))
            && (Returned(cfg, s).Ok? ==> Returned(cfg, s).value == cfg.rangeEnd - cfg.resume && RangeSent(cfg, s))
  {
    var s := run[|actions|];
    RunKeepsInv(cfg, run, actions, |actions|);
    RunsAreFinite(cfg, run, actions, |actions|);
    StuckMeansOver(cfg, s);
    if s.sender.SenderDone? {
      DoneMeansSent(cfg, s);
    }
  }

  /** A lane that is already at its end sends nothing and succeeds. */
  lemma SendsNothingAtTheEnd(cfg: Config, run: seq<State>, actions: seq<Action>)
    requires IsRun(cfg, run, actions) && Stuck(cfg, run[|actions|]) && cfg.resume == cfg.rangeEnd
    ensures run[|actions|].out == [] && Returned(cfg, run[|actions|]) == Ok(0)
  {
    var s := run[|actions|];
    RunKeepsInv(cfg, run, actions, |actions|);
    StuckMeansOver(cfg, s);
    assert s.frames[..0] == [];
  }

  /** At every moment the stream holds whole frames of a prefix of the range. */
  lemma StreamIsPrefix(cfg: Config, run: seq<State>, actions: seq<Action>, i: nat)
    requires IsRun(cfg, run, actions) && i < |run|
    ensures var s := run[i];
            && s.sent <= |s.frames| <= |s.pieces|
            && s.out == Flatten(s.frames[..s.sent])
            && (s.sent > 0 ==> cfg.resume <= s.pos <= |cfg.file| && Flatten(s.pieces[..s.sent]) <= cfg.file[cfg.resume..s.pos])
  {
    RunKeepsInv(cfg, run, actions, i);
    PrefixIsShorter(run[i].pieces, run[i].sent);
  }

  /** While the reader is alive and no chunk was refused, no buffer is lost or made; giving one back never blocks. */
  lemma BuffersConserved(cfg: Config, run: seq<State>, actions: seq<Action>, i: nat)
    requires IsRun(cfg, run, actions) && i < |run|
    ensures !ReaderOver(run[i]) && !Refused(cfg, run[i].pieces)
            ==> run[i].pool + BuffersOut(run[i]) == cfg.depth
    ensures run[i].sender.Recycles? ==> Enabled(cfg, run[i], Recycle)
  {
    RunKeepsInv(cfg, run, actions, i);
  }

  /** Nor do frames pile up: at most `transformDepth` of them wait for the sender, or one if that is 0. */
  lemma {:induction false} EncryptQueueBounded(cfg: Config, run: seq<State>, actions: seq<Action>, i: nat)
    requires IsRun(cfg, run, actions) && i < |run|
    ensures |run[i].encryptQueue| <= Max(cfg.transformDepth, 1)
    ensures |run[i].readQueue| <= cfg.depth
  {
    if i > 0 {
      EncryptQueueBounded(cfg, run, actions, i - 1);
    }
  }

  /** No stage fails without a reason: the file ends early, or a chunk cannot be encoded. */
  lemma NoStageFails(cfg: Config, run: seq<State>, actions: seq<Action>, i: nat)
    requires IsRun(cfg, run, actions) && i < |run|
    requires cfg.rangeEnd <= |cfg.file| && !Refused(cfg, run[i].pieces)
    ensures !run[i].reader.ReaderFailed? && !run[i].reader.ReaderAborted?
    ensures !run[i].encrypter.EncrypterFailed? && !run[i].sender.SenderFailed?
  {
    RunKeepsInv(cfg, run, actions, i);
  }

  // ---------------------------------------------------------------- end to end

  /** The pipeline of a lane that encrypts with the lane's codec. */
  ghost predicate EncodesFor(cfg: Config, lane: Lane) {
    && ValidLane(lane)
    && forall chunk, i :: cfg.encode(chunk, i) == EncodePiece(lane, chunk, i)
  }

  /** At every moment of every schedule, the frames made so far never repeat a nonce. */
  lemma RunNoncesDistinct(cfg: Config, run: seq<State>, actions: seq<Action>, i: nat, lane: Lane)
    requires IsRun(cfg, run, actions) && i < |run| && EncodesFor(cfg, lane)
    ensures DistinctNonces(run[i].frames)
  {
    RunKeepsInv(cfg, run, actions, i);
    var s := run[i];
    assert FramesOf(lane, s.frames, s.pieces[..|s.frames|]);
    SessionNoncesDistinct(lane, s.frames, s.pieces[..|s.frames|]);
  }

  /** No schedule can meet a refusal, exactly when no chunk can be larger than a frame may be. */
  lemma LaneEncoderAcceptsIff(cfg: Config, lane: Lane)
    requires EncodesFor(cfg, lane) && ValidConfig(cfg) && cfg.resume < cfg.rangeEnd <= |cfg.file|
    ensures MaxChunk(cfg) <= MAX_PLAINTEXT_BYTES
       <==> forall run: seq<State>, actions: seq<Action> :: IsRun(cfg, run, actions) ==> !Refused(cfg, run[|actions|].pieces)
  {
    if MaxChunk(cfg) <= MAX_PLAINTEXT_BYTES {
      forall run: seq<State>, actions: seq<Action> | IsRun(cfg, run, actions) ensures !Refused(cfg, run[|actions|].pieces) {
        SmallChunksEncode(cfg, lane, run, actions);
      }
    } else {
      var run, actions := LargeChunkRefused(cfg, lane);
    }
  }

  lemma SmallChunksEncode(cfg: Config, lane: Lane, run: seq<State>, actions: seq<Action>)
    requires IsRun(cfg, run, actions) && EncodesFor(cfg, lane) && MaxChunk(cfg) <= MAX_PLAINTEXT_BYTES
    ensures !Refused(cfg, run[|actions|].pieces)
  {
    RunKeepsInv(cfg, run, actions, |actions|);
    forall i | 0 <= i < |run[|actions|].pieces| ensures cfg.encode(run[|actions|].pieces[i], i).Some? {
      EncodedFrameCarries(lane, run[|actions|].pieces[i], i);
    }
  }

  /** A file system that returns as much as it is asked for makes the first chunk too large. */
  lemma LargeChunkRefused(cfg: Config, lane: Lane) returns (run: seq<State>, actions: seq<Action>)
    requires EncodesFor(cfg, lane) && ValidConfig(cfg) && cfg.resume < cfg.rangeEnd <= |cfg.file|
    requires MaxChunk(cfg) > MAX_PLAINTEXT_BYTES
    ensures IsRun(cfg, run, actions) && Refused(cfg, run[|actions|].pieces)
  {
    var n := MaxChunk(cfg);
    var buffer := Do(cfg, Init(cfg), TakeBuffer);
    var read := Do(cfg, buffer, Read(n));
    run, actions := [Init(cfg), buffer, read], [TakeBuffer, Read(n)];
    EncodedFrameCarries(lane, read.pieces[0], 0);
    assert cfg.encode(read.pieces[0], 0).None?;
  }

  /** End to end: what the pipeline sent is what the server's loop receives, byte for byte. */
  lemma SentRangeIsReceived(cfg: Config, run: seq<State>, actions: seq<Action>, lane: Lane)
    requires IsRun(cfg, run, actions) && Stuck(cfg, run[|actions|]) && EncodesFor(cfg, lane) && cfg.resume < cfg.rangeEnd
    requires Returned(cfg, run[|actions|]).Ok?
    ensures var o := ReceiveFrames(LaneReceiver(lane), run[|actions|].out, cfg.rangeEnd - cfg.resume);
            && o.end == Complete && o.rest == []
            && cfg.rangeEnd <= |cfg.file| && Flatten(o.pieces) == cfg.file[cfg.resume..cfg.rangeEnd]
  {
    SendsExactlyTheRange(cfg, run, actions);
    var s := run[|actions|];
    StreamRoundTrip(lane, s.frames, s.pieces, []);
    assert s.out + [] == s.out;
  }
}
