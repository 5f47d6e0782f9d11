/**
 The server's three-stage receive pipeline: frame reader, decrypter and disk writer, joined by two
 bounded channels (crates/metra-server/src/quic.rs). Every schedule of the three tasks, on any byte
 stream, hands the writer exactly the pieces that the sequential loop ReceiveFrames would.
 */
module ReceivePipeline {
  import opened Common
  import opened Frames
  import opened FrameLoop
  import opened LaneCodec

  datatype Reader =
    | Reading
    | Sending(frame: WireFrame)     // waiting for room in the decrypt channel
    | Stopped(error: bool)          // loop left, decrypt channel closed

  datatype Decrypter =
    | Receiving
    | Passing(piece: seq<byte>)     // waiting for room in the writer channel
    | Broken                        // decode error, both channels dropped
    | Drained

  datatype Writer =
    | Writing
    | WriterDone
    | WriterFailed                  // write, sync or checkpoint error, writer channel dropped

  datatype State = State(
    stream: seq<byte>,
    bytesReceived: nat,
    reader: Reader,
    decryptQueue: seq<WireFrame>,
    decrypter: Decrypter,
    writerQueue: seq<seq<byte>>,
    written: seq<seq<byte>>,
    writer: Writer)

  /** `stream` is everything that arrives before the peer finishes or disconnects. */
  datatype Config = Config(rx: Receiver, stream: seq<byte>, expected: nat, depth: nat)

  function NormalizeDepth(depth: nat): (r: nat)
    ensures depth == 0 ==> r == 1
    ensures 1 <= depth <= 32 ==> r == depth
    ensures depth > 32 ==> r == 32
  {
    Clamp(depth, 1, 32)
  }

  /** The capacity of both channels. */
  function Depth(cfg: Config): nat { NormalizeDepth(cfg.depth) }

  function Init(cfg: Config): State {
    State(cfg.stream, 0, Reader.Reading, [], Receiving, [], [], Writing)
  }

  datatype Action = Read | Send | Decrypt | Pass | Write | FailWrite

  predicate DecrypterOver(s: State) { s.decrypter.Broken? || s.decrypter.Drained? }

  predicate Enabled(cfg: Config, s: State, a: Action) {
    match a
    case Read => s.reader.Reading?
    case Send => s.reader.Sending? && (DecrypterOver(s) || |s.decryptQueue| < Depth(cfg))
    case Decrypt => s.decrypter.Receiving? && (s.decryptQueue != [] || s.reader.Stopped?)
    case Pass => s.decrypter.Passing? && (s.writer.WriterFailed? || |s.writerQueue| < Depth(cfg))
    case Write => s.writer.Writing? && (s.writerQueue != [] || DecrypterOver(s))
    case FailWrite => s.writer.Writing?
  }

  function Do(cfg: Config, s: State, a: Action): State
    requires Enabled(cfg, s, a)
  {
    match a
    case Read =>
      if s.bytesReceived >= cfg.expected then s.(reader := Stopped(false))
      else
        (match ReadWireFrame(cfg.rx, s.stream)
         case Ended => s.(stream := [], reader := Stopped(true))
         case Refused(rest) => s.(stream := rest, reader := Stopped(true))
         case Frame(frame, rest) =>
           if frame.plaintextLen > cfg.expected - s.bytesReceived then s.(stream := rest, reader := Stopped(true))
           else s.(stream := rest, reader := Sending(frame)))
    case Send =>
      if DecrypterOver(s) then s.(reader := Stopped(true))
      else s.(decryptQueue := s.decryptQueue + [s.reader.frame], reader := Reader.Reading,
              bytesReceived := s.bytesReceived + s.reader.frame.plaintextLen)
    case Decrypt =>
      if s.decryptQueue == [] then s.(decrypter := Drained)
      else
        (match DecodeWire(cfg.rx, s.decryptQueue[0])
         case None => s.(decryptQueue := [], decrypter := Broken)
         case Some(piece) => s.(decryptQueue := s.decryptQueue[1..], decrypter := Passing(piece)))
    case Pass =>
      if s.writer.WriterFailed? then s.(decryptQueue := [], decrypter := Broken)
      else s.(writerQueue := s.writerQueue + [s.decrypter.piece], decrypter := Receiving)
    case Write =>
      if s.writerQueue != [] then s.(written := s.written + [s.writerQueue[0]], writerQueue := s.writerQueue[1..])
      else s.(writer := WriterDone)
    case FailWrite => s.(writerQueue := [], writer := WriterFailed)
  }

  ghost predicate IsRun(cfg: Config, run: seq<State>, actions: seq<Action>) {
    && |run| == |actions| + 1
    && run[0] == Init(cfg)
    && forall i :: 0 <= i < |actions| ==> Enabled(cfg, run[i], actions[i]) && run[i + 1] == Do(cfg, run[i], actions[i])
  }

  /** Nothing can happen any more, unless the writer fails. */
  ghost predicate Stuck(cfg: Config, s: State) { forall a :: a != FailWrite ==> !Enabled(cfg, s, a) }

  /** What the function returns once all three tasks are over: the checks after the joins. */
  function Returned(cfg: Config, s: State): Result<nat, ()> {
    if s.decrypter.Broken? || s.writer.WriterFailed? then Err(())
    else if s.reader == Stopped(true) then Err(())
    else if s.bytesReceived != cfg.expected then Err(())
    else if |Flatten(s.written)| != s.bytesReceived then Err(())
    else Ok(|Flatten(s.written)|)
  }

  // ---------------------------------------------------------------- refinement of the sequential loop

  /** Pieces that will reach the writer, and whether the whole lane will have arrived. */
  datatype Fate = Fate(pieces: seq<seq<byte>>, complete: bool)

  function FateOf(o: Outcome): Fate { Fate(o.pieces, o.end.Complete?) }

  function Before(pieces: seq<seq<byte>>, f: Fate): Fate { f.(pieces := pieces + f.pieces) }

  /** Fate of frames that are queued for decoding, followed by `later`. */
  function Decoded(rx: Receiver, frames: seq<WireFrame>, later: Fate): Fate {
    if frames == [] then later
    else
      match DecodeWire(rx, frames[0])
      case None => Fate([], false)
      case Some(piece) => Before([piece], Decoded(rx, frames[1..], later))
  }

  /** Fate of what the reader holds and of what is still in the stream. */
  function Unread(cfg: Config, s: State): Fate {
    match s.reader
    case Reading =>
      if s.bytesReceived <= cfg.expected
      then FateOf(ReceiveFrames(cfg.rx, s.stream, cfg.expected - s.bytesReceived))
      else Fate([], false)
    case Sending(frame) =>
      if s.bytesReceived + frame.plaintextLen <= cfg.expected
      then Decoded(cfg.rx, [frame],
             FateOf(ReceiveFrames(cfg.rx, s.stream, cfg.expected - s.bytesReceived - frame.plaintextLen)))
      else Fate([], false)
    case Stopped(error) => Fate([], !error)
  }

  function HeldPiece(s: State): seq<seq<byte>> {
    if s.decrypter.Passing? then [s.decrypter.piece] else []
  }

  /** Pieces that are past the decrypter. */
  function Past(s: State): seq<seq<byte>> { s.written + s.writerQueue + HeldPiece(s) }

  function FateHere(cfg: Config, s: State): Fate {
    Before(Past(s), if s.decrypter.Broken? then Fate([], false) else Decoded(cfg.rx, s.decryptQueue, Unread(cfg, s)))
  }

  /** What the sequential loop makes of the whole stream. */
  function WholeFate(cfg: Config): Fate { FateOf(ReceiveFrames(cfg.rx, cfg.stream, cfg.expected)) }

  /** With a failed writer, what was written stays; otherwise the pieces on their way are those to come. */
  ghost predicate OnTrack(cfg: Config, s: State) {
    && s.written <= WholeFate(cfg).pieces
    && if s.writer.WriterFailed? then s.writerQueue == [] else FateHere(cfg, s) == WholeFate(cfg)
  }

  ghost predicate Inv(cfg: Config, s: State) {
    && OnTrack(cfg, s)
    && |s.decryptQueue| <= Depth(cfg) && |s.writerQueue| <= Depth(cfg)
    && s.bytesReceived <= cfg.expected
    && (s.reader.Sending? ==> 1 <= s.reader.frame.plaintextLen && s.bytesReceived + s.reader.frame.plaintextLen <= cfg.expected)
    && (s.reader == Stopped(false) ==> s.bytesReceived == cfg.expected)
    && (s.reader == Stopped(true) && !s.decrypter.Broken? ==> s.bytesReceived < cfg.expected)
    && (s.decrypter.Drained? ==> s.reader.Stopped? && s.decryptQueue == [])
    && (s.decrypter.Broken? ==> s.decryptQueue == [])
    && (s.writer.WriterDone? ==> s.writerQueue == [] && DecrypterOver(s))
  }

  lemma BeforeBefore(a: seq<seq<byte>>, b: seq<seq<byte>>, f: Fate)
    ensures Before(a, Before(b, f)) == Before(a + b, f)
  {
    assert a + (b + f.pieces) == (a + b) + f.pieces;
  }

  lemma {:induction false} DecodedAppend(rx: Receiver, frames: seq<WireFrame>, frame: WireFrame, later: Fate)
    ensures Decoded(rx, frames + [frame], later) == Decoded(rx, frames, Decoded(rx, [frame], later))
  {
    if frames == [] {
      assert [] + [frame] == [frame];
    } else {
      assert (frames + [frame])[1..] == frames[1..] + [frame];
      DecodedAppend(rx, frames[1..], frame, later);
    }
  }

  lemma ReadKeepsInv(cfg: Config, s: State)
    requires Inv(cfg, s) && Enabled(cfg, s, Read)
    ensures Inv(cfg, Do(cfg, s, Read))
  {
    var s' := Do(cfg, s, Read);
    assert Unread(cfg, s') == Unread(cfg, s) by { ReadKeepsFate(cfg, s); }
  }

  /** Reading moves a frame from the stream to the reader without changing what will come of it. */
  lemma ReadKeepsFate(cfg: Config, s: State)
    requires s.reader.Reading? && s.bytesReceived <= cfg.expected
    ensures Unread(cfg, Do(cfg, s, Read)) == Unread(cfg, s)
  {
    if s.bytesReceived < cfg.expected && ReadWireFrame(cfg.rx, s.stream).Frame? {
      var Frame(frame, rest) := ReadWireFrame(cfg.rx, s.stream);
      if frame.plaintextLen <= cfg.expected - s.bytesReceived {
        var later := FateOf(ReceiveFrames(cfg.rx, rest, cfg.expected - s.bytesReceived - frame.plaintextLen));
        assert [frame][1..] == [];
        assert Decoded(cfg.rx, [], later) == later;
      }
    }
  }

  lemma SendKeepsInv(cfg: Config, s: State)
    requires Inv(cfg, s) && Enabled(cfg, s, Send)
    ensures Inv(cfg, Do(cfg, s, Send))
  {
    if !DecrypterOver(s) {
      var s' := Do(cfg, s, Send);
      DecodedAppend(cfg.rx, s.decryptQueue, s.reader.frame, Unread(cfg, s'));
      assert Unread(cfg, s) == Decoded(cfg.rx, [s.reader.frame], Unread(cfg, s'));
    }
  }

  lemma DecryptKeepsInv(cfg: Config, s: State)
    requires Inv(cfg, s) && Enabled(cfg, s, Decrypt)
    ensures Inv(cfg, Do(cfg, s, Decrypt))
  {
    var s' := Do(cfg, s, Decrypt);
    if s.decryptQueue != [] && DecodeWire(cfg.rx, s.decryptQueue[0]).Some? {
      var piece := DecodeWire(cfg.rx, s.decryptQueue[0]).value;
      BeforeBefore(Past(s), [piece], Decoded(cfg.rx, s.decryptQueue[1..], Unread(cfg, s)));
      assert Past(s') == Past(s) + [piece];
    } else {
      assert Past(s') == Past(s);
    }
  }

  lemma PassKeepsInv(cfg: Config, s: State)
    requires Inv(cfg, s) && Enabled(cfg, s, Pass)
    ensures Inv(cfg, Do(cfg, s, Pass))
  {
    if !s.writer.WriterFailed? {
      assert Past(Do(cfg, s, Pass)) == Past(s);
    }
  }

  lemma WriteKeepsInv(cfg: Config, s: State)
    requires Inv(cfg, s) && Enabled(cfg, s, Write)
    ensures Inv(cfg, Do(cfg, s, Write))
  {
    assert Past(Do(cfg, s, Write)) == Past(s);
  }

  lemma StepKeepsInv(cfg: Config, s: State, a: Action)
    requires Inv(cfg, s) && Enabled(cfg, s, a)
    ensures Inv(cfg, Do(cfg, s, a))
  {
    match a {
      case Read => ReadKeepsInv(cfg, s);
      case Send => SendKeepsInv(cfg, s);
      case Decrypt => DecryptKeepsInv(cfg, s);
      case Pass => PassKeepsInv(cfg, s);
      case Write => WriteKeepsInv(cfg, s);
      case FailWrite =>
    }
  }

  lemma {:induction false} RunKeepsInv(cfg: Config, run: seq<State>, actions: seq<Action>, i: nat)
    requires IsRun(cfg, run, actions) && i < |run|
    ensures Inv(cfg, run[i])
  {
    if i == 0 {
      var f := FateOf(ReceiveFrames(cfg.rx, cfg.stream, cfg.expected));
      assert Past(run[0]) == [] && [] + f.pieces == f.pieces;
    } else {
      RunKeepsInv(cfg, run, actions, i - 1);
      StepKeepsInv(cfg, run[i - 1], actions[i - 1]);
    }
  }

  // ---------------------------------------------------------------- termination

  /** Bytes still in the stream weigh most, then frames and pieces by how many stages they have ahead. */
  function Measure(s: State): nat {
    8 * |s.stream|
    + (match s.reader case Reading => 1 case Sending(_) => 7 case Stopped(_) => 0)
    + 5 * |s.decryptQueue|
    + (match s.decrypter case Receiving => 1 case Passing(_) => 5 case Broken => 0 case Drained => 0)
    + 3 * |s.writerQueue|
    + (if s.writer.Writing? then 1 else 0)
  }

  lemma MeasureFalls(cfg: Config, s: State, a: Action)
    requires Enabled(cfg, s, a)
    ensures Measure(Do(cfg, s, a)) < Measure(s)
  {
  }

  lemma {:induction false} RunsAreFinite(cfg: Config, run: seq<State>, actions: seq<Action>, i: nat)
    requires IsRun(cfg, run, actions) && i < |run|
    ensures i + Measure(run[i]) <= Measure(Init(cfg))
  {
    if i > 0 {
      RunsAreFinite(cfg, run, actions, i - 1);
      MeasureFalls(cfg, run[i - 1], actions[i - 1]);
    }
  }

  /** No deadlock: a pipeline that cannot move has stopped, drained and written everything. */
  lemma StuckMeansOver(cfg: Config, s: State)
    requires Inv(cfg, s) && Stuck(cfg, s)
    ensures s.reader.Stopped? && DecrypterOver(s) && !s.writer.Writing?
  {
    assert !Enabled(cfg, s, Read) && !Enabled(cfg, s, Send) && !Enabled(cfg, s, Decrypt);
    assert !Enabled(cfg, s, Pass) && !Enabled(cfg, s, Write);
  }

  // ---------------------------------------------------------------- main results

  /**
   Drain. For every schedule, channel depth and byte stream, cut anywhere, and wherever the writer may
   fail, all three tasks end within a bounded number of steps. If the writer does not fail, exactly
   the pieces of the sequential loop have been written, in order; if it does, some of the first of
   them. The pipeline returns Ok exactly when that loop completes and the writer did not fail, with
   exactly the expected number of bytes on disk.
   */
  lemma PipelineRefinesLoop(cfg: Config, run: seq<State>, actions: seq<Action>)
    requires IsRun(cfg, run, actions) && Stuck(cfg, run[|actions|])
    ensures var s := run[|actions|];
            var o := ReceiveFrames(cfg.rx, cfg.stream, cfg.expected);
            && s.reader.Stopped? && DecrypterOver(s) && !s.writer.Writing?
            && s.written <= o.pieces
            && (s.writer.WriterDone? ==> s.written == o.pieces)
            && (Returned(cfg, s).Ok? <==> o.end.Complete? && s.writer.WriterDone?)
            && (Returned(cfg, s).Ok? ==> Returned(cfg, s).value == cfg.expected == |Flatten(s.written)|)
            && |actions| <= Measure(Init(cfg))
  {
    var s := run[|actions|];
    RunKeepsInv(cfg, run, actions, |actions|);
    RunsAreFinite(cfg, run, actions, |actions|);
    StuckMeansOver(cfg, s);
    ReceivedBytes(cfg.rx, cfg.stream, cfg.expected);
    if s.writer.WriterDone? {
      assert Past(s) == s.written;
      assert Decoded(cfg.rx, [], Unread(cfg, s)) == Unread(cfg, s);
      assert s.written + [] == s.written;
    }
  }

  /** At every moment, what has been written is a prefix of what the sequential loop yields, and at most 32 frames wait in a channel. */
  lemma WrittenIsPrefix(cfg: Config, run: seq<State>, actions: seq<Action>, i: nat)
    requires IsRun(cfg, run, actions) && i < |run|
    ensures run[i].written <= ReceiveFrames(cfg.rx, cfg.stream, cfg.expected).pieces
    ensures |run[i].decryptQueue| <= Min(Max(cfg.depth, 1), 32) && |run[i].writerQueue| <= Min(Max(cfg.depth, 1), 32)
  {
    RunKeepsInv(cfg, run, actions, i);
  }

  /**
   With an honest sender whose stream is cut after any number of bytes, a writer that does not fail
   gets exactly the frames that arrived whole, and the call succeeds exactly when nothing was cut off.
   */
  lemma HonestStreamDrains(cfg: Config, run: seq<State>, actions: seq<Action>, lane: Lane,
                           frames: seq<seq<byte>>, pieces: seq<seq<byte>>, cut: nat)
    requires IsRun(cfg, run, actions) && Stuck(cfg, run[|actions|])
    requires ValidLane(lane) && FramesOf(lane, frames, pieces) && cut <= |Flatten(frames)|
    requires cfg.rx == LaneReceiver(lane) && cfg.stream == Flatten(frames)[..cut] && cfg.expected == |Flatten(pieces)|
    ensures var s := run[|actions|];
            && s.written <= pieces[..WholeFrames(frames, cut)]
            && (s.writer.WriterDone? ==> s.written == pieces[..WholeFrames(frames, cut)])
            && (Returned(cfg, s).Ok? <==> cut == |Flatten(frames)| && s.writer.WriterDone?)
  {
    PipelineRefinesLoop(cfg, run, actions);
    CutStreamYieldsWholeFrames(lane, frames, pieces, cut);
  }
}
