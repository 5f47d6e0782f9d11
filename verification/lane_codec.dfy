/**
 The wire format of a lane: frames with a counted nonce, as the client writes them and as the server
 reads them, plugged into the frame loop (crates/metra-proto/src/lib.rs,
 crates/metra-client/src/transfer.rs, crates/metra-server/src/quic.rs).
 */
module LaneCodec {
  import opened Common
  import opened Frames
  import opened FrameLoop

  const U64_MAX: nat := 0xFFFF_FFFF_FFFF_FFFF

  /** What both ends know about a lane session. */
  datatype Lane = Lane(codec: PayloadCodec, aead: Option<Aead>, noncePrefix: NoncePrefix)

  ghost predicate ValidLane(lane: Lane) {
    CodecReady(lane.codec, lane.aead)
  }

  /** The nonce of the i-th frame; the counter saturates. */
  function FrameNonce(lane: Lane, i: nat): Nonce {
    PayloadNonce(lane.noncePrefix, Min(i, U64_MAX))
  }

  /** The i-th frame of a session; None when the piece is empty or too long. */
  function EncodePiece(lane: Lane, piece: seq<byte>, i: nat): Option<seq<byte>> {
    match EncodeFrame(lane.codec, piece, FrameNonce(lane, i), lane.aead)
    case Ok(frame) => Some(frame)
    case Err(_) => None
  }

  function ParseHeader(codec: PayloadCodec, header: seq<byte>): Option<Header> {
    if |header| != HEADER_BYTES then None
    else
      match DecodeHeader(header)
      case Err(_) => None
      case Ok((plaintextLen, nonce)) =>
        match AppPayloadWireLen(codec, plaintextLen)
        case Err(_) => None
        case Ok(wireLen) => Some(Header(plaintextLen, nonce, wireLen))
  }

  function OpenFrame(lane: Lane, frame: WireFrame): Option<seq<byte>> {
    match DecodePayload(lane.codec, frame.plaintextLen, frame.nonce, frame.payload, lane.aead)
    case Ok(piece) => Some(piece)
    case Err(_) => None
  }

  function LaneReceiver(lane: Lane): Receiver {
    Receiver((header: seq<byte>) => ParseHeader(lane.codec, header), (frame: WireFrame) => OpenFrame(lane, frame))
  }

  /** A piece can be sent exactly when it has 1 byte to 64 MiB, and then its frame carries it. */
  lemma EncodedFrameCarries(lane: Lane, piece: seq<byte>, i: nat)
    requires ValidLane(lane)
    ensures EncodePiece(lane, piece, i).Some? <==> 1 <= |piece| <= MAX_PLAINTEXT_BYTES
    ensures EncodePiece(lane, piece, i).Some? ==> Carries(LaneReceiver(lane), EncodePiece(lane, piece, i).value, piece)
  {
    EncodeSucceedsIff(lane.codec, piece, FrameNonce(lane, i), lane.aead);
    if 1 <= |piece| <= MAX_PLAINTEXT_BYTES {
      FrameRoundTrip(lane.codec, piece, FrameNonce(lane, i), lane.aead);
    }
  }

  // ---------------------------------------------------------------- streams

  /** The frames of a list of pieces, numbered from 0. */
  ghost predicate FramesOf(lane: Lane, frames: seq<seq<byte>>, pieces: seq<seq<byte>>) {
    && |frames| == |pieces|
    && forall i :: 0 <= i < |pieces| ==> EncodePiece(lane, pieces[i], i) == Some(frames[i])
  }

  lemma FramesOfSnoc(lane: Lane, frames: seq<seq<byte>>, pieces: seq<seq<byte>>, piece: seq<byte>, frame: seq<byte>)
    requires FramesOf(lane, frames, pieces) && EncodePiece(lane, piece, |pieces|) == Some(frame)
    ensures FramesOf(lane, frames + [frame], pieces + [piece])
  {
  }

  lemma FramesCarry(lane: Lane, frames: seq<seq<byte>>, pieces: seq<seq<byte>>)
    requires ValidLane(lane) && FramesOf(lane, frames, pieces)
    ensures Carry(LaneReceiver(lane), frames, pieces)
  {
    forall i | 0 <= i < |frames| ensures Carries(LaneReceiver(lane), frames[i], pieces[i]) {
      EncodedFrameCarries(lane, pieces[i], i);
    }
  }

  /** The header of each frame: the length of its piece, the lane's prefix, and the frame's number. */
  lemma FrameHeader(lane: Lane, frames: seq<seq<byte>>, pieces: seq<seq<byte>>, i: nat)
    requires ValidLane(lane) && FramesOf(lane, frames, pieces) && i < |frames| && i <= U64_MAX
    ensures |frames[i]| >= 16 && frames[i][4..8] == lane.noncePrefix && frames[i][8..16] == BigEndian(i, 8)
    ensures DecodeHeader(frames[i][..16]) == Ok((|pieces[i]|, frames[i][4..16]))
  {
    EncodedFrameCarries(lane, pieces[i], i);
    var nonce := FrameNonce(lane, i);
    FrameRoundTrip(lane.codec, pieces[i], nonce, lane.aead);
    HeaderBytes(|pieces[i]|, nonce);
    var header := EncodeHeader(|pieces[i]|, nonce).value;
    assert frames[i][..16] == header && frames[i][4..16] == nonce;
    assert frames[i][4..8] == nonce[..4] && frames[i][8..16] == nonce[4..];
  }

  /** No two of the first 2^64 frames carry the same nonce. */
  ghost predicate DistinctNonces(frames: seq<seq<byte>>) {
    forall i, j | 0 <= i < j < |frames| && j <= U64_MAX ::
      && |frames[i]| >= 16 && |frames[j]| >= 16
      && DecodeHeader(frames[i][..16]).Ok? && DecodeHeader(frames[j][..16]).Ok?
      && DecodeHeader(frames[i][..16]).value.1 != DecodeHeader(frames[j][..16]).value.1
  }

  /** The frames of a lane session never repeat a nonce under the lane's key. */
  lemma SessionNoncesDistinct(lane: Lane, frames: seq<seq<byte>>, pieces: seq<seq<byte>>)
    requires ValidLane(lane) && FramesOf(lane, frames, pieces)
    ensures DistinctNonces(frames)
  {
    Pow256Of8();
    forall i: nat, j: nat | i < j < |frames| && j <= U64_MAX
      ensures |frames[i]| >= 16 && |frames[j]| >= 16
      ensures DecodeHeader(frames[i][..16]).Ok? && DecodeHeader(frames[j][..16]).Ok?
      ensures DecodeHeader(frames[i][..16]).value.1 != DecodeHeader(frames[j][..16]).value.1
    {
      FrameHeader(lane, frames, pieces, i);
      FrameHeader(lane, frames, pieces, j);
      if frames[i][4..16] == frames[j][4..16] {
        assert frames[i][8..16] == frames[i][4..16][4..] == frames[j][4..16][4..] == frames[j][8..16];
        BigEndianInjective(i, j, 8);
      }
    }
  }

  /**
   Round trip. However the sender's short reads cut the data into pieces of 1 byte to 64 MiB, and
   with either codec, the server's loop over the concatenated frames recovers exactly those pieces,
   consumes exactly the frames, and meets neither an overflow nor a length mismatch.
   */
  lemma StreamRoundTrip(lane: Lane, frames: seq<seq<byte>>, pieces: seq<seq<byte>>, tail: seq<byte>)
    requires ValidLane(lane) && FramesOf(lane, frames, pieces)
    ensures ReceiveFrames(LaneReceiver(lane), Flatten(frames) + tail, |Flatten(pieces)|) == Outcome(pieces, tail, Complete)
  {
    FramesCarry(lane, frames, pieces);
    FramesRoundTrip(LaneReceiver(lane), frames, pieces, tail);
  }

  /**
   Disconnect. When the stream is cut after any number of bytes, also inside a header or a payload,
   the loop recovers exactly the pieces whose frames arrived whole, and completes only if all did.
   */
  lemma CutStreamYieldsWholeFrames(lane: Lane, frames: seq<seq<byte>>, pieces: seq<seq<byte>>, cut: nat)
    requires ValidLane(lane) && FramesOf(lane, frames, pieces) && cut <= |Flatten(frames)|
    ensures var m := WholeFrames(frames, cut);
            var o := ReceiveFrames(LaneReceiver(lane), Flatten(frames)[..cut], |Flatten(pieces)|);
            && o.pieces == pieces[..m]
            && o.end == (if m == |pieces| then Complete else StreamEnded)
            && (m == |pieces| <==> cut == |Flatten(frames)|)
  {
    FramesCarry(lane, frames, pieces);
    CutFrames(LaneReceiver(lane), frames, pieces, cut);
  }

  // ---------------------------------------------------------------- generated payload

  function Zeros(n: nat): seq<byte> { seq(n, _ => 0) }

  /** The generated lane's loop has sent `frames`, which carry `streamed` zeros in pieces of at most a buffer. */
  ghost predicate Generated(lane: Lane, frames: seq<seq<byte>>, pieces: seq<seq<byte>>, streamed: nat) {
    FramesOf(lane, frames, pieces) && Flatten(pieces) == Zeros(streamed)
  }

  lemma GeneratedNext(lane: Lane, frames: seq<seq<byte>>, pieces: seq<seq<byte>>, streamed: nat, n: nat, frame: seq<byte>)
    requires Generated(lane, frames, pieces, streamed) && EncodePiece(lane, Zeros(n), |pieces|) == Some(frame)
    ensures Generated(lane, frames + [frame], pieces + [Zeros(n)], streamed + n)
    ensures Flatten(frames + [frame]) == Flatten(frames) + frame
  {
    FramesOfSnoc(lane, frames, pieces, Zeros(n), frame);
    FlattenSnoc(pieces, Zeros(n));
    FlattenSnoc(frames, frame);
    assert Zeros(streamed) + Zeros(n) == Zeros(streamed + n);
  }

  /**
   The client's loop for a generated lane; `out` is what it writes to the stream. It fails exactly
   when its first chunk would be larger than a frame may be; otherwise the stream carries the zeros.
   */
  method SendGeneratedLane(lane: Lane, resume: nat, rangeEnd: nat, ioChunkBytes: nat)
    returns (r: Result<nat, FrameError>, out: seq<byte>, ghost frames: seq<seq<byte>>, ghost pieces: seq<seq<byte>>)
    requires ValidLane(lane) && resume <= rangeEnd && ioChunkBytes > 0
    ensures r.Ok? <==> resume == rangeEnd || Min(rangeEnd - resume, ioChunkBytes) <= MAX_PLAINTEXT_BYTES
    ensures r.Ok? ==> r.value == rangeEnd - resume
    ensures r.Ok? ==> Generated(lane, frames, pieces, rangeEnd - resume) && out == Flatten(frames)
    ensures r.Ok? ==> DistinctNonces(frames)
  {
    var remaining: nat := rangeEnd - resume;
    var streamed: nat := 0;
    var frameCounter := 0;
    out, frames, pieces := [], [], [];
    while remaining > 0
      invariant streamed + remaining == rangeEnd - resume
      invariant Generated(lane, frames, pieces, streamed) && out == Flatten(frames)
      invariant frameCounter == Min(|pieces|, U64_MAX)
      invariant streamed > 0 ==> Min(rangeEnd - resume, ioChunkBytes) <= MAX_PLAINTEXT_BYTES
      decreases remaining
    {
      var toSend := Min(remaining, ioChunkBytes);
      var nonce := PayloadNonce(lane.noncePrefix, frameCounter);
      EncodeSucceedsIff(lane.codec, Zeros(toSend), nonce, lane.aead);
      var frame := EncodeFrame(lane.codec, Zeros(toSend), nonce, lane.aead);
      if frame.Err? {
        r := Err(frame.error);
        return;
      }
      GeneratedNext(lane, frames, pieces, streamed, toSend, frame.value);
      out := out + frame.value;
      frameCounter := Min(frameCounter + 1, U64_MAX);
      frames, pieces := frames + [frame.value], pieces + [Zeros(toSend)];
      remaining := remaining - toSend;
      streamed := streamed + toSend;
    }
    SessionNoncesDistinct(lane, frames, pieces);
    r := Ok(streamed);
  }

  /** A generated lane arrives as exactly the zeros that were asked for. */
  lemma GeneratedLaneArrives(lane: Lane, frames: seq<seq<byte>>, pieces: seq<seq<byte>>, total: nat)
    requires ValidLane(lane) && Generated(lane, frames, pieces, total)
    ensures var o := ReceiveFrames(LaneReceiver(lane), Flatten(frames), total);
            o.end == Complete && o.rest == [] && Flatten(o.pieces) == Zeros(total)
  {
    StreamRoundTrip(lane, frames, pieces, []);
    assert Flatten(frames) + [] == Flatten(frames);
  }
}
