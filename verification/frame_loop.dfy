/**
 The frame-reading loop of the server, over any way of reading and decoding one frame
 (crates/metra-server/src/quic.rs). LaneCodec supplies the wire format.
 */
module FrameLoop {
  import opened Common
  import opened Frames

  /** A parsed header: what it announces, and how many payload bytes follow. */
  datatype Header = Header(plaintextLen: nat, nonce: Nonce, wireLen: nat)

  datatype WireFrame = WireFrame(plaintextLen: nat, nonce: Nonce, payload: seq<byte>)

  /** How a lane parses the 16 bytes of a header, and opens the payload of a frame. */
  datatype Receiver = Receiver(parse: seq<byte> -> Option<Header>, open: WireFrame -> Option<seq<byte>>)

  /** What comes of reading one frame; `rest` is the stream behind what was read. */
  datatype Reading =
    | Frame(frame: WireFrame, rest: seq<byte>)
    | Refused(rest: seq<byte>)     // the header is not that of a frame
    | Ended                        // the stream ended first, and is used up

  /** `read_exact` of a header and of the payload it announces. */
  function ReadWireFrame(rx: Receiver, stream: seq<byte>): (r: Reading)
    ensures r.Frame? ==> |r.rest| < |stream| && r.frame.plaintextLen > 0
  {
    if |stream| < HEADER_BYTES then Ended
    else
      match rx.parse(stream[..HEADER_BYTES])
      case None => Refused(stream[HEADER_BYTES..])
      case Some(h) =>
        if h.plaintextLen == 0 then Refused(stream[HEADER_BYTES..])
        else if |stream| < HEADER_BYTES + h.wireLen then Ended
        else Frame(WireFrame(h.plaintextLen, h.nonce, stream[HEADER_BYTES..HEADER_BYTES + h.wireLen]),
                   stream[HEADER_BYTES + h.wireLen..])
  }

  /** Decoding fails also when the plaintext does not have the announced length. */
  function DecodeWire(rx: Receiver, frame: WireFrame): (r: Option<seq<byte>>)
    ensures r.Some? ==> |r.value| == frame.plaintextLen
  {
    match rx.open(frame)
    case None => None
    case Some(piece) => if |piece| != frame.plaintextLen then None else Some(piece)
  }

  // ---------------------------------------------------------------- the loop

  datatype StreamEnd = Complete | StreamEnded | HeaderRefused | Overflow | DecodeFailed

  datatype Outcome = Outcome(pieces: seq<seq<byte>>, rest: seq<byte>, end: StreamEnd)

  function Prepend(pieces: seq<seq<byte>>, o: Outcome): Outcome {
    o.(pieces := pieces + o.pieces)
  }

  /** The frames of a stream, one after the other, until `expected` plaintext bytes have arrived. */
  function ReceiveFrames(rx: Receiver, stream: seq<byte>, expected: nat): Outcome
    decreases |stream|
  {
    if expected == 0 then Outcome([], stream, Complete)
    else
      match ReadWireFrame(rx, stream)
      case Ended => Outcome([], [], StreamEnded)
      case Refused(rest) => Outcome([], rest, HeaderRefused)
      case Frame(frame, rest) =>
        if frame.plaintextLen > expected then Outcome([], rest, Overflow)
        else
          match DecodeWire(rx, frame)
          case None => Outcome([], rest, DecodeFailed)
          case Some(piece) => Prepend([piece], ReceiveFrames(rx, rest, expected - |piece|))
  }

  lemma PrependPrepend(a: seq<seq<byte>>, b: seq<seq<byte>>, o: Outcome)
    ensures Prepend(a, Prepend(b, o)) == Prepend(a + b, o)
  {
    assert a + (b + o.pieces) == (a + b) + o.pieces;
  }

  /** Never more than expected, and all of it exactly when the loop completed. */
  lemma {:induction false} ReceivedBytes(rx: Receiver, stream: seq<byte>, expected: nat)
    ensures var o := ReceiveFrames(rx, stream, expected);
            && |Flatten(o.pieces)| <= expected
            && (|Flatten(o.pieces)| == expected <==> o.end.Complete?)
    decreases |stream|
  {
    if expected > 0 && ReadWireFrame(rx, stream).Frame? {
      var Frame(frame, rest) := ReadWireFrame(rx, stream);
      if frame.plaintextLen <= expected && DecodeWire(rx, frame).Some? {
        var piece := DecodeWire(rx, frame).value;
        ReceivedBytes(rx, rest, expected - |piece|);
        var o := ReceiveFrames(rx, rest, expected - |piece|);
        assert ([piece] + o.pieces)[1..] == o.pieces;
      }
    }
  }

  /** The loop has taken `pieces` off the stream and `rest` is left. */
  ghost predicate Reached(rx: Receiver, stream: seq<byte>, expected: nat, pieces: seq<seq<byte>>, rest: seq<byte>) {
    && |Flatten(pieces)| <= expected
    && ReceiveFrames(rx, stream, expected) == Prepend(pieces, ReceiveFrames(rx, rest, expected - |Flatten(pieces)|))
  }

  lemma ReachesNext(rx: Receiver, stream: seq<byte>, expected: nat, pieces: seq<seq<byte>>, rest: seq<byte>, frame: WireFrame, rest': seq<byte>)
    requires Reached(rx, stream, expected, pieces, rest)
    requires ReadWireFrame(rx, rest) == Frame(frame, rest') && DecodeWire(rx, frame).Some?
    requires |Flatten(pieces)| + frame.plaintextLen <= expected
    ensures Reached(rx, stream, expected, pieces + [DecodeWire(rx, frame).value], rest')
    ensures |Flatten(pieces + [DecodeWire(rx, frame).value])| == |Flatten(pieces)| + frame.plaintextLen
  {
    var piece := DecodeWire(rx, frame).value;
    FlattenSnoc(pieces, piece);
    PrependPrepend(pieces, [piece], ReceiveFrames(rx, rest', expected - |Flatten(pieces)| - |piece|));
  }

  /** The server's loop for uploads that are not kept on disk. */
  method ReceiveLaneNoDisk(rx: Receiver, stream: seq<byte>, expected: nat) returns (r: Result<nat, StreamEnd>, rest: seq<byte>)
    ensures var o := ReceiveFrames(rx, stream, expected);
            && rest == o.rest
            && (r.Ok? <==> o.end.Complete?)
            && (r.Ok? ==> r.value == |Flatten(o.pieces)| == expected)
            && (r.Err? ==> r.error == o.end)
  {
    ghost var pieces: seq<seq<byte>> := [];
    var written: nat := 0;
    rest := stream;
    assert [] + ReceiveFrames(rx, stream, expected).pieces == ReceiveFrames(rx, stream, expected).pieces;
    while written < expected
      invariant written == |Flatten(pieces)| && Reached(rx, stream, expected, pieces, rest)
      decreases |rest|
    {
      var next := ReadWireFrame(rx, rest);
      match next {
        case Ended => return Err(StreamEnded), [];
        case Refused(behind) => return Err(HeaderRefused), behind;
        case Frame(_, _) =>
      }
      var frame, rest' := next.frame, next.rest;
      if frame.plaintextLen > expected - written {
        return Err(Overflow), rest';
      }
      var plaintext := DecodeWire(rx, frame);
      if plaintext.None? {
        return Err(DecodeFailed), rest';
      }
      ReachesNext(rx, stream, expected, pieces, rest, frame, rest');
      pieces := pieces + [plaintext.value];
      written := written + |plaintext.value|;
      rest := rest';
    }
    assert pieces + [] == pieces;
    r := Ok(written);
  }

  // ---------------------------------------------------------------- streams of well-formed frames

  /** The bytes `frame` carry `piece`: header and payload parse, and open to the piece. */
  ghost predicate Carries(rx: Receiver, frame: seq<byte>, piece: seq<byte>) {
    && piece != []
    && |frame| >= HEADER_BYTES
    && var h := rx.parse(frame[..HEADER_BYTES]);
    && h.Some? && h.value.plaintextLen == |piece| && h.value.wireLen == |frame| - HEADER_BYTES
    && rx.open(WireFrame(|piece|, h.value.nonce, frame[HEADER_BYTES..])) == Some(piece)
  }

  lemma ReadsWholeFrame(rx: Receiver, frame: seq<byte>, piece: seq<byte>, tail: seq<byte>)
    requires Carries(rx, frame, piece)
    ensures var r := ReadWireFrame(rx, frame + tail);
            r.Frame? && r.rest == tail && r.frame.plaintextLen == |piece| && DecodeWire(rx, r.frame) == Some(piece)
  {
    assert (frame + tail)[..HEADER_BYTES] == frame[..HEADER_BYTES];
    assert (frame + tail)[HEADER_BYTES..|frame|] == frame[HEADER_BYTES..];
    assert (frame + tail)[|frame|..] == tail;
  }

  lemma CutFrameIsNotRead(rx: Receiver, frame: seq<byte>, piece: seq<byte>, cut: nat)
    requires Carries(rx, frame, piece) && cut < |frame|
    ensures ReadWireFrame(rx, frame[..cut]) == Ended
  {
    if cut >= HEADER_BYTES {
      assert frame[..cut][..HEADER_BYTES] == frame[..HEADER_BYTES];
    }
  }

  ghost predicate Carry(rx: Receiver, frames: seq<seq<byte>>, pieces: seq<seq<byte>>) {
    && |frames| == |pieces|
    && forall i :: 0 <= i < |frames| ==> Carries(rx, frames[i], pieces[i])
  }

  lemma ReceivesFirst(rx: Receiver, frame: seq<byte>, piece: seq<byte>, tail: seq<byte>, expected: nat)
    requires Carries(rx, frame, piece) && |piece| <= expected
    ensures ReceiveFrames(rx, frame + tail, expected) == Prepend([piece], ReceiveFrames(rx, tail, expected - |piece|))
  {
    ReadsWholeFrame(rx, frame, piece, tail);
  }

  lemma CutFirst(rx: Receiver, frame: seq<byte>, piece: seq<byte>, cut: nat, expected: nat)
    requires Carries(rx, frame, piece) && cut < |frame| && expected > 0
    ensures ReceiveFrames(rx, frame[..cut], expected) == Outcome([], [], StreamEnded)
  {
    CutFrameIsNotRead(rx, frame, piece, cut);
  }

  /** The loop recovers the pieces of a list of frames, and stops exactly behind them. */
  lemma {:induction false} FramesRoundTrip(rx: Receiver, frames: seq<seq<byte>>, pieces: seq<seq<byte>>, tail: seq<byte>)
    requires Carry(rx, frames, pieces)
    ensures ReceiveFrames(rx, Flatten(frames) + tail, |Flatten(pieces)|) == Outcome(pieces, tail, Complete)
  {
    if frames == [] {
      assert Flatten(frames) + tail == tail;
    } else {
      assert Flatten(frames) + tail == frames[0] + (Flatten(frames[1..]) + tail);
      ReceivesFirst(rx, frames[0], pieces[0], Flatten(frames[1..]) + tail, |Flatten(pieces)|);
      FramesRoundTrip(rx, frames[1..], pieces[1..], tail);
      assert [pieces[0]] + pieces[1..] == pieces;
    }
  }

  /** How many whole frames lie in the first `cut` bytes. */
  function WholeFrames(frames: seq<seq<byte>>, cut: nat): (m: nat)
    ensures m <= |frames|
  {
    if frames == [] || cut < |frames[0]| then 0
    else 1 + WholeFrames(frames[1..], cut - |frames[0]|)
  }

  /** That many frames fit before the cut, and one more does not. */
  lemma {:induction false} WholeFramesFit(frames: seq<seq<byte>>, cut: nat)
    ensures var m := WholeFrames(frames, cut);
            && |Flatten(frames[..m])| <= cut
            && (m < |frames| ==> cut < |Flatten(frames[..m + 1])|)
  {
    if frames != [] {
      var m := WholeFrames(frames, cut);
      if m == 0 {
        assert frames[..1][1..] == frames[..0] && Flatten(frames[..0]) == [];
        assert frames[..1][0] == frames[0];
      } else {
        WholeFramesFit(frames[1..], cut - |frames[0]|);
        assert frames[..m][1..] == frames[1..][..m - 1];
        assert m < |frames| ==> frames[..m + 1][1..] == frames[1..][..m];
      }
    }
  }

  /** What the loop makes of a list of frames that is cut off. */
  ghost predicate YieldsWholeFrames(rx: Receiver, frames: seq<seq<byte>>, pieces: seq<seq<byte>>, cut: nat)
    requires cut <= |Flatten(frames)| && |frames| == |pieces|
  {
    var m := WholeFrames(frames, cut);
    var o := ReceiveFrames(rx, Flatten(frames)[..cut], |Flatten(pieces)|);
    && o.pieces == pieces[..m]
    && o.end == (if m == |pieces| then Complete else StreamEnded)
    && (m == |pieces| <==> cut == |Flatten(frames)|)
  }

  lemma CutInFirst(rx: Receiver, frames: seq<seq<byte>>, pieces: seq<seq<byte>>, cut: nat)
    requires Carry(rx, frames, pieces) && frames != [] && cut < |frames[0]|
    ensures cut <= |Flatten(frames)| && YieldsWholeFrames(rx, frames, pieces, cut)
  {
    assert Flatten(frames)[..cut] == frames[0][..cut];
    CutFirst(rx, frames[0], pieces[0], cut, |Flatten(pieces)|);
  }

  lemma WholeNext(frames: seq<seq<byte>>, cut: nat)
    requires frames != [] && |frames[0]| <= cut <= |Flatten(frames)|
    ensures WholeFrames(frames, cut) == 1 + WholeFrames(frames[1..], cut - |frames[0]|)
    ensures Flatten(frames)[..cut] == frames[0] + Flatten(frames[1..])[..cut - |frames[0]|]
  {
  }

  lemma ReceivesNext(rx: Receiver, frames: seq<seq<byte>>, pieces: seq<seq<byte>>, cut: nat)
    requires Carry(rx, frames, pieces) && frames != [] && |frames[0]| <= cut <= |Flatten(frames)|
    ensures ReceiveFrames(rx, Flatten(frames)[..cut], |Flatten(pieces)|)
         == Prepend([pieces[0]], ReceiveFrames(rx, Flatten(frames[1..])[..cut - |frames[0]|], |Flatten(pieces[1..])|))
  {
    WholeNext(frames, cut);
    assert Carries(rx, frames[0], pieces[0]);
    assert |Flatten(pieces)| == |pieces[0]| + |Flatten(pieces[1..])|;
    ReceivesFirst(rx, frames[0], pieces[0], Flatten(frames[1..])[..cut - |frames[0]|], |Flatten(pieces)|);
  }

  lemma CutLater(rx: Receiver, frames: seq<seq<byte>>, pieces: seq<seq<byte>>, cut: nat)
    requires Carry(rx, frames, pieces) && frames != [] && |frames[0]| <= cut <= |Flatten(frames)|
    requires YieldsWholeFrames(rx, frames[1..], pieces[1..], cut - |frames[0]|)
    ensures YieldsWholeFrames(rx, frames, pieces, cut)
  {
    var m := WholeFrames(frames[1..], cut - |frames[0]|);
    WholeNext(frames, cut);
    ReceivesNext(rx, frames, pieces, cut);
    assert [pieces[0]] + pieces[1..][..m] == pieces[..1 + m];
  }

  /** Cut anywhere, also inside a frame, the loop recovers exactly the pieces whose frames are whole. */
  lemma {:induction false} CutFrames(rx: Receiver, frames: seq<seq<byte>>, pieces: seq<seq<byte>>, cut: nat)
    requires Carry(rx, frames, pieces) && cut <= |Flatten(frames)|
    ensures YieldsWholeFrames(rx, frames, pieces, cut)
  {
    if frames != [] {
      if cut < |frames[0]| {
        CutInFirst(rx, frames, pieces, cut);
      } else {
        assert forall i :: 0 <= i < |frames| - 1 ==> Carries(rx, frames[1..][i], pieces[1..][i]);
        CutFrames(rx, frames[1..], pieces[1..], cut - |frames[0]|);
        CutLater(rx, frames, pieces, cut);
      }
    }
  }
}
