/** The payload frame codec (crates/metra-proto/src/lib.rs). */
module Frames {
  import opened Common

  const HEADER_BYTES: nat := 16
  const AEAD_TAG_BYTES: nat := 16
  const NONCE_BYTES: nat := 12
  const MAX_PLAINTEXT_BYTES: nat := 64 * 1024 * 1024

  datatype PayloadCodec = RawV1 | AeadV1

  datatype FrameError =
    | EmptyFrame
    | FrameTooLong
    | MissingCodec
    | SealFailed
    | OpenFailed
    | WireLengthMismatch
    | PlaintextLengthMismatch

  type Nonce = n: seq<byte> | |n| == NONCE_BYTES witness seq(12, _ => 0)

  /** An authenticated cipher under one lane's key, with its associated data fixed. */
  datatype Aead = Aead(
    seal: (Nonce, seq<byte>) -> Option<seq<byte>>,
    open: (Nonce, seq<byte>) -> Option<seq<byte>>)

  /**
   The laws of AEAD_CHACHA20_POLY1305 (section 2.8 of RFC 8439) that the framing relies on: sealing
   a frame-sized plaintext succeeds, adds a 16-byte tag, and is undone by opening with the nonce.
   */
  ghost predicate Lawful(aead: Aead) {
    forall n: Nonce, p: seq<byte> {:trigger aead.seal(n, p)} :: |p| <= MAX_PLAINTEXT_BYTES ==>
      && aead.seal(n, p).Some?
      && |aead.seal(n, p).value| == |p| + AEAD_TAG_BYTES
      && aead.open(n, aead.seal(n, p).value) == Some(p)
  }

  /** The laws can be met. */
  lemma LawfulAeadExists() returns (aead: Aead)
    ensures Lawful(aead)
  {
    aead := Aead(
      (n: Nonce, p: seq<byte>) => Some(p + n + n[..4]),
      (n: Nonce, c: seq<byte>) => if |c| < AEAD_TAG_BYTES then None else Some(c[..|c| - AEAD_TAG_BYTES]));
    forall n: Nonce, p: seq<byte> | |p| <= MAX_PLAINTEXT_BYTES
      ensures aead.open(n, aead.seal(n, p).value) == Some(p)
    {
      assert (p + n + n[..4])[..|p|] == p;
    }
  }

  // ---------------------------------------------------------------- integers on the wire

  function LittleEndian(x: nat, width: nat): (bytes: seq<byte>)
    ensures |bytes| == width
  {
    if width == 0 then [] else [x % 256] + LittleEndian(x / 256, width - 1)
  }

  function FromLittleEndian(bytes: seq<byte>): nat {
    if bytes == [] then 0 else bytes[0] + 256 * FromLittleEndian(bytes[1..])
  }

  function Pow256(n: nat): nat {
    if n == 0 then 1 else 256 * Pow256(n - 1)
  }

  lemma {:induction false} LittleEndianRoundTrip(x: nat, width: nat)
    requires x < Pow256(width)
    ensures FromLittleEndian(LittleEndian(x, width)) == x
  {
    if width > 0 {
      LittleEndianRoundTrip(x / 256, width - 1);
    }
  }

  /** And every byte string is the encoding of its number. */
  lemma {:induction false} LittleEndianInverse(bytes: seq<byte>)
    ensures FromLittleEndian(bytes) < Pow256(|bytes|)
    ensures LittleEndian(FromLittleEndian(bytes), |bytes|) == bytes
  {
    if bytes != [] {
      LittleEndianInverse(bytes[1..]);
      LowestByte(bytes[0], FromLittleEndian(bytes[1..]));
      assert bytes == [bytes[0]] + bytes[1..];
    }
  }

  lemma LowestByte(low: byte, rest: nat)
    ensures (low + 256 * rest) % 256 == low && (low + 256 * rest) / 256 == rest
  {
  }

  function BigEndian(x: nat, width: nat): (bytes: seq<byte>)
    ensures |bytes| == width
  {
    if width == 0 then [] else BigEndian(x / 256, width - 1) + [x % 256]
  }

  /** The two encodings hold the same bytes in opposite order. */
  lemma {:induction false} BigEndianReversesLittleEndian(x: nat, width: nat, i: nat)
    requires i < width
    ensures BigEndian(x, width)[width - 1 - i] == LittleEndian(x, width)[i]
  {
    if i > 0 {
      BigEndianReversesLittleEndian(x / 256, width - 1, i - 1);
    }
  }

  lemma {:induction false} BigEndianInjective(x: nat, y: nat, width: nat)
    requires x < Pow256(width) && y < Pow256(width) && BigEndian(x, width) == BigEndian(y, width)
    ensures x == y
  {
    if width > 0 {
      var a, b := BigEndian(x, width), BigEndian(y, width);
      assert a[width - 1] == x % 256 && b[width - 1] == y % 256;
      assert a[..width - 1] == BigEndian(x / 256, width - 1) && b[..width - 1] == BigEndian(y / 256, width - 1);
      BigEndianInjective(x / 256, y / 256, width - 1);
    }
  }

  lemma Pow256Of4() ensures Pow256(4) == 0x1_0000_0000 {
    assert Pow256(2) == 65536;
  }

  lemma Pow256Of8() ensures Pow256(8) == 0x1_0000_0000_0000_0000 {
    assert Pow256(4) == 256 * 256 * Pow256(2);
    assert Pow256(2) == 65536;
    assert Pow256(6) == 256 * 256 * Pow256(4);
  }

  // ---------------------------------------------------------------- frames

  function AppPayloadWireLen(codec: PayloadCodec, plaintextLen: nat): Result<nat, FrameError> {
    if plaintextLen == 0 then Err(EmptyFrame)
    else if plaintextLen > MAX_PLAINTEXT_BYTES then Err(FrameTooLong)
    else
      match codec
      case RawV1 => Ok(plaintextLen)
      case AeadV1 => Ok(plaintextLen + AEAD_TAG_BYTES)
  }

  function EncodeHeader(plaintextLen: nat, nonce: Nonce): Result<seq<byte>, FrameError> {
    if plaintextLen == 0 then Err(EmptyFrame)
    else if plaintextLen > MAX_PLAINTEXT_BYTES then Err(FrameTooLong)
    else Ok(LittleEndian(plaintextLen, 4) + nonce)
  }

  function DecodeHeader(header: seq<byte>): Result<(nat, Nonce), FrameError>
    requires |header| == HEADER_BYTES
  {
    var plaintextLen := FromLittleEndian(header[..4]);
    if plaintextLen == 0 then Err(EmptyFrame)
    else if plaintextLen > MAX_PLAINTEXT_BYTES then Err(FrameTooLong)
    else Ok((plaintextLen, header[4..16]))
  }

  function EncodeFrame(codec: PayloadCodec, plaintext: seq<byte>, nonce: Nonce, aead: Option<Aead>): Result<seq<byte>, FrameError> {
    var wire: Result<seq<byte>, FrameError> :=
      match codec
      case RawV1 => Ok(plaintext)
      case AeadV1 =>
        if aead.None? then Err(MissingCodec)
        else
          match aead.value.seal(nonce, plaintext)
          case None => Err(SealFailed)
          case Some(c) => Ok(c);
    match wire
    case Err(e) => Err(e)
    case Ok(payload) =>
      match EncodeHeader(|plaintext|, nonce)
      case Err(e) => Err(e)
      case Ok(header) => Ok(header + payload)
  }

  function DecodePayload(codec: PayloadCodec, plaintextLen: nat, nonce: Nonce, wire: seq<byte>, aead: Option<Aead>)
    : (r: Result<seq<byte>, FrameError>)
    ensures r.Ok? ==> 1 <= |r.value| == plaintextLen <= MAX_PLAINTEXT_BYTES
    ensures r.Ok? && codec.RawV1? ==> r.value == wire
    ensures r.Ok? && codec.AeadV1? ==> |wire| == plaintextLen + 16 && aead.Some? && aead.value.open(nonce, wire) == Some(r.value)
    ensures r.Err? ==>
      || plaintextLen == 0 || plaintextLen > MAX_PLAINTEXT_BYTES
      || (codec.RawV1? && |wire| != plaintextLen)
      || (codec.AeadV1? && (|wire| != plaintextLen + 16 || aead.None? || aead.value.open(nonce, wire).None?
                            || |aead.value.open(nonce, wire).value| != plaintextLen))
  {
    match AppPayloadWireLen(codec, plaintextLen)
    case Err(e) => Err(e)
    case Ok(expected) =>
      if |wire| != expected then Err(WireLengthMismatch)
      else
        var plaintext: Result<seq<byte>, FrameError> :=
          match codec
          case RawV1 => Ok(wire)
          case AeadV1 =>
            if aead.None? then Err(MissingCodec)
            else
              match aead.value.open(nonce, wire)
              case None => Err(OpenFailed)
              case Some(p) => Ok(p);
        match plaintext
        case Err(e) => Err(e)
        case Ok(p) => if |p| != plaintextLen then Err(PlaintextLengthMismatch) else Ok(p)
  }

  /** The lane has the cipher its codec needs. */
  ghost predicate CodecReady(codec: PayloadCodec, aead: Option<Aead>) {
    codec.AeadV1? ==> aead.Some? && Lawful(aead.value)
  }

  /** The sixteen bytes of a header: the length in four bytes, lowest first, and the nonce. */
  lemma HeaderBytes(plaintextLen: nat, nonce: Nonce)
    requires 1 <= plaintextLen <= MAX_PLAINTEXT_BYTES
    ensures EncodeHeader(plaintextLen, nonce).Ok? && |EncodeHeader(plaintextLen, nonce).value| == 16
    ensures var header := EncodeHeader(plaintextLen, nonce).value;
            var b0: int, b1: int, b2: int, b3: int := header[0], header[1], header[2], header[3];
            b0 + 0x100 * b1 + 0x1_0000 * b2 + 0x100_0000 * b3 == plaintextLen && header[4..16] == nonce
  {
    var header := EncodeHeader(plaintextLen, nonce).value;
    var b1, b2, b3 := plaintextLen / 256, plaintextLen / 256 / 256, plaintextLen / 256 / 256 / 256;
    assert header[..4] == LittleEndian(plaintextLen, 4);
    assert LittleEndian(plaintextLen, 4) == [plaintextLen % 256] + LittleEndian(b1, 3);
    assert LittleEndian(b1, 3) == [b1 % 256] + LittleEndian(b2, 2);
    assert LittleEndian(b2, 2) == [b2 % 256] + LittleEndian(b3, 1);
    assert LittleEndian(b3, 1) == [b3 % 256] + LittleEndian(b3 / 256, 0);
    assert header[4..16] == nonce;
  }

  lemma HeaderRoundTrip(plaintextLen: nat, nonce: Nonce)
    requires 1 <= plaintextLen <= MAX_PLAINTEXT_BYTES
    ensures EncodeHeader(plaintextLen, nonce).Ok?
    ensures |EncodeHeader(plaintextLen, nonce).value| == HEADER_BYTES
    ensures DecodeHeader(EncodeHeader(plaintextLen, nonce).value) == Ok((plaintextLen, nonce))
  {
    var header := EncodeHeader(plaintextLen, nonce).value;
    assert header[..4] == LittleEndian(plaintextLen, 4);
    assert header[4..16] == nonce;
    Pow256Of4();
    LittleEndianRoundTrip(plaintextLen, 4);
  }

  /** A header decodes exactly when it is the encoding of what it decodes to: there is one per length and nonce. */
  lemma HeaderIsCanonical(header: seq<byte>, plaintextLen: nat, nonce: Nonce)
    requires |header| == HEADER_BYTES
    ensures DecodeHeader(header) == Ok((plaintextLen, nonce)) <==> EncodeHeader(plaintextLen, nonce) == Ok(header)
  {
    LittleEndianInverse(header[..4]);
    assert header == header[..4] + header[4..16];
    if 1 <= plaintextLen <= MAX_PLAINTEXT_BYTES {
      HeaderRoundTrip(plaintextLen, nonce);
    }
  }

  /** Encoding succeeds exactly on plaintexts of 1 byte to 64 MiB. */
  lemma EncodeSucceedsIff(codec: PayloadCodec, plaintext: seq<byte>, nonce: Nonce, aead: Option<Aead>)
    requires CodecReady(codec, aead)
    ensures EncodeFrame(codec, plaintext, nonce, aead).Ok? <==> 1 <= |plaintext| <= MAX_PLAINTEXT_BYTES
  {
    if |plaintext| <= MAX_PLAINTEXT_BYTES && codec.AeadV1? {
      assert aead.value.seal(nonce, plaintext).Some?;
    }
  }

  /** One frame: header and payload decode back to the plaintext, and the lengths agree with the wire format. */
  lemma FrameRoundTrip(codec: PayloadCodec, plaintext: seq<byte>, nonce: Nonce, aead: Option<Aead>)
    requires CodecReady(codec, aead) && 1 <= |plaintext| <= MAX_PLAINTEXT_BYTES
    ensures EncodeFrame(codec, plaintext, nonce, aead).Ok?
    ensures var frame := EncodeFrame(codec, plaintext, nonce, aead).value;
            && AppPayloadWireLen(codec, |plaintext|) == Ok(|frame| - HEADER_BYTES)
            && |frame| > HEADER_BYTES
            && DecodeHeader(frame[..HEADER_BYTES]) == Ok((|plaintext|, nonce))
            && DecodePayload(codec, |plaintext|, nonce, frame[HEADER_BYTES..], aead) == Ok(plaintext)
  {
    HeaderRoundTrip(|plaintext|, nonce);
    if codec.AeadV1? {
      assert aead.value.seal(nonce, plaintext).Some?;
    }
    var header := EncodeHeader(|plaintext|, nonce).value;
    var frame := EncodeFrame(codec, plaintext, nonce, aead).value;
    assert frame[..HEADER_BYTES] == header;
    assert frame == header + frame[HEADER_BYTES..];
  }

  // ---------------------------------------------------------------- nonces

  type NoncePrefix = p: seq<byte> | |p| == 4 witness seq(4, _ => 0)

  /** The nonce of a lane session: a random prefix and a big-endian frame counter. */
  function PayloadNonce(prefix: NoncePrefix, counter: nat): Nonce {
    prefix + BigEndian(counter, 8)
  }

  /** No two frames of a lane session share a nonce, for any number of frames below 2^64. */
  lemma NoncesDistinct(prefix: NoncePrefix, i: nat, j: nat)
    requires i != j && i < 0x1_0000_0000_0000_0000 && j < 0x1_0000_0000_0000_0000
    ensures PayloadNonce(prefix, i) != PayloadNonce(prefix, j)
  {
    Pow256Of8();
    if PayloadNonce(prefix, i) == PayloadNonce(prefix, j) {
      assert PayloadNonce(prefix, i)[4..] == BigEndian(i, 8);
      assert PayloadNonce(prefix, j)[4..] == BigEndian(j, 8);
      BigEndianInjective(i, j, 8);
    }
  }
}
