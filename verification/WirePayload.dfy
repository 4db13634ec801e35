/** Typed payloads of protocol v2 (crates/paper-protocol/src/v2_payload.rs). */
module WirePayload {
  import opened Machine
  import opened Bits
  import Frames
  import opened WireFraming

  const HELLO_PAYLOAD_LEN: nat := 8
  const POINTER_PAYLOAD_LEN: nat := 4
  const VIEWPORT_PAYLOAD_LEN: nat := 4
  const FRAME_PREFIX_LEN: nat := 16

  /** A nonempty set of pixel formats: digit 0 is Mono1, digit 1 is Gray8. */
  datatype PixelFormats = PixelFormats(mask: byte)
  {
    predicate Supports(f: Frames.PixelFormat) {
      Bit(mask, FormatDigit(f))
    }

    predicate Valid() {
      mask != 0 && ShiftRight(mask, 2) == 0
    }
  }

  function FormatDigit(f: Frames.PixelFormat): nat {
    match f
    case Mono1 => 0
    case Gray8 => 1
  }

  function FormatValue(f: Frames.PixelFormat): byte {
    match f
    case Mono1 => 1
    case Gray8 => 2
  }

  function JustFormat(f: Frames.PixelFormat): PixelFormats {
    PixelFormats(if f.Mono1? then 1 else 2)
  }

  /** `with`: adds a format to a set. */
  function WithFormat(s: PixelFormats, f: Frames.PixelFormat): PixelFormats
    requires s.Valid()
  {
    assert ShiftRight(s.mask, 2) == s.mask / 4;
    PixelFormats(SetBit(s.mask, FormatDigit(f)))
  }

  /** `from_mask` */
  function FormatsFromMask(mask: byte): Option<PixelFormats> {
    if PixelFormats(mask).Valid() then Some(PixelFormats(mask)) else None
  }

  /** Sets behave as sets: membership after an insertion, never empty, and a valid set is determined by
      its two memberships. */
  lemma FormatSets(s: PixelFormats, f: Frames.PixelFormat, g: Frames.PixelFormat, u: PixelFormats)
    requires s.Valid() && u.Valid()
    ensures WithFormat(s, f).Valid()
    ensures WithFormat(s, f).Supports(g) <==> s.Supports(g) || f == g
    ensures s.Supports(Frames.Mono1) || s.Supports(Frames.Gray8)
    ensures JustFormat(f).Valid() && (JustFormat(f).Supports(g) <==> f == g)
    ensures (forall h: Frames.PixelFormat :: s.Supports(h) <==> u.Supports(h)) <==> s == u
  {
    BitOfSetBit(s.mask, FormatDigit(f), FormatDigit(g));
    assert ShiftRight(s.mask, 2) == s.mask / 4 && ShiftRight(u.mask, 2) == u.mask / 4;
    assert Bit(s.mask, 1) <==> s.mask / 2 % 2 == 1;
    assert Bit(u.mask, 1) <==> u.mask / 2 % 2 == 1;
    if forall h: Frames.PixelFormat :: s.Supports(h) <==> u.Supports(h) {
      assert s.Supports(Frames.Mono1) <==> u.Supports(Frames.Mono1);
      assert s.Supports(Frames.Gray8) <==> u.Supports(Frames.Gray8);
    }
  }

  datatype Phase = Down | Up

  datatype Hello = Hello(width: u16, height: u16, formats: PixelFormats)

  datatype Pointer = Pointer(phase: Phase, x: u16, y: u16)

  datatype Viewport = Viewport(width: u16, height: u16)

  datatype FramePayload = FramePayload(frameId: u64, frame: Frames.Frame)

  datatype Payload =
    | HelloPayload(hello: Hello)
    | PointerPayload(pointer: Pointer)
    | ViewportPayload(viewport: Viewport)
    | FrameOf(framed: FramePayload)

  datatype PayloadError =
    | InvalidLength(messageType: MessageType, expected: nat, actual: nat)
    | TruncatedFrameMetadata(minimum: nat, actual: nat)
    | HelloVersion(version: byte)
    | UnsupportedPixelFormatMask(mask: byte)
    | UnsupportedPixelFormat(value: byte)
    | NonZeroReserved(messageType: MessageType, reserved: nat)
    | InvalidMono1(mono1: Frames.PixelsError)
    | InvalidGray8(gray8: Frames.PixelsError)

  function PhaseType(p: Phase): MessageType {
    match p
    case Down => PointerDownType
    case Up => PointerUpType
  }

  function TypeOfPayload(p: Payload): MessageType {
    match p
    case HelloPayload(_) => HelloType
    case PointerPayload(q) => PhaseType(q.phase)
    case ViewportPayload(_) => ViewportChangedType
    case FrameOf(_) => FrameType
  }

  // ---------- Encoding ----------

  /** Payload bytes, field by field. */
  function PayloadBytes(p: Payload): seq<byte> {
    match p
    case HelloPayload(h) => [VERSION, h.formats.mask] + Be(0, 2) + Be(h.width, 2) + Be(h.height, 2)
    case PointerPayload(q) => Be(q.x, 2) + Be(q.y, 2)
    case ViewportPayload(v) => Be(v.width, 2) + Be(v.height, 2)
    case FrameOf(f) =>
      Be(f.frameId, 8) + Be(f.frame.width, 2) + Be(f.frame.height, 2) + [FormatValue(f.frame.format)] + Be(0, 3)
      + f.frame.pixels
  }

  function Encode(p: Payload): Result<seq<byte>, EncodeError> {
    EncodeMessage(TypeOfPayload(p), PayloadBytes(p))
  }

  /** `encode_v2_frame`: the header first, then each field appended. */
  method EncodeV2Frame(frameId: u64, f: Frames.Frame) returns (r: Result<seq<byte>, EncodeError>)
    ensures r == Encode(FrameOf(FramePayload(frameId, f)))
    ensures r.Ok? <==> FRAME_PREFIX_LEN + |f.pixels| <= MAX_PAYLOAD_LEN
  {
    ThreeZeros();
    hide Be, HeaderBytes, FormatValue;
    var payloadLen := FRAME_PREFIX_LEN + |f.pixels|;
    var header := NewHeader(FrameType, payloadLen);
    if header.Err? {
      return Err(header.error);
    }
    var encodedHeader := EncodeHeader(header.value);
    var encoded := encodedHeader[..];
    encoded := encoded + Be(frameId, 8);
    encoded := encoded + Be(f.width, 2);
    encoded := encoded + Be(f.height, 2);
    encoded := encoded + [FormatValue(f.format)];
    encoded := encoded + [0, 0, 0];
    encoded := encoded + f.pixels;
    assert encoded == HeaderBytes(header.value) + PayloadBytes(FrameOf(FramePayload(frameId, f)));
    r := Ok(encoded);
  }

  lemma ThreeZeros()
    ensures Be(0, 3) == [0, 0, 0]
  {
    assert Be(0, 2) == [0, 0];
  }

  // ---------- Decoding ----------

  function RequireExactLength(t: MessageType, payload: seq<byte>, expected: nat): Result<(), PayloadError> {
    if |payload| == expected then Ok(()) else Err(InvalidLength(t, expected, |payload|))
  }

  /** `u16::from_be_bytes` */
  function Word(s: seq<byte>): u16
    requires |s| == 2
  {
    Limits();
    BeOfFromBe(s);
    FromBe(s)
  }

  function DecodeHello(payload: seq<byte>): Result<Hello, PayloadError> {
    match RequireExactLength(HelloType, payload, HELLO_PAYLOAD_LEN)
    case Err(e) => Err(e)
    case Ok(_) =>
      if payload[0] != VERSION then Err(HelloVersion(payload[0]))
      else match FormatsFromMask(payload[1])
        case None => Err(UnsupportedPixelFormatMask(payload[1]))
        case Some(formats) =>
          var reserved := FromBe(payload[2..4]);
          if reserved != 0 then Err(NonZeroReserved(HelloType, reserved))
          else Ok(Hello(Word(payload[4..6]), Word(payload[6..8]), formats))
  }

  function DecodePointer(phase: Phase, payload: seq<byte>): Result<Pointer, PayloadError> {
    match RequireExactLength(PhaseType(phase), payload, POINTER_PAYLOAD_LEN)
    case Err(e) => Err(e)
    case Ok(_) => Ok(Pointer(phase, Word(payload[0..2]), Word(payload[2..4])))
  }

  function DecodeViewport(payload: seq<byte>): Result<Viewport, PayloadError> {
    match RequireExactLength(ViewportChangedType, payload, VIEWPORT_PAYLOAD_LEN)
    case Err(e) => Err(e)
    case Ok(_) => Ok(Viewport(Word(payload[0..2]), Word(payload[2..4])))
  }

  function DecodeFrame(t: Target, payload: seq<byte>): Result<FramePayload, PayloadError> {
    if |payload| < FRAME_PREFIX_LEN then Err(TruncatedFrameMetadata(FRAME_PREFIX_LEN, |payload|))
    else
      Limits();
      BeOfFromBe(payload[0..8]);
      var frameId := FromBe(payload[0..8]);
      var width, height := Word(payload[8..10]), Word(payload[10..12]);
      if payload[12] != 1 && payload[12] != 2 then Err(UnsupportedPixelFormat(payload[12]))
      else
        var format := if payload[12] == 1 then Frames.Mono1 else Frames.Gray8;
        var reserved := FromBe(payload[13..16]);
        if reserved != 0 then Err(NonZeroReserved(FrameType, reserved))
        else
          var pixels := payload[FRAME_PREFIX_LEN..];
          match Frames.Validate(t, format, width, height, pixels)
          case Err(e) => if format.Mono1? then Err(InvalidMono1(e)) else Err(InvalidGray8(e))
          case Ok(_) => Ok(FramePayload(frameId, Frames.Frame(format, width, height, pixels)))
  }

  function DecodePayload(t: Target, m: Message): Result<Payload, PayloadError> {
    match m.header.messageType
    case HelloType =>
      (match DecodeHello(m.payload) case Err(e) => Err(e) case Ok(h) => Ok(HelloPayload(h)))
    case PointerDownType =>
      (match DecodePointer(Down, m.payload) case Err(e) => Err(e) case Ok(p) => Ok(PointerPayload(p)))
    case PointerUpType =>
      (match DecodePointer(Up, m.payload) case Err(e) => Err(e) case Ok(p) => Ok(PointerPayload(p)))
    case ViewportChangedType =>
      (match DecodeViewport(m.payload) case Err(e) => Err(e) case Ok(v) => Ok(ViewportPayload(v)))
    case FrameType =>
      (match DecodeFrame(t, m.payload) case Err(e) => Err(e) case Ok(f) => Ok(FrameOf(f)))
  }

  // ---------- The codec is a bijection ----------

  /** Payloads the types allow and the encoder accepts. */
  ghost predicate WellFormed(p: Payload) {
    match p
    case HelloPayload(h) => h.formats.Valid()
    case PointerPayload(_) => true
    case ViewportPayload(_) => true
    case FrameOf(f) => Frames.Valid(f.frame) && FRAME_PREFIX_LEN + |f.frame.pixels| <= MAX_PAYLOAD_LEN
  }

  lemma WordOfBe(v: u16)
    ensures Word(Be(v, 2)) == v
  {
    Limits();
    FromBeOfBe(v, 2);
  }

  lemma ZeroOfBe(n: nat)
    requires n == 2 || n == 3
    ensures FromBe(Be(0, n)) == 0
  {
    assert Limit(1) == 256 && Limit(2) == 256 * 256;
    FromBeOfBe(0, n);
  }

  lemma HelloRoundTrip(h: Hello)
    requires h.formats.Valid()
    ensures DecodeHello(PayloadBytes(HelloPayload(h))) == Ok(h)
  {
    hide Be, FromBe, Word, PixelFormats.Valid;
    var b := PayloadBytes(HelloPayload(h));
    assert b[2..4] == Be(0, 2) && b[4..6] == Be(h.width, 2) && b[6..8] == Be(h.height, 2);
    ZeroOfBe(2);
    WordOfBe(h.width);
    WordOfBe(h.height);
  }

  lemma PairRoundTrip(x: u16, y: u16)
    ensures var b := Be(x, 2) + Be(y, 2); |b| == 4 && Word(b[0..2]) == x && Word(b[2..4]) == y
  {
    hide Be, FromBe, Word;
    var b := Be(x, 2) + Be(y, 2);
    assert b[0..2] == Be(x, 2) && b[2..4] == Be(y, 2);
    WordOfBe(x);
    WordOfBe(y);
  }

  lemma FrameRoundTrip(t: Target, f: FramePayload)
    requires Frames.Valid(f.frame)
    ensures DecodeFrame(t, PayloadBytes(FrameOf(f))) == Ok(f)
  {
    hide Be, FromBe, Word, Frames.Validate, Frames.Valid;
    var b := PayloadBytes(FrameOf(f));
    assert b[0..8] == Be(f.frameId, 8) && b[8..10] == Be(f.frame.width, 2) && b[10..12] == Be(f.frame.height, 2);
    assert b[12] == FormatValue(f.frame.format) && b[13..16] == Be(0, 3) && b[16..] == f.frame.pixels;
    IdRoundTrip(f.frameId);
    ZeroOfBe(3);
    WordOfBe(f.frame.width);
    WordOfBe(f.frame.height);
    ValidIsValidated(t, f.frame);
  }

  lemma IdRoundTrip(id: u64)
    ensures FromBe(Be(id, 8)) == id
  {
    Limits();
    FromBeOfBe(id, 8);
  }

  lemma ValidIsValidated(t: Target, f: Frames.Frame)
    ensures Frames.Validate(t, f.format, f.width, f.height, f.pixels).Ok? <==> Frames.Valid(f)
  {
    Frames.ValidateIsValid(t, f.format, f.width, f.height, f.pixels);
  }

  lemma PayloadRoundTrip(t: Target, p: Payload)
    requires WellFormed(p)
    ensures |PayloadBytes(p)| <= MAX_PAYLOAD_LEN
    ensures DecodePayload(t, Message(Header(TypeOfPayload(p), |PayloadBytes(p)|), PayloadBytes(p))) == Ok(p)
  {
    hide Be, FromBe, Word, DecodeHello, DecodeFrame;
    match p {
      case HelloPayload(h) => HelloRoundTrip(h);
      case PointerPayload(q) => PairRoundTrip(q.x, q.y);
      case ViewportPayload(v) => PairRoundTrip(v.width, v.height);
      case FrameOf(f) => FrameRoundTrip(t, f);
    }
  }

  /** Decoding an encoded message, whatever follows it, returns it and consumes exactly its bytes. */
  lemma RoundTrip(t: Target, p: Payload, rest: seq<byte>)
    requires WellFormed(p)
    ensures Encode(p).Ok?
    ensures var r := DecodeMessage(Encode(p).value + rest);
            && r.Ok? && r.value.Complete? && r.value.consumed == |Encode(p).value|
            && DecodePayload(t, r.value.message) == Ok(p)
  {
    PayloadRoundTrip(t, p);
    DecodeOfEncode(TypeOfPayload(p), PayloadBytes(p), rest);
  }

  lemma ZeroBytes(s: seq<byte>)
    requires FromBe(s) == 0
    ensures s == Be(0, |s|)
  {
    BeOfFromBe(s);
  }

  lemma WordBytes(s: seq<byte>)
    requires |s| == 2
    ensures Be(Word(s), 2) == s
  {
    BeOfFromBe(s);
  }

  lemma HelloCanonical(b: seq<byte>)
    requires DecodeHello(b).Ok?
    ensures PayloadBytes(HelloPayload(DecodeHello(b).value)) == b && DecodeHello(b).value.formats.Valid()
  {
    hide Be, FromBe, Word, PixelFormats.Valid;
    ZeroBytes(b[2..4]);
    WordBytes(b[4..6]);
    WordBytes(b[6..8]);
    assert b == [b[0], b[1]] + b[2..4] + b[4..6] + b[6..8];
  }

  lemma PairCanonical(b: seq<byte>)
    requires |b| == 4
    ensures Be(Word(b[0..2]), 2) + Be(Word(b[2..4]), 2) == b
  {
    WordBytes(b[0..2]);
    WordBytes(b[2..4]);
  }

  lemma FrameCanonical(t: Target, b: seq<byte>)
    requires DecodeFrame(t, b).Ok?
    ensures PayloadBytes(FrameOf(DecodeFrame(t, b).value)) == b && Frames.Valid(DecodeFrame(t, b).value.frame)
  {
    hide Be, FromBe, Word, Frames.Validate, Frames.Valid;
    ZeroBytes(b[13..16]);
    WordBytes(b[8..10]);
    WordBytes(b[10..12]);
    IdBytes(b[0..8]);
    ValidIsValidated(t, DecodeFrame(t, b).value.frame);
    assert b == b[0..8] + b[8..10] + b[10..12] + [b[12]] + b[13..16] + b[16..];
  }

  lemma IdBytes(s: seq<byte>)
    requires |s| == 8
    ensures Be(FromBe(s), 8) == s
  {
    BeOfFromBe(s);
  }

  lemma PayloadCanonical(t: Target, m: Message)
    requires DecodePayload(t, m).Ok?
    ensures var p := DecodePayload(t, m).value;
            && TypeOfPayload(p) == m.header.messageType && PayloadBytes(p) == m.payload
            && (|m.payload| <= MAX_PAYLOAD_LEN ==> WellFormed(p))
  {
    hide Be, FromBe, Word, DecodeHello, DecodeFrame;
    match m.header.messageType {
      case HelloType => HelloCanonical(m.payload);
      case PointerDownType => PairCanonical(m.payload);
      case PointerUpType => PairCanonical(m.payload);
      case ViewportChangedType => PairCanonical(m.payload);
      case FrameType =>
        FrameCanonical(t, m.payload);
        FrameLength(DecodeFrame(t, m.payload).value);
    }
  }

  lemma FrameLength(f: FramePayload)
    ensures |PayloadBytes(FrameOf(f))| == FRAME_PREFIX_LEN + |f.frame.pixels|
  {
  }

  /** The encoding is canonical: whatever the decoders accept is byte for byte the encoding of what they
      return, so no two byte strings decode to the same message. */
  lemma Canonical(t: Target, input: seq<byte>)
    ensures var r := DecodeMessage(input);
            r.Ok? && r.value.Complete? && DecodePayload(t, r.value.message).Ok? ==>
              var p := DecodePayload(t, r.value.message).value;
              && WellFormed(p)
              && r.value.consumed <= |input|
              && Encode(p) == Ok(input[..r.value.consumed])
  {
    EncodeOfDecode(input);
    var r := DecodeMessage(input);
    if r.Ok? && r.value.Complete? && DecodePayload(t, r.value.message).Ok? {
      hide DecodeHeader, DecodePayload, PayloadBytes, WellFormed;
      PayloadCanonical(t, r.value.message);
    }
  }
}
