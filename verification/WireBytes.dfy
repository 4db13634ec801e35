/** Protocol v2 spelled out: the bytes of every message, and what each malformed header is rejected for
    (crates/paper-protocol/src/v2.rs, v2_payload.rs). */
module WireBytes {
  import opened Machine
  import opened Bits
  import Frames
  import opened WireFraming
  import opened WirePayload

  /** "PPFB", version 2, a type and no flags. */
  function Opening(code: byte): (s: seq<byte>)
    ensures |s| == 8
  {
    [0x50, 0x50, 0x46, 0x42, 0x02, code, 0x00, 0x00]
  }

  /** Two bytes, the high one first. */
  function Two(v: u16): (s: seq<byte>)
    ensures |s| == 2
  {
    [v / 0x100, v % 0x100]
  }

  function Four(v: u32): (s: seq<byte>)
    ensures |s| == 4
  {
    [v / 0x100_0000, v / 0x1_0000 % 0x100, v / 0x100 % 0x100, v % 0x100]
  }

  function Eight(v: u64): (s: seq<byte>)
    ensures |s| == 8
  {
    Four(v / 0x1_0000_0000)
    + [v / 0x100_0000 % 0x100, v / 0x1_0000 % 0x100, v / 0x100 % 0x100, v % 0x100]
  }

  lemma BeTwo(v: u16)
    ensures Be(v, 2) == Two(v)
  {
    assert Be(v / 256, 1) == [v / 256];
  }

  lemma BeFour(v: u32)
    ensures Be(v, 4) == Four(v)
  {
    BeTwo(v / 0x1_0000);
    assert Be(v / 0x100, 3) == Be(v / 0x1_0000, 2) + [v / 0x100 % 0x100];
  }

  lemma BeEight(v: u64)
    ensures Be(v, 8) == Eight(v)
  {
    BeFour(v / 0x1_0000_0000);
    hide Four;
    BeStep(v, 7);
    BeStep(v / 0x100, 6);
    BeStep(v / 0x1_0000, 5);
    BeStep(v / 0x100_0000, 4);
    hide Be;
  }

  lemma BeStep(v: nat, n: nat)
    ensures Be(v, n + 1) == Be(v / 256, n) + [v % 256]
    ensures v / 256 / 256 == v / 0x1_0000 && v / 0x1_0000 / 256 == v / 0x100_0000
    ensures v / 0x100_0000 / 256 == v / 0x1_0000_0000
  {
  }

  /** The twelve header bytes, the type's number spelled out. */
  lemma HeaderSpelled(t: MessageType, length: nat)
    requires length <= 16_777_216
    ensures HeaderBytes(Header(t, length)) ==
            Opening(match t
                    case HelloType => 1
                    case PointerDownType => 2
                    case PointerUpType => 3
                    case ViewportChangedType => 4
                    case FrameType => 5) + Four(length)
  {
    BeTwo(0);
    BeFour(length);
    hide Be, Four;
  }

  /** The encoder refuses exactly payloads over sixteen mebibytes, and otherwise puts the header in front. */
  lemma EncodeSpelled(t: MessageType, payload: seq<byte>)
    ensures EncodeMessage(t, payload) == if |payload| > 16_777_216 then Err(EncodeTooLarge(|payload|))
                                         else Ok(HeaderBytes(Header(t, |payload|)) + payload)
  {
    hide HeaderBytes;
  }

  /** A Hello: twenty bytes, its formats a mask of 1 for Mono1 and 2 for Gray8. */
  lemma HelloBytes(h: Hello)
    requires h.formats.Valid()
    ensures Encode(HelloPayload(h)) ==
            Ok(Opening(1) + [0x00, 0x00, 0x00, 0x08, 0x02,
                             (if h.formats.Supports(Frames.Mono1) then 1 else 0)
                             + (if h.formats.Supports(Frames.Gray8) then 2 else 0),
                             0x00, 0x00] + Two(h.width) + Two(h.height))
  {
    BeTwo(0);
    BeTwo(h.width);
    BeTwo(h.height);
    MaskValue(h.formats);
    HeaderSpelled(HelloType, 8);
    EncodeSpelled(HelloType, PayloadBytes(HelloPayload(h)));
    assert Four(8) == [0x00, 0x00, 0x00, 0x08] && Two(0) == [0x00, 0x00];
    hide Be, Two, Four, HeaderBytes, EncodeMessage, Opening;
    var mask := (if h.formats.Supports(Frames.Mono1) then 1 else 0)
                + (if h.formats.Supports(Frames.Gray8) then 2 else 0);
    hide PixelFormats.Supports;
    var length, fixed := [0x00, 0x00, 0x00, 0x08], [0x02, mask] + [0x00, 0x00];
    HelloRegrouped(Opening(1), length, fixed, Two(h.width), Two(h.height));
    assert length + fixed == [0x00, 0x00, 0x00, 0x08, 0x02, mask, 0x00, 0x00];
  }

  lemma HelloRegrouped(a: seq<byte>, b: seq<byte>, c: seq<byte>, d: seq<byte>, e: seq<byte>)
    ensures a + b + (c + d + e) == a + (b + c) + d + e
  {
    assert a + b + (c + d + e) == a + b + (c + d) + e;
    assert a + b + (c + d) == a + (b + c) + d;
  }

  lemma MaskValue(s: PixelFormats)
    requires s.Valid()
    ensures s.mask == (if s.Supports(Frames.Mono1) then 1 else 0) + (if s.Supports(Frames.Gray8) then 2 else 0)
  {
    assert ShiftRight(s.mask, 2) == s.mask / 4;
    assert Bit(s.mask, 1) <==> s.mask / 2 % 2 == 1;
  }

  /** A pointer: sixteen bytes, type 2 for a press and 3 for a release. */
  lemma PointerBytes(p: Pointer)
    ensures Encode(PointerPayload(p)) ==
            Ok(Opening(if p.phase.Down? then 2 else 3) + [0x00, 0x00, 0x00, 0x04] + Two(p.x) + Two(p.y))
  {
    BeTwo(p.x);
    BeTwo(p.y);
    HeaderSpelled(PhaseType(p.phase), 4);
    EncodeSpelled(PhaseType(p.phase), PayloadBytes(PointerPayload(p)));
    assert Four(4) == [0x00, 0x00, 0x00, 0x04];
    hide Be, Two, Four, HeaderBytes, EncodeMessage, Opening;
    var code := if p.phase.Down? then 2 else 3;
    assert Opening(code) + [0x00, 0x00, 0x00, 0x04] + (Two(p.x) + Two(p.y))
           == Opening(code) + [0x00, 0x00, 0x00, 0x04] + Two(p.x) + Two(p.y);
  }

  lemma ViewportBytes(v: Viewport)
    ensures Encode(ViewportPayload(v)) == Ok(Opening(4) + [0x00, 0x00, 0x00, 0x04] + Two(v.width) + Two(v.height))
  {
    BeTwo(v.width);
    BeTwo(v.height);
    HeaderSpelled(ViewportChangedType, 4);
    EncodeSpelled(ViewportChangedType, PayloadBytes(ViewportPayload(v)));
    assert Four(4) == [0x00, 0x00, 0x00, 0x04];
    hide Be, Two, Four, HeaderBytes, EncodeMessage, Opening;
    assert Opening(4) + [0x00, 0x00, 0x00, 0x04] + (Two(v.width) + Two(v.height))
           == Opening(4) + [0x00, 0x00, 0x00, 0x04] + Two(v.width) + Two(v.height);
  }

  /** A frame: its length, identifier, size, format 1 or 2, three zeros, and the pixels as they are. */
  lemma FrameMessageBytes(id: u64, f: Frames.Frame)
    requires 16 + |f.pixels| <= 16_777_216
    ensures Encode(FrameOf(FramePayload(id, f))) ==
            Ok(Opening(5) + Four(16 + |f.pixels|) + Eight(id) + Two(f.width) + Two(f.height)
               + [if f.format.Mono1? then 1 else 2, 0x00, 0x00, 0x00] + f.pixels)
  {
    BeTwo(f.width);
    BeTwo(f.height);
    BeEight(id);
    ThreeZeros();
    HeaderSpelled(FrameType, 16 + |f.pixels|);
    EncodeSpelled(FrameType, PayloadBytes(FrameOf(FramePayload(id, f))));
    hide Be, Two, Four, Eight, HeaderBytes, EncodeMessage, Opening;
    var code := if f.format.Mono1? then 1 else 2;
    var length := Four(16 + |f.pixels|);
    Regrouped(Opening(5) + length, Eight(id), Two(f.width), Two(f.height), [code], [0x00, 0x00, 0x00], f.pixels);
    assert [code] + [0x00, 0x00, 0x00] == [code, 0x00, 0x00, 0x00];
  }

  lemma Regrouped(a: seq<byte>, b: seq<byte>, c: seq<byte>, d: seq<byte>, e: seq<byte>, f: seq<byte>, g: seq<byte>)
    ensures a + (b + c + d + e + f + g) == a + b + c + d + (e + f) + g
  {
    assert a + (b + c + d + e + f + g) == a + (b + c + d + e + f) + g;
    assert a + (b + c + d + e + f) == a + (b + c + d) + (e + f);
    assert a + (b + c + d) == a + b + c + d;
  }

  /** What twelve bytes are refused for, in this order: their magic, version, type, flags, length; nothing else. */
  lemma HeaderRefused(input: seq<byte>)
    requires |input| >= 12
    ensures var r := DecodeMessage(input);
            var length := FromBe(input[8..12]);
            if input[0..4] != [0x50, 0x50, 0x46, 0x42] then r == Err(InvalidMagic(input[0..4]))
            else if input[4] != 2 then r == Err(UnsupportedVersion(input[4]))
            else if input[5] == 0 || input[5] > 5 then r == Err(UnknownMessageType(input[5]))
            else if input[6] != 0 || input[7] != 0 then r == Err(NonZeroFlags(0x100 * (input[6] as int) + input[7]))
            else if length > 16_777_216 then r == Err(PayloadTooLarge(length))
            else if |input| < 12 + length then r == Ok(Incomplete(12 + length - |input|))
            else r.Ok? && r.value.Complete? && r.value.consumed == 12 + length
  {
    FlagsValue(input[6..8]);
    hide FromBe;
  }

  lemma FlagsValue(s: seq<byte>)
    requires |s| == 2
    ensures FromBe(s) == 0x100 * (s[0] as int) + s[1]
  {
    assert FromBe(s[..1]) == s[0];
  }

  /** What a Hello's payload is refused for, in this order. */
  lemma HelloRefused(t: Target, m: Message)
    requires m.header.messageType == HelloType
    ensures var r, p := DecodePayload(t, m), m.payload;
            if |p| != 8 then r == Err(InvalidLength(HelloType, 8, |p|))
            else if p[0] != 2 then r == Err(HelloVersion(p[0]))
            else if p[1] == 0 || p[1] > 3 then r == Err(UnsupportedPixelFormatMask(p[1]))
            else if p[2] != 0 || p[3] != 0 then
              r == Err(NonZeroReserved(HelloType, 0x100 * (p[2] as int) + p[3]))
            else r.Ok? && r.value.HelloPayload?
  {
    if |m.payload| == 8 {
      FlagsValue(m.payload[2..4]);
      assert ShiftRight(m.payload[1], 2) == m.payload[1] / 4;
    }
    hide FromBe, Word;
  }

  /** Pointers and viewports are refused for their length alone. */
  lemma PlainRefused(t: Target, m: Message)
    requires m.header.messageType != HelloType && m.header.messageType != FrameType
    ensures var r := DecodePayload(t, m);
            if |m.payload| != 4 then r == Err(InvalidLength(m.header.messageType, 4, |m.payload|)) else r.Ok?
  {
    hide Word;
  }

  /** What a frame's payload is refused for, in this order; what is left is for its pixels. */
  lemma FrameRefused(t: Target, m: Message)
    requires m.header.messageType == FrameType
    ensures var r, p := DecodePayload(t, m), m.payload;
            if |p| < 16 then r == Err(TruncatedFrameMetadata(16, |p|))
            else if p[12] != 1 && p[12] != 2 then r == Err(UnsupportedPixelFormat(p[12]))
            else if p[13] != 0 || p[14] != 0 || p[15] != 0 then r.Err? && r.error.NonZeroReserved?
            else if r.Ok? then r.value.FrameOf?
            else if p[12] == 1 then r.error.InvalidMono1? else r.error.InvalidGray8?
  {
    if |m.payload| >= 16 {
      ReservedValue(m.payload[13..16]);
    }
    hide FromBe, Word, Frames.Validate;
  }

  lemma ReservedValue(s: seq<byte>)
    requires |s| == 3
    ensures FromBe(s) == 0 <==> s[0] == 0 && s[1] == 0 && s[2] == 0
  {
    FlagsValue(s[..2]);
    assert s[..2][0] == s[0] && s[..2][1] == s[1];
  }
}
