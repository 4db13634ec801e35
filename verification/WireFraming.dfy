/** Protocol v2 message framing and its incremental decoder (crates/paper-protocol/src/v2.rs). */
module WireFraming {
  import opened Machine

  const MAGIC: seq<byte> := [0x50, 0x50, 0x46, 0x42] // "PPFB"
  const VERSION: byte := 2
  const HEADER_LEN: nat := 12
  const MAX_PAYLOAD_LEN: nat := 16 * 1024 * 1024

  datatype MessageType = HelloType | PointerDownType | PointerUpType | ViewportChangedType | FrameType
  {
    function Code(): byte {
      match this
      case HelloType => 1
      case PointerDownType => 2
      case PointerUpType => 3
      case ViewportChangedType => 4
      case FrameType => 5
    }
  }

  function TypeOf(code: byte): (t: Option<MessageType>)
    ensures t.Some? ==> t.value.Code() == code
    ensures forall m: MessageType :: m.Code() == code ==> t == Some(m)
  {
    match code
    case 1 => Some(HelloType)
    case 2 => Some(PointerDownType)
    case 3 => Some(PointerUpType)
    case 4 => Some(ViewportChangedType)
    case 5 => Some(FrameType)
    case _ => None
  }

  datatype EncodeError = EncodeTooLarge(length: nat)

  datatype DecodeError =
    | InvalidMagic(magic: seq<byte>)
    | UnsupportedVersion(version: byte)
    | UnknownMessageType(code: byte)
    | NonZeroFlags(flags: nat)
    | PayloadTooLarge(length: nat)

  datatype Header = Header(messageType: MessageType, payloadLen: nat)

  datatype Message = Message(header: Header, payload: seq<byte>)

  datatype DecodeResult = Incomplete(additional: nat) | Complete(message: Message, consumed: nat)

  // ---------- Big-endian integers ----------

  /** The low n bytes of v, most significant first. */
  function Be(v: nat, n: nat): (s: seq<byte>)
    ensures |s| == n
  {
    if n == 0 then [] else Be(v / 256, n - 1) + [v % 256]
  }

  function FromBe(s: seq<byte>): nat {
    if s == [] then 0 else FromBe(s[..|s| - 1]) * 256 + s[|s| - 1]
  }

  function Limit(n: nat): nat {
    if n == 0 then 1 else 256 * Limit(n - 1)
  }

  lemma {:induction false} FromBeOfBe(v: nat, n: nat)
    requires v < Limit(n)
    ensures FromBe(Be(v, n)) == v
  {
    if n > 0 {
      FromBeOfBe(v / 256, n - 1);
      assert Be(v, n)[..n - 1] == Be(v / 256, n - 1);
    }
  }

  lemma {:induction false} BeOfFromBe(s: seq<byte>)
    ensures FromBe(s) < Limit(|s|)
    ensures Be(FromBe(s), |s|) == s
  {
    if s != [] {
      var n := |s| - 1;
      BeOfFromBe(s[..n]);
      assert FromBe(s) / 256 == FromBe(s[..n]) && FromBe(s) % 256 == s[n];
      assert s == s[..n] + [s[n]];
    }
  }

  lemma Limits()
    ensures Limit(2) == 0x1_0000 && Limit(4) == 0x1_0000_0000 && Limit(8) == 0x1_0000_0000_0000_0000
  {
    assert Limit(1) == 256;
    assert Limit(3) == 256 * Limit(2);
    assert Limit(5) == 256 * Limit(4);
    assert Limit(6) == 256 * Limit(5);
    assert Limit(7) == 256 * Limit(6);
  }

  // ---------- Encoding ----------

  function NewHeader(messageType: MessageType, payloadLen: nat): Result<Header, EncodeError> {
    if payloadLen > MAX_PAYLOAD_LEN then Err(EncodeTooLarge(payloadLen)) else Ok(Header(messageType, payloadLen))
  }

  /** The twelve header bytes. */
  function HeaderBytes(h: Header): (s: seq<byte>)
    ensures |s| == HEADER_LEN
  {
    MAGIC + [VERSION, h.messageType.Code()] + Be(0, 2) + Be(h.payloadLen, 4)
  }

  function EncodeMessage(messageType: MessageType, payload: seq<byte>): Result<seq<byte>, EncodeError> {
    match NewHeader(messageType, |payload|)
    case Err(e) => Err(e)
    case Ok(header) => Ok(HeaderBytes(header) + payload)
  }

  /** `copy_from_slice` into part of a buffer. */
  method CopyInto(buffer: array<byte>, start: nat, data: seq<byte>)
    requires start + |data| <= buffer.Length
    modifies buffer
    ensures buffer[..] == old(buffer[..start]) + data + old(buffer[start + |data|..])
  {
    for i := 0 to |data|
      invariant buffer[..start] == old(buffer[..start])
      invariant buffer[start..start + i] == data[..i]
      invariant buffer[start + |data|..] == old(buffer[start + |data|..])
    {
      buffer[start + i] := data[i];
    }
  }

  /** `V2Header::encode` fills a fixed buffer field by field. */
  method EncodeHeader(h: Header) returns (encoded: array<byte>)
    ensures fresh(encoded) && encoded[..] == HeaderBytes(h)
  {
    hide Be, MessageType.Code;
    encoded := new byte[HEADER_LEN](_ => 0);
    CopyInto(encoded, 0, MAGIC);
    encoded[4] := VERSION;
    encoded[5] := h.messageType.Code();
    assert encoded[..6] == MAGIC + [VERSION, h.messageType.Code()];
    CopyInto(encoded, 6, Be(0, 2));
    assert encoded[..8] == MAGIC + [VERSION, h.messageType.Code()] + Be(0, 2);
    CopyInto(encoded, 8, Be(h.payloadLen, 4));
  }

  /** `encode_v2_message` */
  method EncodeV2Message(messageType: MessageType, payload: seq<byte>) returns (r: Result<seq<byte>, EncodeError>)
    ensures r == EncodeMessage(messageType, payload)
    ensures r.Ok? <==> |payload| <= MAX_PAYLOAD_LEN
    ensures r.Ok? ==> forall rest: seq<byte> ::
      DecodeMessage(r.value + rest) == Ok(Complete(Message(Header(messageType, |payload|), payload), |r.value|))
  {
    var header := NewHeader(messageType, |payload|);
    if header.Err? {
      return Err(header.error);
    }
    var encodedHeader := EncodeHeader(header.value);
    var encoded := encodedHeader[..];
    encoded := encoded + payload;
    r := Ok(encoded);
    forall rest: seq<byte>
      ensures DecodeMessage(encoded + rest) == Ok(Complete(Message(Header(messageType, |payload|), payload), |encoded|))
    {
      DecodeOfEncode(messageType, payload, rest);
    }
  }

  // ---------- Decoding ----------

  /** The checks on a complete header, in order. */
  function DecodeHeader(input: seq<byte>): Result<Header, DecodeError>
    requires |input| >= HEADER_LEN
  {
    if input[0..4] != MAGIC then Err(InvalidMagic(input[0..4]))
    else if input[4] != VERSION then Err(UnsupportedVersion(input[4]))
    else match TypeOf(input[5])
      case None => Err(UnknownMessageType(input[5]))
      case Some(messageType) =>
        var flags := FromBe(input[6..8]);
        if flags != 0 then Err(NonZeroFlags(flags))
        else
          var payloadLen := FromBe(input[8..12]);
          if payloadLen > MAX_PAYLOAD_LEN then Err(PayloadTooLarge(payloadLen))
          else Ok(Header(messageType, payloadLen))
  }

  function DecodeMessage(input: seq<byte>): Result<DecodeResult, DecodeError> {
    if |input| < HEADER_LEN then Ok(Incomplete(HEADER_LEN - |input|))
    else match DecodeHeader(input)
      case Err(e) => Err(e)
      case Ok(header) =>
        var consumed := HEADER_LEN + header.payloadLen;
        if |input| < consumed then Ok(Incomplete(consumed - |input|))
        else Ok(Complete(Message(header, input[HEADER_LEN..consumed]), consumed))
  }

  /** A header depends only on its own twelve bytes. */
  lemma HeaderPrefix(a: seq<byte>, b: seq<byte>)
    requires |a| >= HEADER_LEN && |b| >= HEADER_LEN && a[..HEADER_LEN] == b[..HEADER_LEN]
    ensures DecodeHeader(a) == DecodeHeader(b)
  {
    assert forall s: seq<byte> :: |s| >= HEADER_LEN ==>
      s[0..4] == s[..HEADER_LEN][0..4] && s[6..8] == s[..HEADER_LEN][6..8] && s[8..12] == s[..HEADER_LEN][8..12]
      && s[4] == s[..HEADER_LEN][4] && s[5] == s[..HEADER_LEN][5];
  }

  lemma HeaderRoundTrip(h: Header, rest: seq<byte>)
    requires h.payloadLen <= MAX_PAYLOAD_LEN
    ensures DecodeHeader(HeaderBytes(h) + rest) == Ok(h)
  {
    hide Be, FromBe;
    var input := HeaderBytes(h) + rest;
    assert input[0..4] == MAGIC && input[4] == VERSION && input[5] == h.messageType.Code();
    assert input[6..8] == Be(0, 2) && input[8..12] == Be(h.payloadLen, 4);
    Limits();
    FromBeOfBe(0, 2);
    FromBeOfBe(h.payloadLen, 4);
  }

  lemma DecodeOfEncode(messageType: MessageType, payload: seq<byte>, rest: seq<byte>)
    requires |payload| <= MAX_PAYLOAD_LEN
    ensures var encoded := EncodeMessage(messageType, payload).value;
            DecodeMessage(encoded + rest) == Ok(Complete(Message(Header(messageType, |payload|), payload), |encoded|))
  {
    var header := Header(messageType, |payload|);
    var encoded := HeaderBytes(header) + payload;
    HeaderRoundTrip(header, payload + rest);
    assert HeaderBytes(header) + (payload + rest) == encoded + rest;
    assert (encoded + rest)[HEADER_LEN..HEADER_LEN + |payload|] == payload;
  }

  /** Whatever the decoder completes is byte for byte the encoding of what it returned. */
  lemma EncodeOfDecode(input: seq<byte>)
    ensures var r := DecodeMessage(input);
            r.Ok? && r.value.Complete? ==>
              var m := r.value.message;
              && r.value.consumed == HEADER_LEN + |m.payload| <= |input|
              && m.header.payloadLen == |m.payload| <= MAX_PAYLOAD_LEN
              && EncodeMessage(m.header.messageType, m.payload) == Ok(input[..r.value.consumed])
  {
    var r := DecodeMessage(input);
    if r.Ok? && r.value.Complete? {
      var h := r.value.message.header;
      HeaderCanonical(input);
      assert input[..r.value.consumed] == input[..HEADER_LEN] + input[HEADER_LEN..r.value.consumed];
    }
  }

  lemma HeaderCanonical(input: seq<byte>)
    requires |input| >= HEADER_LEN && DecodeHeader(input).Ok?
    ensures HeaderBytes(DecodeHeader(input).value) == input[..HEADER_LEN]
  {
    hide Be, FromBe;
    BeOfFromBe(input[6..8]);
    BeOfFromBe(input[8..12]);
    assert input[..HEADER_LEN] == input[0..4] + [input[4], input[5]] + input[6..8] + input[8..12];
  }

  /** Completions and errors are final: more input does not change them. */
  lemma DecodeStable(input: seq<byte>, more: seq<byte>)
    ensures var r := DecodeMessage(input);
            r.Err? || r.value.Complete? ==> DecodeMessage(input + more) == r
  {
    if |input| >= HEADER_LEN {
      HeaderPrefix(input, input + more);
      var r := DecodeMessage(input);
      if r.Ok? && r.value.Complete? {
        assert (input + more)[HEADER_LEN..r.value.consumed] == input[HEADER_LEN..r.value.consumed];
      }
    }
  }

  /** The count of an incomplete result is exact: fewer bytes leave precisely the difference missing, and
      once the header is known, that many bytes complete the message. */
  lemma IncompleteExact(input: seq<byte>, more: seq<byte>)
    requires DecodeMessage(input).Ok? && DecodeMessage(input).value.Incomplete?
    ensures var n := DecodeMessage(input).value.additional;
            && n > 0
            && (|more| < n ==> DecodeMessage(input + more) == Ok(Incomplete(n - |more|)))
            && (|more| == n && |input| >= HEADER_LEN ==>
                  DecodeMessage(input + more).Ok? && DecodeMessage(input + more).value.Complete?
                  && DecodeMessage(input + more).value.consumed == |input| + n)
  {
    if |input| >= HEADER_LEN {
      HeaderPrefix(input, input + more);
    }
  }

  // ---------- Streams ----------

  datatype Stop = NeedMore(additional: nat) | Failed(error: DecodeError)

  /** Messages decoded from the front of a buffer, the bytes left over, and why decoding stopped. */
  datatype Drained = Drained(messages: seq<Message>, rest: seq<byte>, stop: Stop)

  /** Decode again from the first unconsumed byte until nothing more completes. */
  function Drain(input: seq<byte>): Drained
    decreases |input|
  {
    match DecodeMessage(input)
    case Err(e) => Drained([], input, Failed(e))
    case Ok(Incomplete(n)) => Drained([], input, NeedMore(n))
    case Ok(Complete(m, consumed)) =>
      var d := Drain(input[consumed..]);
      d.(messages := [m] + d.messages)
  }

  /** Feeding further bytes to a decoder that kept its left-over bytes. */
  function Feed(d: Drained, more: seq<byte>): Drained {
    if d.stop.Failed? then d.(rest := d.rest + more)
    else
      var next := Drain(d.rest + more);
      next.(messages := d.messages + next.messages)
  }

  /** One more message in front. */
  function Before(m: Message, d: Drained): Drained {
    d.(messages := [m] + d.messages)
  }

  lemma DrainStep(input: seq<byte>, m: Message, consumed: nat)
    requires DecodeMessage(input) == Ok(Complete(m, consumed))
    ensures 0 < consumed <= |input|
    ensures Drain(input) == Before(m, Drain(input[consumed..]))
  {
    hide DecodeHeader;
  }

  /** A message in front does not change how the rest is fed. */
  lemma FeedBehind(m: Message, d: Drained, more: seq<byte>)
    ensures Feed(Before(m, d), more) == Before(m, Feed(d, more))
  {
    hide Drain;
    assert [m] + (d.messages + Drain(d.rest + more).messages) == [m] + d.messages + Drain(d.rest + more).messages;
  }

  /** Decoding does not depend on how the bytes were split into reads. */
  lemma {:induction false} SplitIndependent(a: seq<byte>, b: seq<byte>)
    ensures Drain(a + b) == Feed(Drain(a), b)
    decreases |a|
  {
    hide DecodeMessage;
    DecodeStable(a, b);
    match DecodeMessage(a) {
      case Err(e) =>
      case Ok(Incomplete(n)) =>
      case Ok(Complete(m, consumed)) =>
        DrainStep(a, m, consumed);
        DrainStep(a + b, m, consumed);
        SplitIndependent(a[consumed..], b);
        assert (a + b)[consumed..] == a[consumed..] + b;
        FeedBehind(m, Drain(a[consumed..]), b);
        hide Drain, Feed, Before;
    }
  }

  function FeedAll(d: Drained, pieces: seq<seq<byte>>): Drained
    decreases |pieces|
  {
    if pieces == [] then d else FeedAll(Feed(d, pieces[0]), pieces[1..])
  }

  function Concat(pieces: seq<seq<byte>>): seq<byte> {
    if pieces == [] then [] else pieces[0] + Concat(pieces[1..])
  }

  /** ... for any number of reads of any sizes. */
  lemma {:induction false} AnyReads(kept: seq<byte>, pieces: seq<seq<byte>>)
    ensures FeedAll(Drain(kept), pieces) == Drain(kept + Concat(pieces))
    decreases |pieces|
  {
    hide Drain, Feed;
    if pieces == [] {
      assert kept + Concat(pieces) == kept;
    } else {
      SplitIndependent(kept, pieces[0]);
      AnyReads(kept + pieces[0], pieces[1..]);
      assert kept + pieces[0] + Concat(pieces[1..]) == kept + Concat(pieces);
    }
  }

  /** A well-formed message as the encoder accepts it. */
  predicate Framable(m: Message) {
    m.header.payloadLen == |m.payload| <= MAX_PAYLOAD_LEN
  }

  function Frames(ms: seq<Message>): seq<byte>
    requires forall i :: 0 <= i < |ms| ==> Framable(ms[i])
  {
    if ms == [] then []
    else
      assert Framable(ms[0]);
      EncodeMessage(ms[0].header.messageType, ms[0].payload).value + Frames(ms[1..])
  }

  /** A concatenation of encoded messages decodes to the same list with nothing left over. */
  lemma {:induction false} StreamRoundTrip(ms: seq<Message>)
    requires forall i :: 0 <= i < |ms| ==> Framable(ms[i])
    ensures Drain(Frames(ms)) == Drained(ms, [], NeedMore(HEADER_LEN))
  {
    if ms != [] {
      var m := ms[0];
      var encoded := EncodeMessage(m.header.messageType, m.payload).value;
      DecodeOfEncode(m.header.messageType, m.payload, Frames(ms[1..]));
      StreamRoundTrip(ms[1..]);
      assert Frames(ms)[|encoded|..] == Frames(ms[1..]);
      assert [m] + ms[1..] == ms;
    }
  }
}
