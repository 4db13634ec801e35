/** The blocking readers of both ends: a header, then exactly the bytes it announces
    (src/net/mod.rs `read_v2_frame`, tools/paperspoon/src/inbound.rs). */
module WireReader {
  import opened Machine
  import Frames
  import opened WireFraming
  import opened WirePayload

  datatype ReadError =
    | UnexpectedEof
    | BadFraming(framing: DecodeError)
    | BadPayload(payload: PayloadError)
    | UnexpectedType(messageType: MessageType)
    | StillIncomplete
    | WrongConsumed
    | TypeDisagrees
    | NotHello
    | DuplicateHello

  /** The readers' complaints about their own arithmetic and the decoder's, not about the peer. */
  predicate SelfDoubt(e: ReadError) {
    e.StillIncomplete? || e.WrongConsumed? || e.TypeDisagrees?
  }

  datatype ReceivedFrame = ReceivedFrame(frameId: u64, frame: Frames.Frame, encoded: seq<byte>)

  datatype InboundMessage =
    | InboundHello(hello: Hello)
    | InboundPointer(pointer: Pointer)
    | InboundViewport(viewport: Viewport)

  datatype SessionMessage = SessionPointer(pointer: Pointer) | SessionViewport(viewport: Viewport)

  /** The bytes a peer will ever send, read front to back. */
  class ByteReader {
    const input: seq<byte>
    var position: nat

    ghost predicate Valid()
      reads this
    {
      position <= |input|
    }

    ghost function Rest(): seq<byte>
      requires Valid()
      reads this
    {
      input[position..]
    }

    constructor (input: seq<byte>)
      ensures Valid() && this.input == input && Rest() == input
    {
      this.input, position := input, 0;
    }

    /** `fill_buf()?.is_empty()` */
    predicate AtEnd()
      reads this
    {
      position == |input|
    }

    /** `read_exact`: all n bytes or an end-of-file error that loses the remainder. */
    method ReadExact(n: nat) returns (r: Result<seq<byte>, ReadError>)
      requires Valid()
      modifies this
      ensures Valid()
      ensures n <= |old(Rest())| ==> r == Ok(old(Rest())[..n]) && Rest() == old(Rest())[n..]
      ensures n > |old(Rest())| ==> r == Err(UnexpectedEof) && Rest() == []
    {
      if n <= |input| - position {
        r := Ok(input[position..position + n]);
        assert input[position..position + n] == input[position..][..n];
        assert input[position + n..] == input[position..][n..];
        position := position + n;
      } else {
        r := Err(UnexpectedEof);
        position := |input|;
        assert input[|input|..] == [];
      }
    }

    /** The part both readers share: header, `additional` bytes, and the decoder's second opinion. A frame
        that arrives whole is read to its last byte and no further. */
    method ReadMessage() returns (r: Result<(Message, seq<byte>), ReadError>)
      requires Valid()
      modifies this
      ensures Valid()
      ensures r == ReadOutcome(old(Rest()))
      ensures r.Err? ==> !SelfDoubt(r.error)
      ensures r.Ok? ==> Rest() == old(Rest())[|r.value.1|..]
    {
      hide DecodeHeader;
      ghost var rest := Rest();
      OutcomeOfParts(rest);
      var head := ReadExact(HEADER_LEN);
      if head.Err? {
        return Err(head.error);
      }
      var encoded := head.value;
      var first := DecodeMessage(encoded);
      if first.Err? {
        return Err(BadFraming(first.error));
      }
      var additional := match first.value
        case Incomplete(n) => n
        case Complete(_, _) => 0;
      if additional > 0 {
        var body := ReadExact(additional);
        if body.Err? {
          return Err(body.error);
        }
        encoded := encoded + body.value;
      }
      assert encoded == rest[..HEADER_LEN + additional];
      var second := DecodeMessage(encoded);
      assert second.Ok?; // a header that decoded once decodes again
      if second.value.Incomplete? {
        return Err(StillIncomplete);
      }
      if second.value.consumed != |encoded| {
        return Err(WrongConsumed);
      }
      r := Ok((second.value.message, encoded));
    }

    /** `read_v2_frame` */
    method ReadV2Frame(t: Target) returns (r: Result<ReceivedFrame, ReadError>)
      requires Valid()
      modifies this
      ensures Valid()
      ensures r == FrameOutcome(t, old(Rest()))
      ensures r.Err? ==> !SelfDoubt(r.error)
      ensures r.Ok? ==> Rest() == old(Rest())[|r.value.encoded|..]
    {
      hide ReadOutcome, DecodePayload;
      ghost var rest := Rest();
      TypesAgree(t, rest);
      var read := ReadMessage();
      if read.Err? {
        return Err(read.error);
      }
      var (message, encoded) := read.value;
      if message.header.messageType != FrameType {
        return Err(UnexpectedType(message.header.messageType));
      }
      var payload := DecodePayload(t, message);
      if payload.Err? {
        return Err(BadPayload(payload.error));
      }
      if !payload.value.FrameOf? {
        return Err(TypeDisagrees);
      }
      r := Ok(ReceivedFrame(payload.value.framed.frameId, payload.value.framed.frame, encoded));
    }

    /** `read_inbound_frame`: end of file between frames is not an error. */
    method ReadInboundFrame(t: Target) returns (r: Result<Option<ReceivedFrame>, ReadError>)
      requires Valid()
      modifies this
      ensures Valid()
      ensures r == InboundFrame(t, old(Rest()))
      ensures r.Ok? && r.value.Some? ==> Rest() == old(Rest())[|r.value.value.encoded|..]
    {
      hide FrameOutcome;
      if AtEnd() {
        return Ok(None);
      }
      var read := ReadV2Frame(t);
      r := match read
        case Err(e) => Err(e)
        case Ok(f) => Ok(Some(f));
    }

    /** The reader thread: what it hands on, and how it ends. */
    method ReadFrames(t: Target) returns (frames: seq<ReceivedFrame>, error: Option<ReadError>)
      requires Valid()
      modifies this
      ensures Valid()
      ensures (frames, error) == FramesRead(t, old(Rest()))
    {
      hide InboundFrame, Behind;
      frames := [];
      BehindNothing(FramesRead(t, Rest()));
      while true
        invariant Valid()
        invariant FramesRead(t, old(Rest())) == Behind(frames, FramesRead(t, Rest()))
        decreases |Rest()|
      {
        FrameTakesBytes(t, Rest());
        var read := ReadInboundFrame(t);
        match read {
          case Err(e) =>
            BehindAll(frames, [], ([], Some(e)));
            return frames, Some(e);
          case Ok(None) =>
            BehindAll(frames, [], ([], None));
            return frames, None;
          case Ok(Some(f)) =>
            BehindAll(frames, [f], FramesRead(t, Rest()));
            frames := frames + [f];
        }
      }
    }

    /** `read_inbound_message` of the host: end of file between messages is not an error. */
    method ReadInboundMessage(t: Target) returns (r: Result<Option<InboundMessage>, ReadError>)
      requires Valid()
      modifies this
      ensures Valid()
      ensures r == InboundOutcome(t, old(Rest()))
      ensures r.Err? ==> !SelfDoubt(r.error)
      ensures r.Ok? && r.value.Some? ==> Rest() == old(Rest())[|ReadOutcome(old(Rest())).value.1|..]
    {
      hide ReadOutcome, DecodePayload;
      if AtEnd() {
        return Ok(None);
      }
      var read := ReadMessage();
      if read.Err? {
        return Err(read.error);
      }
      var (message, encoded) := read.value;
      var payload := DecodePayload(t, message);
      if payload.Err? {
        return Err(BadPayload(payload.error));
      }
      r := match payload.value
        case HelloPayload(h) => Ok(Some(InboundHello(h)))
        case PointerPayload(p) => Ok(Some(InboundPointer(p)))
        case ViewportPayload(v) => Ok(Some(InboundViewport(v)))
        case FrameOf(_) => Err(UnexpectedType(message.header.messageType));
    }
  }

  // ---------- What the readers compute ----------

  /** Outcome of reading one message from the bytes still to come. */
  function ReadOutcome(rest: seq<byte>): Result<(Message, seq<byte>), ReadError> {
    if |rest| < HEADER_LEN then Err(UnexpectedEof)
    else match DecodeMessage(rest)
      case Err(e) => Err(BadFraming(e))
      case Ok(Incomplete(_)) => Err(UnexpectedEof)
      case Ok(Complete(m, consumed)) => Ok((m, rest[..consumed]))
  }

  function FrameOutcome(t: Target, rest: seq<byte>): Result<ReceivedFrame, ReadError> {
    match ReadOutcome(rest)
    case Err(e) => Err(e)
    case Ok((m, encoded)) =>
      if m.header.messageType != FrameType then Err(UnexpectedType(m.header.messageType))
      else match DecodePayload(t, m)
        case Err(e) => Err(BadPayload(e))
        case Ok(p) => if p.FrameOf? then Ok(ReceivedFrame(p.framed.frameId, p.framed.frame,
                                                          encoded)) else Err(TypeDisagrees)
  }

  function InboundOutcome(t: Target, rest: seq<byte>): Result<Option<InboundMessage>, ReadError> {
    if rest == [] then Ok(None)
    else match ReadOutcome(rest)
      case Err(e) => Err(e)
      case Ok((m, _)) =>
        match DecodePayload(t, m)
        case Err(e) => Err(BadPayload(e))
        case Ok(HelloPayload(h)) => Ok(Some(InboundHello(h)))
        case Ok(PointerPayload(p)) => Ok(Some(InboundPointer(p)))
        case Ok(ViewportPayload(v)) => Ok(Some(InboundViewport(v)))
        case Ok(FrameOf(_)) => Err(UnexpectedType(m.header.messageType))
  }

  function InboundFrame(t: Target, rest: seq<byte>): Result<Option<ReceivedFrame>, ReadError> {
    if rest == [] then Ok(None)
    else match FrameOutcome(t, rest)
      case Err(e) => Err(e)
      case Ok(f) => Ok(Some(f))
  }

  /** The frames at the front of the bytes to come, until end of file or the first error. */
  function FramesRead(t: Target, rest: seq<byte>): (seq<ReceivedFrame>, Option<ReadError>)
    decreases |rest|
  {
    match InboundFrame(t, rest)
    case Err(e) => ([], Some(e))
    case Ok(None) => ([], None)
    case Ok(Some(f)) =>
      FrameTakesBytes(t, rest);
      Behind([f], FramesRead(t, rest[|f.encoded|..]))
  }

  /** Some frames already read, before the rest. */
  function Behind(frames: seq<ReceivedFrame>, read: (seq<ReceivedFrame>, Option<ReadError>))
    : (seq<ReceivedFrame>, Option<ReadError>)
  {
    (frames + read.0, read.1)
  }

  lemma BehindNothing(read: (seq<ReceivedFrame>, Option<ReadError>))
    ensures Behind([], read) == read
  {
    assert [] + read.0 == read.0;
  }

  lemma BehindAll(a: seq<ReceivedFrame>, b: seq<ReceivedFrame>, read: (seq<ReceivedFrame>, Option<ReadError>))
    ensures Behind(a, Behind(b, read)) == Behind(a + b, read)
    ensures b == [] && read.0 == [] ==> Behind(a, read) == (a, read.1)
  {
    assert a + (b + read.0) == a + b + read.0;
    assert a + [] == a;
  }

  lemma FramesStep(t: Target, rest: seq<byte>, f: ReceivedFrame)
    requires InboundFrame(t, rest) == Ok(Some(f))
    ensures |f.encoded| <= |rest| && FramesRead(t, rest) == Behind([f], FramesRead(t, rest[|f.encoded|..]))
  {
    FrameTakesBytes(t, rest);
    hide InboundFrame, Behind;
  }

  lemma FrameTakesBytes(t: Target, rest: seq<byte>)
    ensures var r := InboundFrame(t, rest);
            r.Ok? && r.value.Some? ==> 0 < |r.value.value.encoded| <= |rest| && r.value.value.encoded <= rest
  {
    EncodeOfDecode(rest);
    hide DecodeMessage, DecodePayload;
  }

  /** The two-stage read sees what one decode of the whole stream would. */
  lemma OutcomeOfParts(rest: seq<byte>)
    ensures |rest| >= HEADER_LEN ==>
      var first := DecodeMessage(rest[..HEADER_LEN]);
      && (first.Err? ==> DecodeMessage(rest) == first)
      && (first.Ok? ==>
            var additional := if first.value.Incomplete? then first.value.additional else 0;
            if |rest| < HEADER_LEN + additional then
              DecodeMessage(rest).Ok? && DecodeMessage(rest).value.Incomplete?
            else
              var second := DecodeMessage(rest[..HEADER_LEN + additional]);
              second.Ok? && second.value.Complete? && second.value.consumed == HEADER_LEN + additional
              && DecodeMessage(rest) == second)
  {
    if |rest| >= HEADER_LEN {
      var head, tail := rest[..HEADER_LEN], rest[HEADER_LEN..];
      assert head + tail == rest;
      DecodeStable(head, tail);
      EncodeOfDecode(head);
      var first := DecodeMessage(head);
      if first.Ok? && first.value.Incomplete? {
        var n := first.value.additional;
        IncompleteExact(head, tail);
        if n <= |tail| {
          IncompleteExact(head, tail[..n]);
          assert head + tail[..n] == rest[..HEADER_LEN + n];
          DecodeStable(head + tail[..n], tail[n..]);
          assert head + tail[..n] + tail[n..] == rest;
        }
      } else if first.Ok? {
        assert rest[..HEADER_LEN + 0] == head;
      }
    }
  }

  /** A message of the frame type whose payload decodes at all decodes to a frame, so the readers' last doubt is
      never reported, whatever a peer sends; the doubts about lengths are refuted in `ReadMessage` itself. */
  lemma TypesAgree(t: Target, rest: seq<byte>)
    ensures FrameOutcome(t, rest).Err? ==> !SelfDoubt(FrameOutcome(t, rest).error)
  {
    hide DecodeMessage;
    var read := ReadOutcome(rest);
    if read.Ok? && DecodePayload(t, read.value.0).Ok? {
      PayloadCanonical(t, read.value.0);
    }
  }

  /** A received frame is valid, and its bytes are exactly the host's encoding of it. */
  lemma ReceivedIsEncoded(t: Target, rest: seq<byte>)
    ensures var r := FrameOutcome(t, rest);
            r.Ok? ==>
              && Frames.Valid(r.value.frame)
              && r.value.encoded <= rest
              && Encode(FrameOf(FramePayload(r.value.frameId, r.value.frame))) == Ok(r.value.encoded)
  {
    Canonical(t, rest);
    hide DecodeMessage, DecodePayload, Encode;
  }

  // ---------- A whole session ----------

  function SessionPayload(m: SessionMessage): Payload {
    match m
    case SessionPointer(p) => PointerPayload(p)
    case SessionViewport(v) => ViewportPayload(v)
  }

  function SessionMessageBytes(ms: seq<SessionMessage>): seq<byte> {
    if ms == [] then []
    else Encode(SessionPayload(ms[0])).value + SessionMessageBytes(ms[1..])
  }

  /** `read_session_hello` */
  function ReadSessionHello(t: Target, rest: seq<byte>): Result<Option<Hello>, ReadError> {
    match InboundOutcome(t, rest)
    case Err(e) => Err(e)
    case Ok(None) => Ok(None)
    case Ok(Some(InboundHello(h))) => Ok(Some(h))
    case Ok(Some(_)) => Err(NotHello)
  }

  /** `read_session_message` */
  function ReadSessionMessage(t: Target, rest: seq<byte>): Result<Option<SessionMessage>, ReadError> {
    match InboundOutcome(t, rest)
    case Err(e) => Err(e)
    case Ok(None) => Ok(None)
    case Ok(Some(InboundPointer(p))) => Ok(Some(SessionPointer(p)))
    case Ok(Some(InboundViewport(v))) => Ok(Some(SessionViewport(v)))
    case Ok(Some(InboundHello(_))) => Err(DuplicateHello)
  }

  /** The host's message loop: messages until end of file or the first error. */
  function ReadSessionMessages(t: Target, rest: seq<byte>): (seq<SessionMessage>, Option<ReadError>)
    decreases |rest|
  {
    match ReadSessionMessage(t, rest)
    case Err(e) => ([], Some(e))
    case Ok(None) => ([], None)
    case Ok(Some(m)) =>
      ConsumedPositive(rest);
      var (more, e) := ReadSessionMessages(t, rest[|ReadOutcome(rest).value.1|..]);
      ([m] + more, e)
  }

  lemma ConsumedPositive(rest: seq<byte>)
    ensures ReadOutcome(rest).Ok? ==> 0 < |ReadOutcome(rest).value.1| <= |rest|
  {
    EncodeOfDecode(rest);
  }

  /** One encoded message in front of any bytes is read as that message, and no further. */
  lemma ReadsOneMessage(t: Target, m: SessionMessage, rest: seq<byte>)
    ensures Encode(SessionPayload(m)).Ok?
    ensures var encoded := Encode(SessionPayload(m)).value;
            && ReadSessionMessage(t, encoded + rest) == Ok(Some(m))
            && ReadOutcome(encoded + rest).Ok?
            && ReadOutcome(encoded + rest).value.1 == encoded
  {
    hide InboundOutcome, ReadOutcome, Encode, WellFormed;
    SessionPayloadWellFormed(m);
    InboundRoundTrip(t, SessionPayload(m), rest);
  }

  /** Everything a device writes before closing is read by the host as the same session; a message cut short
      at the end is noticed, and costs nothing before it. */
  lemma {:induction false} SessionRoundTrip(t: Target, ms: seq<SessionMessage>, tail: seq<byte>)
    requires tail != [] ==> ReadOutcome(tail) == Err(UnexpectedEof)
    ensures ReadSessionMessages(t, SessionMessageBytes(ms) + tail) ==
            (ms, if tail == [] then None else Some(UnexpectedEof))
    decreases |ms|
  {
    hide ReadOutcome, Encode, WellFormed;
    if ms == [] {
      assert SessionMessageBytes(ms) + tail == tail;
    } else {
      hide InboundOutcome, ReadSessionMessage;
      var rest := SessionMessageBytes(ms[1..]) + tail;
      ReadsOneMessage(t, ms[0], rest);
      var encoded := Encode(SessionPayload(ms[0])).value;
      SessionRoundTrip(t, ms[1..], tail);
      assert SessionMessageBytes(ms) + tail == encoded + rest;
      assert (encoded + rest)[|encoded|..] == rest;
      assert ms == [ms[0]] + ms[1..];
    }
  }

  lemma SessionPayloadWellFormed(m: SessionMessage)
    ensures WellFormed(SessionPayload(m)) && !SessionPayload(m).FrameOf?
  {
  }

  lemma HelloRead(t: Target, h: Hello, rest: seq<byte>)
    requires h.formats.Valid()
    ensures ReadSessionHello(t, Encode(HelloPayload(h)).value + rest) == Ok(Some(h))
  {
    InboundRoundTrip(t, HelloPayload(h), rest);
  }

  lemma InboundRoundTrip(t: Target, p: Payload, rest: seq<byte>)
    requires WellFormed(p) && !p.FrameOf?
    ensures Encode(p).Ok?
    ensures ReadOutcome(Encode(p).value + rest).Ok?
    ensures ReadOutcome(Encode(p).value + rest).value.1 == Encode(p).value
    ensures InboundOutcome(t, Encode(p).value + rest) ==
            Ok(Some(match p
                    case HelloPayload(h) => InboundHello(h)
                    case PointerPayload(q) => InboundPointer(q)
                    case ViewportPayload(v) => InboundViewport(v)))
  {
    RoundTrip(t, p, rest);
    EncodeOfDecode(Encode(p).value + rest);
    hide DecodeMessage, DecodePayload, Encode;
    assert (Encode(p).value + rest)[..|Encode(p).value|] == Encode(p).value;
  }

  /** A message cut short, however short, is one the readers wait for in vain. */
  lemma FragmentIncomplete(t: Target, p: Payload, tail: seq<byte>)
    requires WellFormed(p) && Encode(p).Ok? && tail < Encode(p).value
    ensures ReadOutcome(tail) == Err(UnexpectedEof)
  {
    var whole := Encode(p).value;
    RoundTrip(t, p, []);
    assert whole + [] == whole;
    assert whole == tail + whole[|tail|..];
    DecodeStable(tail, whole[|tail|..]);
    EncodeOfDecode(tail);
    hide Encode, WellFormed, DecodeMessage;
  }

  // ---------- A stream of frames ----------

  function FrameBytes(frames: seq<ReceivedFrame>): seq<byte> {
    if frames == [] then [] else frames[0].encoded + FrameBytes(frames[1..])
  }

  /** Each is what its own bytes are read as. */
  ghost predicate Readable(t: Target, frames: seq<ReceivedFrame>) {
    forall k :: 0 <= k < |frames| ==> FrameOutcome(t, frames[k].encoded) == Ok(frames[k])
  }

  /** A frame is read alike whatever follows it. */
  lemma FrameInFront(t: Target, f: ReceivedFrame, rest: seq<byte>)
    requires FrameOutcome(t, f.encoded) == Ok(f)
    ensures InboundFrame(t, f.encoded + rest) == Ok(Some(f))
  {
    DecodeStable(f.encoded, rest);
    EncodeOfDecode(f.encoded);
    hide DecodeMessage, DecodePayload;
    var consumed := DecodeMessage(f.encoded).value.consumed;
    assert consumed == |f.encoded|;
    assert (f.encoded + rest)[..consumed] == f.encoded;
  }

  /** Frames written one after the other are read as those frames, and a last one cut short is noticed and costs
      nothing before it. */
  lemma {:induction false} FramesRoundTrip(t: Target, frames: seq<ReceivedFrame>, tail: seq<byte>)
    requires Readable(t, frames) && (tail != [] ==> ReadOutcome(tail) == Err(UnexpectedEof))
    ensures FramesRead(t, FrameBytes(frames) + tail) == (frames, if tail == [] then None else Some(UnexpectedEof))
    decreases |frames|
  {
    hide FramesRead, FrameBytes, ReadOutcome, FrameOutcome;
    if frames == [] {
      NothingButTail(t, tail);
    } else {
      FramesRoundTrip(t, frames[1..], tail);
      OneMoreFrame(t, frames, tail);
    }
  }

  lemma OneMoreFrame(t: Target, frames: seq<ReceivedFrame>, tail: seq<byte>)
    requires frames != [] && FrameOutcome(t, frames[0].encoded) == Ok(frames[0])
    ensures var rest := FramesRead(t, FrameBytes(frames[1..]) + tail);
            rest.0 == frames[1..] ==> FramesRead(t, FrameBytes(frames) + tail) == (frames, rest.1)
  {
    FirstBytes(frames, tail);
    hide InboundFrame, FrameOutcome, FrameBytes, FramesRead;
    var rest := FrameBytes(frames[1..]) + tail;
    FrameInFront(t, frames[0], rest);
    FramesStep(t, frames[0].encoded + rest, frames[0]);
    assert (frames[0].encoded + rest)[|frames[0].encoded|..] == rest;
    assert frames == [frames[0]] + frames[1..];
  }

  lemma NothingButTail(t: Target, tail: seq<byte>)
    requires tail != [] ==> ReadOutcome(tail) == Err(UnexpectedEof)
    ensures FramesRead(t, FrameBytes([]) + tail) == ([], if tail == [] then None else Some(UnexpectedEof))
  {
    assert FrameBytes([]) + tail == tail;
    hide ReadOutcome;
  }

  lemma FirstBytes(frames: seq<ReceivedFrame>, tail: seq<byte>)
    requires frames != []
    ensures FrameBytes(frames) + tail == frames[0].encoded + (FrameBytes(frames[1..]) + tail)
  {
    var first, rest := frames[0].encoded, FrameBytes(frames[1..]);
    assert FrameBytes(frames) == first + rest;
    hide FrameBytes;
    assert first + rest + tail == first + (rest + tail);
  }
}
