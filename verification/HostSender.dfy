/** The host's frame sender: frame identifiers, the authoritative frame and the application baseline
    (tools/paperspoon/src/main.rs). */
module HostSender {
  import opened Machine
  import Frames
  import opened WirePayload
  import opened HostConnection
  import H = HostInput

  /** A diagnostic pattern of one size and format: its picture, when the size can be drawn at all. */
  datatype DiagnosticFrame = DiagnosticFrame(size: Viewport, format: Frames.PixelFormat, picture: Option<Frames.Frame>)

  datatype Authoritative =
    | Application(viewport: Viewport)
    | Diagnostic(diagnostic: DiagnosticFrame)
    | Jpeg(frame: Frames.Frame)
    | NowPlaying(frame: Frames.Frame)

  datatype SendError =
    | FrameIdExhausted
    | EncodeFailed
    | WriteFailed
    | FormatUnsupported(format: Frames.PixelFormat)
    | PeerChanged
    | SizeChanged
    | RenderFailed
    | UnexpectedlySuppressed

  datatype SentFrame = SentFrame(frameId: u64, encodedLen: nat, applicationViewport: Option<Viewport>)

  datatype ApplicationSend = Delivered(sent: SentFrame) | Unchanged | NotConnected

  datatype HelloFrame = HelloFrame(sent: SentFrame, retained: bool, frame: Authoritative)

  /** The sender's fields, the connection, and its history: the picture of each complete write. */
  datatype Host = Host(
    peers: Peers,
    nextFrameId: u64,
    authoritative: Option<Authoritative>,
    baseline: Option<Frames.Frame>,
    sent: seq<Frames.Frame>)

  function NewHost(p: Peers): Host {
    Host(p, 1, None, None, [])
  }

  function FrameSize(f: Frames.Frame): Viewport {
    Viewport(f.width, f.height)
  }

  function Dimensions(a: Authoritative): Viewport {
    match a
    case Application(viewport) => viewport
    case Diagnostic(d) => d.size
    case Jpeg(f) => FrameSize(f)
    case NowPlaying(f) => FrameSize(f)
  }

  function FormatOf(a: Authoritative): Frames.PixelFormat {
    match a
    case Application(_) => Frames.Mono1
    case Diagnostic(d) => d.format
    case Jpeg(_) => Frames.Gray8
    case NowPlaying(_) => Frames.Gray8
  }

  function ApplicationViewport(a: Authoritative): Option<Viewport> {
    if a.Application? then Some(a.viewport) else None
  }

  // ---------- What a send computes ----------

  /** The message bytes of a picture under an identifier, if it can be drawn and encoded. */
  function EncodePicture(frameId: u64, picture: Option<Frames.Frame>): Option<seq<byte>> {
    if picture.None? then None
    else
      match Encode(FrameOf(FramePayload(frameId, picture.value)))
      case Err(_) => None
      case Ok(bytes) => Some(bytes)
  }

  /** `send_locked` */
  function SendLocked(h: Host, format: Frames.PixelFormat, target: Option<FrameTarget>, picture: Option<Frames.Frame>,
                      authoritative: Authoritative, accepts: bool): (Host, Result<Option<SentFrame>, SendError>)
  {
    if h.nextFrameId == U64_MAX then (h, Err(FrameIdExhausted))
    else
      var encoded := EncodePicture(h.nextFrameId, picture);
      if encoded.None? then (h, Err(EncodeFailed))
      else
        var (p, forwarded) := Forward(h.peers, encoded.value, format, target, accepts);
        if forwarded.Err? then (h.(peers := p), Err(WriteFailed))
        else if forwarded.value != Sent then (h.(peers := p), Refusal(forwarded.value, format))
        else
          (Host(p, h.nextFrameId + 1, Some(authoritative),
                if authoritative.Application? then h.baseline else None, h.sent + [picture.value]),
           Ok(Some(SentFrame(h.nextFrameId, |encoded.value|, ApplicationViewport(authoritative)))))
  }

  /** A write the connection would not make. */
  function Refusal(forwarded: FrameForward, format: Frames.PixelFormat): Result<Option<SentFrame>, SendError>
    requires forwarded != Sent
  {
    match forwarded
    case NoConnection => Ok(None)
    case UnsupportedPixelFormat => Err(FormatUnsupported(format))
    case ConnectionChanged => Err(PeerChanged)
    case ViewportChanged => Err(SizeChanged)
  }

  /** `send_application_locked`: `candidate` is what the renderer makes of the UI for this viewport, `between`
      what other threads do to the connection after the activity check. */
  function SendApplicationLocked(h: Host, candidate: Option<Frames.Frame>, viewport: Viewport, suppressUnchanged: bool,
                                 between: seq<PeerAction>, accepts: bool): (Host, Result<ApplicationSend, SendError>)
  {
    if candidate.None? then (h, Err(RenderFailed))
    else if h.peers.active.None? then (h, Ok(NotConnected))
    else if suppressUnchanged && h.authoritative == Some(Application(viewport)) && h.baseline == candidate then
      (h, Ok(Unchanged))
    else
      var (next, sent) := SendLocked(h.(peers := ActAll(h.peers, between)), Frames.Mono1, None, candidate,
                                     Application(viewport), accepts);
      match sent
      case Err(e) => (next, Err(e))
      case Ok(None) => (next, Ok(NotConnected))
      case Ok(Some(s)) => (next.(baseline := candidate), Ok(Delivered(s)))
  }

  /** `send_application_for_viewport_change`: the baseline is dropped before anything else. */
  function SendForViewportChange(h: Host, candidate: Option<Frames.Frame>, viewport: Viewport,
                                 between: seq<PeerAction>, accepts: bool): (Host, Result<Option<SentFrame>, SendError>)
  {
    var (next, sent) := SendApplicationLocked(h.(baseline := None), candidate, viewport, false, between, accepts);
    match sent
    case Err(e) => (next, Err(e))
    case Ok(Delivered(s)) => (next, Ok(Some(s)))
    case Ok(NotConnected) => (next, Ok(None))
    case Ok(Unchanged) => (next, Err(UnexpectedlySuppressed))
  }

  /** The authoritative frame a Hello may have back. */
  function Retained(h: Host, viewport: Viewport, formats: PixelFormats): Option<Authoritative> {
    if h.authoritative.Some? && Dimensions(h.authoritative.value) == viewport
       && formats.Supports(FormatOf(h.authoritative.value))
    then h.authoritative else None
  }

  /** `send_for_hello` */
  function SendForHello(h: Host, candidate: Option<Frames.Frame>, viewport: Viewport, formats: PixelFormats,
                        between: seq<PeerAction>, accepts: bool): (Host, Result<Option<HelloFrame>, SendError>)
  {
    var retained := Retained(h, viewport, formats);
    var frame := if retained.Some? then retained.value else Application(viewport);
    var (next, sent) := SendChosen(h, candidate, frame, between, accepts);
    match sent
    case Err(e) => (next, Err(e))
    case Ok(None) => (next, Ok(None))
    case Ok(Some(s)) => (next, Ok(Some(HelloFrame(s, retained.Some?, frame))))
  }

  function SendChosen(h: Host, candidate: Option<Frames.Frame>, frame: Authoritative,
                      between: seq<PeerAction>, accepts: bool): (Host, Result<Option<SentFrame>, SendError>)
  {
    match frame
    case Application(v) =>
      var (next, sent) := SendApplicationLocked(h, candidate, v, false, between, accepts);
      (next, match sent
             case Err(e) => Err(e)
             case Ok(Delivered(s)) => Ok(Some(s))
             case Ok(NotConnected) => Ok(None)
             case Ok(Unchanged) => Err(UnexpectedlySuppressed))
    case Diagnostic(d) =>
      SendLocked(h.(peers := ActAll(h.peers, between)), d.format, None, d.picture, frame, accepts)
    case Jpeg(f) => SendLocked(h.(peers := ActAll(h.peers, between)), Frames.Gray8, None, Some(f), frame, accepts)
    case NowPlaying(f) => SendLocked(h.(peers := ActAll(h.peers, between)), Frames.Gray8, None, Some(f), frame, accepts)
  }

  // ---------- The object ----------

  /** Every method holds the sender's lock throughout; `between` is what other threads do to the connection
      meanwhile. */
  class FrameSender {
    const current: CurrentConnection
    var nextFrameId: u64
    var authoritative: Option<Authoritative>
    var lastApplicationFrame: Option<Frames.Frame>
    ghost var sent: seq<Frames.Frame>

    ghost function View(): Host
      reads this, current
    {
      Host(current.View(), nextFrameId, authoritative, lastApplicationFrame, sent)
    }

    constructor (current: CurrentConnection)
      ensures this.current == current && View() == NewHost(current.View())
    {
      this.current := current;
      nextFrameId, authoritative, lastApplicationFrame, sent := 1, None, None, [];
    }

    method Send(format: Frames.PixelFormat, target: Option<FrameTarget>, picture: Option<Frames.Frame>,
                frame: Authoritative, accepts: bool) returns (r: Result<Option<SentFrame>, SendError>)
      modifies this, current
      ensures (View(), r) == SendLocked(old(View()), format, target, picture, frame, accepts)
    {
      hide EncodePicture, Forward, ApplicationViewport;
      var frameId := nextFrameId;
      if frameId == U64_MAX {
        return Err(FrameIdExhausted);
      }
      var encoded := EncodePicture(frameId, picture);
      if encoded.None? {
        return Err(EncodeFailed);
      }
      var forwarded := current.ForwardFrame(encoded.value, format, target, accepts);
      if forwarded.Err? {
        return Err(WriteFailed);
      }
      if forwarded.value != Sent {
        return Refusal(forwarded.value, format);
      }
      nextFrameId := frameId + 1;
      authoritative := Some(frame);
      if !frame.Application? {
        lastApplicationFrame := None;
      }
      sent := sent + [PictureOf(frameId, picture)];
      r := Ok(Some(SentFrame(frameId, |encoded.value|, ApplicationViewport(frame))));
    }

    method SendDiagnostic(d: DiagnosticFrame, accepts: bool) returns (r: Result<Option<SentFrame>, SendError>)
      modifies this, current
      ensures (View(), r) == SendLocked(old(View()), d.format, None, d.picture, Diagnostic(d), accepts)
    {
      r := Send(d.format, None, d.picture, Diagnostic(d), accepts);
    }

    /** `send_jpeg_frame` and `send_now_playing_frame`: a frame prepared for a target taken earlier. */
    method SendGray(frame: Frames.Frame, nowPlaying: bool, target: FrameTarget, accepts: bool)
      returns (r: Result<Option<SentFrame>, SendError>)
      modifies this, current
      ensures (View(), r) == SendLocked(old(View()), Frames.Gray8, Some(target), Some(frame),
                                        if nowPlaying then NowPlaying(frame) else Jpeg(frame), accepts)
    {
      r := Send(Frames.Gray8, Some(target), Some(frame), if nowPlaying then NowPlaying(frame) else Jpeg(frame),
                accepts);
    }

    method SendApplication(candidate: Option<Frames.Frame>, viewport: Viewport, suppressUnchanged: bool,
                           between: seq<PeerAction>, accepts: bool) returns (r: Result<ApplicationSend, SendError>)
      modifies this, current
      ensures (View(), r) ==
              SendApplicationLocked(old(View()), candidate, viewport, suppressUnchanged, between, accepts)
    {
      hide SendLocked, ActAll;
      if candidate.None? {
        return Err(RenderFailed);
      }
      if !current.IsActive() {
        return Ok(NotConnected);
      }
      if suppressUnchanged && authoritative == Some(Application(viewport)) && lastApplicationFrame == candidate {
        return Ok(Unchanged);
      }
      current.Interleave(between);
      var sent := Send(Frames.Mono1, None, candidate, Application(viewport), accepts);
      match sent {
        case Err(e) => r := Err(e);
        case Ok(None) => r := Ok(NotConnected);
        case Ok(Some(s)) =>
          lastApplicationFrame := candidate;
          r := Ok(Delivered(s));
      }
    }

    method ReplaceForViewport(candidate: Option<Frames.Frame>, viewport: Viewport, between: seq<PeerAction>,
                              accepts: bool)
      returns (r: Result<Option<SentFrame>, SendError>)
      modifies this, current
      ensures (View(), r) == SendForViewportChange(old(View()), candidate, viewport, between, accepts)
    {
      hide SendApplicationLocked;
      lastApplicationFrame := None;
      var sent := SendApplication(candidate, viewport, false, between, accepts);
      match sent {
        case Err(e) => r := Err(e);
        case Ok(Delivered(s)) => r := Ok(Some(s));
        case Ok(NotConnected) => r := Ok(None);
        case Ok(Unchanged) => r := Err(UnexpectedlySuppressed);
      }
    }

    method ReplaceForHello(candidate: Option<Frames.Frame>, viewport: Viewport, formats: PixelFormats,
                           between: seq<PeerAction>, accepts: bool) returns (r: Result<Option<HelloFrame>, SendError>)
      modifies this, current
      ensures (View(), r) == SendForHello(old(View()), candidate, viewport, formats, between, accepts)
    {
      hide SendApplicationLocked, SendLocked, ActAll, FormatOf, Dimensions;
      var retained := if authoritative.Some? && Dimensions(authoritative.value) == viewport
                         && formats.Supports(FormatOf(authoritative.value)) then authoritative else None;
      var frame := if retained.Some? then retained.value else Application(viewport);
      var sent: Option<SentFrame>;
      if frame.Application? {
        var delivered := SendApplication(candidate, frame.viewport, false, between, accepts);
        match delivered {
          case Err(e) => return Err(e);
          case Ok(Delivered(s)) => sent := Some(s);
          case Ok(NotConnected) => sent := None;
          case Ok(Unchanged) => return Err(UnexpectedlySuppressed);
        }
      } else {
        current.Interleave(between);
        var picture := match frame
          case Diagnostic(d) => d.picture
          case Jpeg(f) => Some(f)
          case NowPlaying(f) => Some(f)
          case Application(_) => None;
        var format := if frame.Diagnostic? then frame.diagnostic.format else Frames.Gray8;
        var delivered := Send(format, None, picture, frame, accepts);
        if delivered.Err? {
          return Err(delivered.error);
        }
        sent := delivered.value;
      }
      r := if sent.Some? then Ok(Some(HelloFrame(sent.value, retained.Some?, frame))) else Ok(None);
    }
  }

  function Pair(v: Option<Viewport>): Option<(u16, u16)> {
    if v.Some? then Some((v.value.width, v.value.height)) else None
  }

  /** `replace_application_frame`: input is refused until the replacement has been written. */
  method ReplaceApplicationFrame(sender: FrameSender, input: H.ApplicationInput, candidate: Option<Frames.Frame>,
                                 viewport: Viewport, between: seq<PeerAction>, accepts: bool)
    returns (rendered: Option<Viewport>, r: Result<Option<SentFrame>, SendError>)
    modifies sender, sender.current, input
    ensures (sender.View(), r) == SendForViewportChange(old(sender.View()), candidate, viewport, between, accepts)
    ensures rendered == if r.Ok? && r.value.Some? then Some(viewport) else None
    ensures input.View() == H.WithViewport(Pair(rendered))
  {
    hide SendForViewportChange;
    rendered := None;
    input.SetViewport(None);
    r := sender.ReplaceForViewport(candidate, viewport, between, accepts);
    if r.Ok? && r.value.Some? {
      rendered := Some(viewport);
      input.SetViewport(Some((viewport.width, viewport.height)));
    }
  }

  /** `replace_hello_frame` */
  method ReplaceHelloFrame(sender: FrameSender, input: H.ApplicationInput, candidate: Option<Frames.Frame>,
                           viewport: Viewport, formats: PixelFormats, between: seq<PeerAction>, accepts: bool)
    returns (rendered: Option<Viewport>, r: Result<Option<HelloFrame>, SendError>)
    modifies sender, sender.current, input
    ensures (sender.View(), r) == SendForHello(old(sender.View()), candidate, viewport, formats, between, accepts)
    ensures rendered == if r.Ok? && r.value.Some? then r.value.value.sent.applicationViewport else None
    ensures input.View() == H.WithViewport(Pair(rendered))
  {
    hide SendForHello;
    rendered := None;
    input.SetViewport(None);
    r := sender.ReplaceForHello(candidate, viewport, formats, between, accepts);
    if r.Ok? && r.value.Some? {
      rendered := r.value.value.sent.applicationViewport;
      input.SetViewport(Pair(rendered));
    }
  }

  /** The picture behind an encoding. */
  function PictureOf(frameId: u64, picture: Option<Frames.Frame>): Frames.Frame
    requires EncodePicture(frameId, picture).Some?
  {
    picture.value
  }
}
