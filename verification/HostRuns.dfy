/** What holds of every history of the host's sends, Hellos, viewport changes and write failures, however
    they interleave with connection changes. */
module HostRuns {
  import opened Machine
  import Frames
  import opened WireFraming
  import opened WirePayload
  import opened WireReader
  import opened HostConnection
  import opened HostSender

  // ---------- Histories ----------

  datatype Op =
    | Peer(action: PeerAction)
    | OpDiagnostic(diagnostic: DiagnosticFrame, accepts: bool)
    | OpGray(frame: Frames.Frame, nowPlaying: bool, target: FrameTarget, accepts: bool)
    | OpApplication(candidate: Option<Frames.Frame>, viewport: Viewport, between: seq<PeerAction>, accepts: bool)
    | OpViewport(candidate: Option<Frames.Frame>, viewport: Viewport, between: seq<PeerAction>, accepts: bool)
    | OpHello(candidate: Option<Frames.Frame>, viewport: Viewport, formats: PixelFormats, between: seq<PeerAction>,
              accepts: bool)

  function GrayAuthoritative(nowPlaying: bool, f: Frames.Frame): Authoritative {
    if nowPlaying then NowPlaying(f) else Jpeg(f)
  }

  function Apply(h: Host, op: Op): Host {
    match op
    case Peer(a) => h.(peers := Act(h.peers, a))
    case OpDiagnostic(d, accepts) => SendLocked(h, d.format, None, d.picture, Diagnostic(d), accepts).0
    case OpGray(f, now, target, accepts) =>
      SendLocked(h, Frames.Gray8, Some(target), Some(f), GrayAuthoritative(now, f), accepts).0
    case OpApplication(c, v, between, accepts) => SendApplicationLocked(h, c, v, true, between, accepts).0
    case OpViewport(c, v, between, accepts) => SendForViewportChange(h, c, v, between, accepts).0
    case OpHello(c, v, formats, between, accepts) => SendForHello(h, c, v, formats, between, accepts).0
  }

  /** A valid frame of the size and format asked for. */
  ghost predicate Good(picture: Option<Frames.Frame>, size: Viewport, format: Frames.PixelFormat) {
    picture.Some? ==>
      Frames.Valid(picture.value) && picture.value.format == format && FrameSize(picture.value) == size
  }

  /** The renderer, the decoder and the pattern generator return frames of what they were asked for. */
  ghost predicate Proper(op: Op) {
    match op
    case Peer(_) => true
    case OpDiagnostic(d, _) => Good(d.picture, d.size, d.format)
    case OpGray(f, _, target, _) => Good(Some(f), target.viewport, Frames.Gray8)
    case OpApplication(c, v, _, _) => Good(c, v, Frames.Mono1)
    case OpViewport(c, v, _, _) => Good(c, v, Frames.Mono1)
    case OpHello(c, v, _, _, _) => Good(c, v, Frames.Mono1)
  }

  ghost predicate Leads(h: Host, ops: seq<Op>, u: Host)
    decreases |ops|
  {
    if ops == [] then u == h
    else Proper(ops[0]) && Leads(Apply(h, ops[0]), ops[1..], u)
  }

  // ---------- The invariant ----------

  /** What an authoritative record says about the picture that was written. */
  ghost predicate Describes(a: Authoritative, f: Frames.Frame) {
    && Good(Some(f), Dimensions(a), FormatOf(a))
    && match a
       case Application(_) => true
       case Diagnostic(d) => d.picture == Some(f)
       case Jpeg(g) => f == g
       case NowPlaying(g) => f == g
  }

  /** The write numbered k carries identifier k + 1 and its own picture. */
  ghost predicate Numbered(h: Host, k: nat)
    requires k < |h.peers.wire| == |h.sent|
  {
    var w, f := h.peers.wire[k], h.sent[k];
    && k + 1 <= U64_MAX && Frames.Valid(f) && f.format == w.format
    && EncodePicture(k + 1, Some(f)) == Some(w.bytes)
    && (w.target.Some? ==> f.format == Frames.Gray8 && FrameSize(f) == w.target.value.viewport)
  }

  ghost predicate SenderInv(h: Host) {
    && |h.sent| == |h.peers.wire| && h.nextFrameId == |h.sent| + 1
    && (forall k: nat :: k < |h.sent| ==> Numbered(h, k))
    && (h.authoritative.Some? <==> h.sent != [])
    && (h.sent != [] ==> Describes(h.authoritative.value, h.sent[|h.sent| - 1]))
  }

  ghost predicate BaselineInv(h: Host) {
    h.baseline.Some? ==>
      h.sent != [] && h.baseline.value == h.sent[|h.sent| - 1]
      && h.authoritative == Some(Application(FrameSize(h.baseline.value)))
  }

  ghost predicate HostInv(h: Host) {
    PeersInv(h.peers) && SenderInv(h) && BaselineInv(h)
  }

  lemma NewHostInv(p: Peers)
    requires PeersInv(p) && p.wire == []
    ensures HostInv(NewHost(p))
  {
  }

  // ---------- One send ----------

  /** Exactly when a frame goes out. */
  predicate Deliverable(h: Host, format: Frames.PixelFormat, target: Option<FrameTarget>,
                        picture: Option<Frames.Frame>) {
    && h.nextFrameId < U64_MAX && EncodePicture(h.nextFrameId, picture).Some?
    && h.peers.active.Some?
    && (var a := h.peers.active.value;
        && a.formats.Supports(format)
        && (target.Some? ==> a.token == target.value.token && a.viewport == Some(target.value.viewport)))
  }

  /** A send writes one frame, to the active peer, with the next identifier, exactly when it is deliverable and
      the socket takes it; any other send changes nothing but, after a failed write, the connection. */
  lemma SendExactly(h: Host, format: Frames.PixelFormat, target: Option<FrameTarget>, picture: Option<Frames.Frame>,
                    a: Authoritative, accepts: bool)
    ensures var (u, r) := SendLocked(h, format, target, picture, a, accepts);
            if Deliverable(h, format, target, picture) && accepts then
              && r.Ok? && r.value.Some? && r.value.value.frameId == h.nextFrameId
              && u.peers.wire == h.peers.wire + [Written(h.peers.active.value, format, target,
                                                         EncodePicture(h.nextFrameId, picture).value)]
              && u.sent == h.sent + [picture.value] && u.nextFrameId == h.nextFrameId + 1
              && u.authoritative == Some(a) && u.peers.active == h.peers.active
            else
              && (r.Ok? ==> r.value.None?)
              && u == h.(peers := u.peers) && u.peers.wire == h.peers.wire
              && (u.peers == h.peers || (u.peers.active.None? && Deliverable(h, format, target, picture) && !accepts))
  {
    hide EncodePicture, PixelFormats.Supports;
  }

  /** A frame prepared for a target that has gone says so: another peer has come, or the peer's size has changed. */
  lemma StaleTargetSaysWhy(h: Host, format: Frames.PixelFormat, target: FrameTarget, picture: Option<Frames.Frame>,
                           a: Authoritative, accepts: bool)
    requires h.nextFrameId < U64_MAX && EncodePicture(h.nextFrameId, picture).Some? && h.peers.active.Some?
    ensures var (u, r) := SendLocked(h, format, Some(target), picture, a, accepts);
            var peer := h.peers.active.value;
            && (r == Err(PeerChanged) <==> peer.token != target.token)
            && (r == Err(SizeChanged) <==> peer.token == target.token && peer.viewport != Some(target.viewport))
            && (r == Err(FormatUnsupported(format)) <==>
                  peer.token == target.token && peer.viewport == Some(target.viewport) && !peer.formats.Supports(format))
  {
    hide EncodePicture, PixelFormats.Supports;
  }

  lemma SendKeepsInv(h: Host, format: Frames.PixelFormat, target: Option<FrameTarget>, picture: Option<Frames.Frame>,
                     a: Authoritative, accepts: bool)
    requires PeersInv(h.peers) && SenderInv(h) && format == FormatOf(a)
    requires picture.Some? ==> Describes(a, picture.value)
    requires target.Some? ==> format == Frames.Gray8 && Dimensions(a) == target.value.viewport
    ensures var (u, r) := SendLocked(h, format, target, picture, a, accepts);
            PeersInv(u.peers) && SenderInv(u)
  {
    SendKeepsPeers(h, format, target, picture, a, accepts);
    SendExactly(h, format, target, picture, a, accepts);
    hide SendLocked, PeersInv, EncodePicture, Describes, Frames.Valid, PixelFormats.Supports, SenderInv;
    var u := SendLocked(h, format, target, picture, a, accepts).0;
    if Deliverable(h, format, target, picture) && accepts {
      assert Describes(a, picture.value);
      OneMoreKeepsSender(h, u, a, picture.value);
    } else {
      SameKeepsSender(h, u);
    }
  }

  lemma OneMoreKeepsSender(h: Host, u: Host, a: Authoritative, f: Frames.Frame)
    requires SenderInv(h) && Describes(a, f) && h.nextFrameId < U64_MAX
    requires |u.peers.wire| == |h.peers.wire| + 1 && u.peers.wire[..|h.peers.wire|] == h.peers.wire
    requires u.sent == h.sent + [f] && u.nextFrameId == h.nextFrameId + 1 && u.authoritative == Some(a)
    requires var w := u.peers.wire[|h.peers.wire|];
             && w.format == FormatOf(a) && EncodePicture(h.nextFrameId, Some(f)) == Some(w.bytes)
             && (w.target.Some? ==> w.format == Frames.Gray8 && Dimensions(a) == w.target.value.viewport)
    ensures SenderInv(u)
  {
    hide EncodePicture, Frames.Valid;
    DescribedIsGood(a, f);
    forall k: nat | k < |u.sent|
      ensures Numbered(u, k)
    {
      if k < |h.sent| {
        assert Numbered(h, k);
        assert u.peers.wire[k] == h.peers.wire[k];
      }
    }
  }

  lemma SameKeepsSender(h: Host, u: Host)
    requires SenderInv(h) && u.peers.wire == h.peers.wire && u.sent == h.sent
    requires u.nextFrameId == h.nextFrameId && u.authoritative == h.authoritative
    ensures SenderInv(u)
  {
    hide EncodePicture, Frames.Valid, Describes;
    forall k: nat | k < |u.sent|
      ensures Numbered(u, k)
    {
      assert Numbered(h, k);
    }
  }

  lemma DescribedIsGood(a: Authoritative, f: Frames.Frame)
    requires Describes(a, f)
    ensures Frames.Valid(f) && f.format == FormatOf(a) && FrameSize(f) == Dimensions(a)
  {
  }

  lemma SendKeepsPeers(h: Host, format: Frames.PixelFormat, target: Option<FrameTarget>, picture: Option<Frames.Frame>,
                       a: Authoritative, accepts: bool)
    requires PeersInv(h.peers)
    ensures PeersInv(SendLocked(h, format, target, picture, a, accepts).0.peers)
  {
    hide PeersInv, EncodePicture, Forward;
    var encoded := EncodePicture(h.nextFrameId, picture);
    if encoded.Some? {
      ForwardKeepsInv(h.peers, encoded.value, format, target, accepts);
    }
  }

  // ---------- Every operation ----------

  lemma InterleavedInv(h: Host, between: seq<PeerAction>)
    requires PeersInv(h.peers) && SenderInv(h)
    ensures var g := h.(peers := ActAll(h.peers, between));
            PeersInv(g.peers) && SenderInv(g) && g.peers.wire == h.peers.wire
  {
    ActAllKeepsInv(h.peers, between);
    hide ActAll, PeersInv, SenderInv;
    SameKeepsSender(h, h.(peers := ActAll(h.peers, between)));
  }

  lemma ApplicationDescribes(v: Viewport, c: Frames.Frame)
    requires Good(Some(c), v, Frames.Mono1)
    ensures Describes(Application(v), c) && FrameSize(c) == v
  {
  }

  lemma ApplicationKeepsInv(h: Host, c: Option<Frames.Frame>, v: Viewport, suppress: bool, between: seq<PeerAction>,
                            accepts: bool)
    requires HostInv(h) && Good(c, v, Frames.Mono1)
    ensures HostInv(SendApplicationLocked(h, c, v, suppress, between, accepts).0)
  {
    hide PeersInv, SenderInv, ActAll, SendLocked, Good, Describes, FrameSize, PixelFormats.Supports, EncodePicture;
    if c.Some? {
      InterleavedInv(h, between);
      var g := h.(peers := ActAll(h.peers, between));
      ApplicationDescribes(v, c.value);
      SendKeepsInv(g, Frames.Mono1, None, c, Application(v), accepts);
      SendExactly(g, Frames.Mono1, None, c, Application(v), accepts);
      BaselineIrrelevant(SendLocked(g, Frames.Mono1, None, c, Application(v), accepts).0, c);
    }
  }

  /** The sender's invariant does not look at the baseline. */
  lemma BaselineIrrelevant(h: Host, c: Option<Frames.Frame>)
    requires SenderInv(h)
    ensures SenderInv(h.(baseline := c))
  {
    hide SenderInv;
    SameKeepsSender(h, h.(baseline := c));
  }

  lemma ChosenKeepsInv(h: Host, c: Option<Frames.Frame>, frame: Authoritative, between: seq<PeerAction>, accepts: bool)
    requires HostInv(h) && Good(c, Dimensions(frame), Frames.Mono1)
    requires !frame.Application? ==> h.authoritative == Some(frame)
    ensures HostInv(SendChosen(h, c, frame, between, accepts).0)
  {
    if frame.Application? {
      hide HostInv, Good;
      ApplicationKeepsInv(h, c, frame.viewport, false, between, accepts);
    } else {
      var picture := h.sent[|h.sent| - 1];
      DescribedPicture(frame, picture);
      hide PeersInv, SenderInv, ActAll, SendLocked, Good, Describes, PixelFormats.Supports, EncodePicture;
      InterleavedInv(h, between);
      var g := h.(peers := ActAll(h.peers, between));
      SendKeepsInv(g, FormatOf(frame), None, Some(picture), frame, accepts);
      SendExactly(g, FormatOf(frame), None, Some(picture), frame, accepts);
      SendBaseline(g, FormatOf(frame), None, Some(picture), frame, accepts);
    }
  }

  /** An authoritative frame other than the application's is its own picture. */
  lemma DescribedPicture(a: Authoritative, f: Frames.Frame)
    requires Describes(a, f) && !a.Application?
    ensures match a
            case Diagnostic(d) => d.picture == Some(f) && d.format == FormatOf(a)
            case Jpeg(g) => g == f
            case NowPlaying(g) => g == f
  {
  }

  /** Whatever is sent other than an application frame clears the baseline. */
  lemma SendBaseline(h: Host, format: Frames.PixelFormat, target: Option<FrameTarget>, picture: Option<Frames.Frame>,
                     a: Authoritative, accepts: bool)
    requires BaselineInv(h) && !a.Application?
    ensures BaselineInv(SendLocked(h, format, target, picture, a, accepts).0)
  {
    hide EncodePicture, Forward;
  }

  lemma ApplyKeepsInv(h: Host, op: Op)
    requires HostInv(h) && Proper(op)
    ensures HostInv(Apply(h, op))
  {
    hide PeersInv, SenderInv, SendLocked, SendApplicationLocked, SendChosen, Good;
    match op {
      case Peer(a) =>
        ActKeepsInv(h.peers, a);
        SameKeepsSender(h, h.(peers := Act(h.peers, a)));
      case OpDiagnostic(d, accepts) =>
        if d.picture.Some? {
          GoodDescribes(Diagnostic(d), d.picture.value);
        }
        SendKeepsInv(h, d.format, None, d.picture, Diagnostic(d), accepts);
        SendBaseline(h, d.format, None, d.picture, Diagnostic(d), accepts);
      case OpGray(f, now, target, accepts) =>
        var a := GrayAuthoritative(now, f);
        GoodIsSized(f, target.viewport, Frames.Gray8);
        GoodDescribes(a, f);
        SendKeepsInv(h, Frames.Gray8, Some(target), Some(f), a, accepts);
        SendBaseline(h, Frames.Gray8, Some(target), Some(f), a, accepts);
      case OpApplication(c, v, between, accepts) => ApplicationKeepsInv(h, c, v, true, between, accepts);
      case OpViewport(c, v, between, accepts) =>
        BaselineIrrelevant(h, None);
        ApplicationKeepsInv(h.(baseline := None), c, v, false, between, accepts);
      case OpHello(c, v, formats, between, accepts) =>
        var retained := Retained(h, v, formats);
        ChosenKeepsInv(h, c, if retained.Some? then retained.value else Application(v), between, accepts);
    }
  }

  lemma GoodIsSized(f: Frames.Frame, v: Viewport, format: Frames.PixelFormat)
    requires Good(Some(f), v, format)
    ensures FrameSize(f) == v && f.format == format
  {
  }

  lemma GoodDescribes(a: Authoritative, f: Frames.Frame)
    requires match a
             case Application(_) => false
             case Diagnostic(d) => d.picture == Some(f) && Good(d.picture, d.size, d.format)
             case Jpeg(g) => g == f && Good(Some(f), FrameSize(f), Frames.Gray8)
             case NowPlaying(g) => g == f && Good(Some(f), FrameSize(f), Frames.Gray8)
    ensures Describes(a, f)
  {
  }

  lemma {:induction false} LeadsKeepsInv(h: Host, ops: seq<Op>, u: Host)
    requires HostInv(h) && Leads(h, ops, u)
    ensures HostInv(u)
    decreases |ops|
  {
    if ops != [] {
      hide Apply, HostInv, Proper;
      ApplyKeepsInv(h, ops[0]);
      LeadsKeepsInv(Apply(h, ops[0]), ops[1..], u);
    }
  }

  // ---------- What a peer can rely on ----------

  lemma HistoryInv(start: Peers, ops: seq<Op>, u: Host)
    requires PeersInv(start) && start.wire == [] && Leads(NewHost(start), ops, u)
    ensures HostInv(u)
  {
    NewHostInv(start);
    LeadsKeepsInv(NewHost(start), ops, u);
  }

  /** In every history the complete writes carry identifiers 1, 2, 3, ... without gap, each in a format its
      peer's Hello advertised, and the device reads each back as exactly its identifier and picture. */
  lemma WritesAreNumbered(start: Peers, ops: seq<Op>, u: Host, k: nat, t: Target)
    requires PeersInv(start) && start.wire == [] && Leads(NewHost(start), ops, u) && k < |u.peers.wire|
    ensures |u.sent| == |u.peers.wire| && u.nextFrameId == |u.peers.wire| + 1
    ensures k + 1 <= U64_MAX
    ensures FrameOutcome(t, u.peers.wire[k].bytes) == Ok(ReceivedFrame(k + 1, u.sent[k], u.peers.wire[k].bytes))
    ensures u.peers.wire[k].peer.token < |u.peers.hellos|
    ensures u.peers.hellos[u.peers.wire[k].peer.token].Supports(u.sent[k].format)
  {
    hide Leads, HostInv, FrameOutcome, PeersInv, PixelFormats.Supports;
    HistoryInv(start, ops, u);
    WrittenSound(u, k);
    ReadBack(t, k + 1, u.sent[k], u.peers.wire[k].bytes);
  }

  lemma WrittenSound(u: Host, k: nat)
    requires HostInv(u) && k < |u.peers.wire|
    ensures |u.sent| == |u.peers.wire| && u.nextFrameId == |u.peers.wire| + 1
    ensures Numbered(u, k) && Sound(u.peers, u.peers.wire[k])
  {
    hide BaselineInv, EncodePicture, PixelFormats.Supports;
    assert u.peers.wire[k] in u.peers.wire;
  }

  lemma ReadBack(t: Target, id: u64, f: Frames.Frame, bytes: seq<byte>)
    requires EncodePicture(id, Some(f)) == Some(bytes) && Frames.Valid(f)
    ensures FrameOutcome(t, bytes) == Ok(ReceivedFrame(id, f, bytes))
  {
    var p := FrameOf(FramePayload(id, f));
    hide Frames.Valid, DecodePayload;
    EncodeFits(id, f);
    RoundTrip(t, p, []);
    assert Encode(p).value + [] == bytes;
    EncodeOfDecode(bytes);
    hide Encode, DecodeMessage;
    FrameTyped(t, bytes);
    assert bytes[..|bytes|] == bytes;
  }

  /** What is encoded is small enough to be read. */
  lemma EncodeFits(id: u64, f: Frames.Frame)
    requires EncodePicture(id, Some(f)).Some? && Frames.Valid(f)
    ensures WellFormed(FrameOf(FramePayload(id, f)))
  {
    hide Frames.Valid;
    FrameLength(FramePayload(id, f));
  }

  /** A message that decodes to a frame is of the frame type. */
  lemma FrameTyped(t: Target, bytes: seq<byte>)
    ensures var r := DecodeMessage(bytes);
            (r.Ok? && r.value.Complete? && DecodePayload(t, r.value.message).Ok?
             && DecodePayload(t, r.value.message).value.FrameOf?) ==> r.value.message.header.messageType == FrameType
  {
    var r := DecodeMessage(bytes);
    if r.Ok? && r.value.Complete? && DecodePayload(t, r.value.message).Ok? {
      PayloadCanonical(t, r.value.message);
    }
  }

  /** A frame sent for a target goes to no other generation and to no other size. */
  lemma TargetsAreHit(start: Peers, ops: seq<Op>, u: Host, k: nat)
    requires PeersInv(start) && start.wire == [] && Leads(NewHost(start), ops, u)
    requires k < |u.peers.wire| && u.peers.wire[k].target.Some?
    ensures |u.sent| == |u.peers.wire|
    ensures var w, target := u.peers.wire[k], u.peers.wire[k].target.value;
            && w.peer.token == target.token && w.peer.viewport == Some(target.viewport)
            && FrameSize(u.sent[k]) == target.viewport && u.sent[k].format == Frames.Gray8
            && w.peer.formats.Supports(Frames.Gray8)
  {
    hide Leads, HostInv, PeersInv, PixelFormats.Supports, Frames.Valid, EncodePicture;
    HistoryInv(start, ops, u);
    WrittenSound(u, k);
  }

  /** `Unchanged` means that the candidate is the last picture written to anyone. */
  lemma UnchangedIsLast(h: Host, c: Option<Frames.Frame>, v: Viewport, between: seq<PeerAction>, accepts: bool)
    requires HostInv(h)
    ensures SendApplicationLocked(h, c, v, true, between, accepts).1 == Ok(Unchanged) ==>
              && SendApplicationLocked(h, c, v, true, between, accepts).0 == h
              && h.peers.active.Some? && h.sent != [] && c == Some(h.sent[|h.sent| - 1])
  {
    hide SendLocked, PeersInv, SenderInv;
  }

  /** The last picture written to the active peer, if any was. */
  function ShownTo(h: Host): Option<Frames.Frame>
    requires |h.sent| == |h.peers.wire|
  {
    var n := |h.sent|;
    if n > 0 && h.peers.active.Some? && h.peers.wire[n - 1].peer.token == h.peers.active.value.token
    then Some(h.sent[n - 1]) else None
  }

  /** It is the last write that decides: earlier writes to the active peer imply that the last one was to it. */
  lemma LastWriteDecides(h: Host, k: nat)
    requires HostInv(h) && h.peers.active.Some? && k < |h.peers.wire|
    requires h.peers.wire[k].peer.token == h.peers.active.value.token
    ensures ShownTo(h).Some?
  {
    assert |h.sent| == |h.peers.wire|;
    hide SenderInv, BaselineInv, PixelFormats.Supports;
    var last := h.peers.wire[|h.peers.wire| - 1];
    assert last in h.peers.wire;
    assert Sound(h.peers, last);
  }

  /** `Unchanged` is the truth about the peer now connected exactly when something has been written to it. */
  lemma UnchangedForPeer(h: Host, c: Option<Frames.Frame>, v: Viewport, between: seq<PeerAction>, accepts: bool)
    requires HostInv(h) && SendApplicationLocked(h, c, v, true, between, accepts).1 == Ok(Unchanged)
    ensures ShownTo(h) == c <==>
            exists k :: 0 <= k < |h.peers.wire| && h.peers.wire[k].peer.token == h.peers.active.value.token
  {
    UnchangedIsLast(h, c, v, between, accepts);
    hide SendLocked, SendApplicationLocked, PeersInv, BaselineInv;
    if k :| 0 <= k < |h.peers.wire| && h.peers.wire[k].peer.token == h.peers.active.value.token {
      LastWriteDecides(h, k);
    }
  }

  /** One connection is greeted with the application's frame and goes; another one comes. */
  function UnseenOps(c: Frames.Frame, formats: PixelFormats): seq<Op> {
    var install := Peer(Install(formats, Some(FrameSize(c))));
    [install, OpHello(Some(c), FrameSize(c), formats, [], true), Peer(Clear(0)), install]
  }

  function Unseen(c: Frames.Frame, formats: PixelFormats): Host {
    var ops := UnseenOps(c, formats);
    Apply(Apply(Apply(Apply(NewHost(NoPeers()), ops[0]), ops[1]), ops[2]), ops[3])
  }

  /** And it can be untrue: for any application frame, a new connection whose Hello has yet to be answered is
      told nothing, because the frame went to the one before. */
  lemma UnchangedUnseen(c: Frames.Frame, formats: PixelFormats)
    requires Good(Some(c), FrameSize(c), Frames.Mono1) && EncodePicture(1, Some(c)).Some?
    requires formats.Supports(Frames.Mono1)
    ensures var h := Unseen(c, formats);
            && Leads(NewHost(NoPeers()), UnseenOps(c, formats), h)
            && h.peers.active.Some?
            && (forall w :: w in h.peers.wire ==> w.peer.token != h.peers.active.value.token)
            && SendApplicationLocked(h, Some(c), FrameSize(c), true, [], true) == (h, Ok(Unchanged))
  {
    hide EncodePicture, Good, PixelFormats.Supports;
    var ops := UnseenOps(c, formats);
    var h0 := NewHost(NoPeers());
    var h1 := Apply(h0, ops[0]);
    var h2 := Apply(h1, ops[1]);
    var h3 := Apply(h2, ops[2]);
    var h := Apply(h3, ops[3]);
    var peer := Active(0, formats, Some(FrameSize(c)));
    assert h1.peers == Peers(Some(peer), [formats], {}, []);
    assert h2.baseline == Some(c) && h2.authoritative == Some(Application(FrameSize(c))) && h2.peers.active == Some(peer);
    assert ops[1..][1..] == ops[2..] && ops[2..][1..] == ops[3..] && ops[3..][1..] == [];
    assert Leads(h3, ops[3..], h);
    assert Leads(h2, ops[2..], h);
    assert Leads(h1, ops[1..], h);
    assert Leads(h0, ops, h);
  }

  // ---------- A broken generation ----------

  /** The slot has moved on without the given generation. */
  ghost predicate Past(p: Peers, q: Peers, token: nat) {
    && |p.hellos| <= |q.hellos| && !IsCurrent(q, token)
    && |p.wire| <= |q.wire| && q.wire[..|p.wire|] == p.wire
    && forall k :: |p.wire| <= k < |q.wire| ==> q.wire[k].peer.token != token
  }

  lemma PastAll(p: Peers, q: Peers, r: Peers, token: nat)
    requires Past(p, q, token) && Past(q, r, token)
    ensures Past(p, r, token)
  {
    assert forall k :: 0 <= k < |q.wire| ==> r.wire[..|q.wire|][k] == q.wire[k];
    assert forall k :: 0 <= k < |p.wire| ==> q.wire[..|p.wire|][k] == p.wire[k];
  }

  lemma {:induction false} ActAllPast(p: Peers, actions: seq<PeerAction>, token: nat)
    requires token < |p.hellos| && !IsCurrent(p, token)
    ensures Past(p, ActAll(p, actions), token)
    decreases |actions|
  {
    if actions != [] {
      var q := Act(p, actions[0]);
      assert Past(p, q, token);
      hide Act, Past;
      assert token < |q.hellos| && !IsCurrent(q, token) by {
        PastMeans(p, q, token);
      }
      ActAllPast(q, actions[1..], token);
      PastAll(p, q, ActAll(q, actions[1..]), token);
    }
  }

  lemma PastMeans(p: Peers, q: Peers, token: nat)
    requires Past(p, q, token) && token < |p.hellos|
    ensures token < |q.hellos| && !IsCurrent(q, token)
  {
  }

  /** The last viewport reported for a generation. */
  function Reported(actions: seq<PeerAction>, token: nat): Option<Viewport> {
    if actions == [] then None
    else
      var later := Reported(actions[1..], token);
      if later.Some? then later
      else if actions[0].UpdateViewport? && actions[0].token == token then Some(actions[0].reported)
      else None
  }

  predicate Ends(a: PeerAction, token: nat) {
    a.Install? || a == Clear(token)
  }

  /** A generation stays current until it is cleared or another is installed, with the viewport last reported. */
  lemma {:induction false} SlotAfter(p: Peers, actions: seq<PeerAction>, active: Active)
    requires p.active == Some(active) && |p.hellos| == active.token + 1
    ensures var q := ActAll(p, actions);
            if exists i :: 0 <= i < |actions| && Ends(actions[i], active.token) then !IsCurrent(q, active.token)
            else q.active == Some(active.(viewport := if Reported(actions, active.token).None? then active.viewport
                                                      else Reported(actions, active.token)))
    decreases |actions|
  {
    if actions != [] {
      var q, rest := Act(p, actions[0]), actions[1..];
      assert forall i :: 0 <= i < |rest| ==> rest[i] == actions[i + 1];
      if Ends(actions[0], active.token) {
        hide Past;
        ActAllPast(q, rest, active.token);
        PastMeans(q, ActAll(q, rest), active.token);
      } else {
        SlotAfter(q, rest, q.active.value);
        assert (exists i :: 0 <= i < |rest| && Ends(rest[i], active.token)) <==>
               (exists i :: 0 <= i < |actions| && Ends(actions[i], active.token)) by {
          assert forall i :: 0 < i < |actions| ==> actions[i] == rest[i - 1];
        }
      }
    }
  }

  /** A target taken earlier is still good exactly when, meanwhile, its generation was neither cleared nor
      replaced and the last viewport reported for it, if any, is its own. */
  lemma TargetSurvives(p: Peers, format: Frames.PixelFormat, t: FrameTarget, actions: seq<PeerAction>, bytes: seq<byte>,
                       accepts: bool)
    requires PeersInv(p) && TargetOf(p, format) == Ok(t)
    ensures Forward(ActAll(p, actions), bytes, format, Some(t), accepts).1 == Delivery(accepts) <==>
            && (forall i :: 0 <= i < |actions| ==> !Ends(actions[i], t.token))
            && (Reported(actions, t.token).Some? ==> Reported(actions, t.token) == Some(t.viewport))
  {
    SlotAfter(p, actions, p.active.value);
    hide ActAll, PeersInv, PixelFormats.Supports;
  }

  lemma SendPast(h: Host, format: Frames.PixelFormat, target: Option<FrameTarget>, picture: Option<Frames.Frame>,
                 a: Authoritative, accepts: bool, token: nat)
    requires !IsCurrent(h.peers, token)
    ensures Past(h.peers, SendLocked(h, format, target, picture, a, accepts).0.peers, token)
  {
    hide EncodePicture, PixelFormats.Supports;
  }

  lemma ApplicationPast(h: Host, c: Option<Frames.Frame>, v: Viewport, suppress: bool, between: seq<PeerAction>,
                        accepts: bool, token: nat)
    requires token < |h.peers.hellos| && !IsCurrent(h.peers, token)
    ensures Past(h.peers, SendApplicationLocked(h, c, v, suppress, between, accepts).0.peers, token)
  {
    assert Past(h.peers, h.peers, token);
    hide Past, SendLocked;
    ActAllPast(h.peers, between, token);
    var g := h.(peers := ActAll(h.peers, between));
    PastMeans(h.peers, g.peers, token);
    SendPast(g, Frames.Mono1, None, c, Application(v), accepts, token);
    PastAll(h.peers, g.peers, SendLocked(g, Frames.Mono1, None, c, Application(v), accepts).0.peers, token);
  }

  lemma ChosenPast(h: Host, c: Option<Frames.Frame>, frame: Authoritative, between: seq<PeerAction>, accepts: bool,
                   token: nat)
    requires token < |h.peers.hellos| && !IsCurrent(h.peers, token)
    ensures Past(h.peers, SendChosen(h, c, frame, between, accepts).0.peers, token)
  {
    if frame.Application? {
      hide Past, SendApplicationLocked;
      ApplicationPast(h, c, frame.viewport, false, between, accepts, token);
    } else {
      hide Past, SendLocked;
      ActAllPast(h.peers, between, token);
      var g := h.(peers := ActAll(h.peers, between));
      PastMeans(h.peers, g.peers, token);
      var picture := match frame
        case Diagnostic(d) => d.picture
        case Jpeg(f) => Some(f)
        case NowPlaying(f) => Some(f);
      SendPast(g, FormatOf(frame), None, picture, frame, accepts, token);
      PastAll(h.peers, g.peers, SendLocked(g, FormatOf(frame), None, picture, frame, accepts).0.peers, token);
    }
  }

  lemma ApplyPast(h: Host, op: Op, token: nat)
    requires token < |h.peers.hellos| && !IsCurrent(h.peers, token)
    ensures Past(h.peers, Apply(h, op).peers, token)
  {
    match op {
      case Peer(a) =>
      case OpDiagnostic(d, accepts) =>
        hide Past, SendLocked;
        SendPast(h, d.format, None, d.picture, Diagnostic(d), accepts, token);
      case OpGray(f, now, target, accepts) =>
        hide Past, SendLocked;
        SendPast(h, Frames.Gray8, Some(target), Some(f), GrayAuthoritative(now, f), accepts, token);
      case OpApplication(c, v, between, accepts) =>
        hide Past, SendApplicationLocked;
        ApplicationPast(h, c, v, true, between, accepts, token);
      case OpViewport(c, v, between, accepts) =>
        hide Past, SendApplicationLocked;
        ApplicationPast(h.(baseline := None), c, v, false, between, accepts, token);
      case OpHello(c, v, formats, between, accepts) =>
        hide Past, SendChosen;
        var retained := Retained(h, v, formats);
        ChosenPast(h, c, if retained.Some? then retained.value else Application(v), between, accepts, token);
    }
  }

  /** Nothing more is written to a generation that is no longer current; a failed write ends its generation, so
      a message cut short is the last thing its peer gets. */
  lemma {:induction false} GoneStaysSilent(h: Host, ops: seq<Op>, u: Host, token: nat)
    requires Leads(h, ops, u) && token < |h.peers.hellos| && !IsCurrent(h.peers, token)
    ensures Past(h.peers, u.peers, token)
    decreases |ops|
  {
    if ops != [] {
      var g := Apply(h, ops[0]);
      ApplyPast(h, ops[0], token);
      hide Apply, Past, Proper;
      PastMeans(h.peers, g.peers, token);
      GoneStaysSilent(g, ops[1..], u, token);
      PastAll(h.peers, g.peers, u.peers, token);
    }
  }

  // ---------- Hellos and the input gate ----------

  /** A chosen frame that is sent is recorded. */
  lemma ChosenRecorded(h: Host, c: Option<Frames.Frame>, frame: Authoritative, between: seq<PeerAction>, accepts: bool,
                       u: Host, s: SentFrame)
    requires SendChosen(h, c, frame, between, accepts) == (u, Ok(Some(s)))
    ensures |u.sent| == |h.sent| + 1 && u.authoritative == Some(frame)
    ensures s.frameId == h.nextFrameId && s.applicationViewport == ApplicationViewport(frame)
  {
    hide EncodePicture, Forward, ActAll;
  }

  /** It goes to the peer connected when the send begins, in a format that peer's Hello advertised. */
  lemma ChosenWritten(h: Host, c: Option<Frames.Frame>, frame: Authoritative, between: seq<PeerAction>, accepts: bool,
                      u: Host, s: SentFrame)
    requires SendChosen(h, c, frame, between, accepts) == (u, Ok(Some(s)))
    ensures var p := ActAll(h.peers, between);
            && p.active.Some? && p.active.value.formats.Supports(FormatOf(frame))
            && |u.peers.wire| == |p.wire| + 1 && u.peers.wire[|p.wire|].peer == p.active.value
  {
    hide ActAll, EncodePicture, PixelFormats.Supports, Dimensions;
  }

  /** The picture a Hello is answered with: the retained one, or what the application draws now. */
  function HelloPicture(h: Host, c: Option<Frames.Frame>, v: Viewport, formats: PixelFormats): Option<Frames.Frame> {
    match Retained(h, v, formats)
    case Some(Diagnostic(d)) => d.picture
    case Some(Jpeg(f)) => Some(f)
    case Some(NowPlaying(f)) => Some(f)
    case _ => c
  }

  /** What it is recorded as. */
  function HelloRecord(h: Host, v: Viewport, formats: PixelFormats): Authoritative {
    if Retained(h, v, formats).Some? then Retained(h, v, formats).value else Application(v)
  }

  /** The answer to a Hello on a live connection is that picture, sent as any other over the connection there is
      by then. */
  lemma HelloIsASend(h: Host, c: Option<Frames.Frame>, v: Viewport, formats: PixelFormats, between: seq<PeerAction>,
                     accepts: bool)
    requires h.peers.active.Some?
    ensures var a := HelloRecord(h, v, formats);
            var g := h.(peers := ActAll(h.peers, between));
            var (u, r) := SendForHello(h, c, v, formats, between, accepts);
            var (u', r') := SendLocked(g, FormatOf(a), None, HelloPicture(h, c, v, formats), a, accepts);
            if c.None? && a.Application? then u == h && r == Err(RenderFailed)
            else
              && r == (match r'
                       case Err(e) => Err(e)
                       case Ok(None) => Ok(None)
                       case Ok(Some(s)) => Ok(Some(HelloFrame(s, Retained(h, v, formats).Some?, a))))
              && u == if r'.Ok? && r'.value.Some? && a.Application? then u'.(baseline := c) else u'
  {
    assert EncodePicture(h.nextFrameId, None) == None;
    hide Forward, PixelFormats.Supports, EncodePicture, ActAll;
  }

  /** A Hello answered with a frame is answered with one of its own size, written whole to the peer connected at
      that moment in a format that peer's Hello advertised; the record is what was written, and the input gate
      opens only for the application's own frame. */
  lemma HelloIsServed(h: Host, c: Option<Frames.Frame>, v: Viewport, formats: PixelFormats, between: seq<PeerAction>,
                      accepts: bool, u: Host, reply: HelloFrame)
    requires HostInv(h) && Good(c, v, Frames.Mono1)
    ensures SendForHello(h, c, v, formats, between, accepts) == (u, Ok(Some(reply))) ==>
              && |u.sent| == |h.sent| + 1 == |u.peers.wire| && reply.sent.frameId == |u.sent|
              && FrameSize(u.sent[|h.sent|]) == v
              && (var w := u.peers.wire[|h.sent|];
                  && ActAll(h.peers, between).active == Some(w.peer)
                  && w.peer.formats.Supports(u.sent[|h.sent|].format)
                  && EncodePicture(|u.sent|, Some(u.sent[|h.sent|])) == Some(w.bytes))
              && u.authoritative == Some(reply.frame)
              && reply.sent.applicationViewport == if reply.frame == Application(v) then Some(v) else None
  {
    hide SendChosen, PeersInv, Good, PixelFormats.Supports, ActAll, EncodePicture;
    if SendForHello(h, c, v, formats, between, accepts) == (u, Ok(Some(reply))) {
      var frame := HelloRecord(h, v, formats);
      ChosenKeepsInv(h, c, frame, between, accepts);
      ChosenRecorded(h, c, frame, between, accepts, u, reply.sent);
      ChosenWritten(h, c, frame, between, accepts, u, reply.sent);
      ActAllKeepsInv(h.peers, between);
      assert SenderInv(u) && SenderInv(h);
      assert Numbered(u, |h.sent|);
      hide SenderInv, BaselineInv;
      DescribedIsGood(frame, u.sent[|h.sent|]);
    }
  }

  /** The accept loop's own case: it installs a connection for a Hello and answers at once, nobody else touching
      the slot, so the connection is still the Hello's, unless a failed write has ended it. An answer goes out
      exactly when the picture can be had, encoded under a fresh identifier and written, and is in a format the
      Hello advertised. It goes to that very connection, in the Hello's size, and the device reads it back. */
  lemma HelloReachesItsPeer(h: Host, c: Option<Frames.Frame>, v: Viewport, formats: PixelFormats, token: nat,
                            accepts: bool, t: Target)
    requires HostInv(h) && Good(c, v, Frames.Mono1)
    requires h.peers.active.Some? ==> h.peers.active == Some(Active(token, formats, Some(v)))
    ensures var (u, r) := SendForHello(h, c, v, formats, [], accepts);
            && (r.Ok? && r.value.Some? <==>
                  && h.peers.active.Some? && accepts && h.nextFrameId < U64_MAX
                  && (Retained(h, v, formats).Some? || formats.Supports(Frames.Mono1))
                  && EncodePicture(h.nextFrameId, HelloPicture(h, c, v, formats)).Some?)
            && (r.Ok? && r.value.Some? ==>
                  && |u.sent| == |h.sent| + 1 == |u.peers.wire|
                  && Some(u.sent[|h.sent|]) == HelloPicture(h, c, v, formats)
                  && FrameSize(u.sent[|h.sent|]) == v && formats.Supports(u.sent[|h.sent|].format)
                  && u.peers.wire[|h.sent|].peer == Active(token, formats, Some(v))
                  && FrameOutcome(t, u.peers.wire[|h.sent|].bytes)
                     == Ok(ReceivedFrame(|u.sent|, u.sent[|h.sent|], u.peers.wire[|h.sent|].bytes)))
  {
    assert EncodePicture(h.nextFrameId, None) == None;
    hide FrameOutcome, EncodePicture, PixelFormats.Supports;
    var a, picture := HelloRecord(h, v, formats), HelloPicture(h, c, v, formats);
    var (u, r) := SendForHello(h, c, v, formats, [], accepts);
    if h.peers.active.Some? {
      assert h.(peers := ActAll(h.peers, [])) == h;
      HelloIsASend(h, c, v, formats, [], accepts);
      SendExactly(h, FormatOf(a), None, picture, a, accepts);
      if r.Ok? && r.value.Some? {
        HelloIsServed(h, c, v, formats, [], accepts, u, r.value.value);
        ReadBack(t, |u.sent|, u.sent[|h.sent|], u.peers.wire[|h.sent|].bytes);
      }
    }
  }

  /** What was shown last is shown again exactly when it fits the Hello: the same picture, unless it was the
      application's, which is drawn afresh. */
  lemma HelloRetains(h: Host, c: Option<Frames.Frame>, v: Viewport, formats: PixelFormats, between: seq<PeerAction>,
                     accepts: bool, u: Host, reply: HelloFrame)
    requires HostInv(h) && Good(c, v, Frames.Mono1)
    ensures SendForHello(h, c, v, formats, between, accepts) == (u, Ok(Some(reply))) ==>
              && (reply.retained <==>
                    && h.sent != [] && FrameSize(h.sent[|h.sent| - 1]) == v
                    && formats.Supports(h.sent[|h.sent| - 1].format))
              && |u.sent| == |h.sent| + 1
              && (reply.retained && !reply.frame.Application? ==> u.sent[|h.sent|] == h.sent[|h.sent| - 1])
              && (reply.frame.Application? ==> c == Some(u.sent[|h.sent|]))
  {
    hide SendChosen, PeersInv, Good, PixelFormats.Supports, Frames.Valid;
    assert SenderInv(h);
    if h.sent != [] {
      DescribedIsGood(h.authoritative.value, h.sent[|h.sent| - 1]);
    }
    if SendForHello(h, c, v, formats, between, accepts) == (u, Ok(Some(reply))) {
      var frame := HelloRecord(h, v, formats);
      ChosenKeepsInv(h, c, frame, between, accepts);
      ChosenRecorded(h, c, frame, between, accepts, u, reply.sent);
      if frame.Application? {
        ChosenCandidate(h, c, frame, between, accepts, u, reply.sent);
      } else {
        hide Describes;
        DescribedPicture(frame, h.sent[|h.sent| - 1]);
        DescribedPicture(frame, u.sent[|h.sent|]);
      }
    }
  }

  lemma ChosenCandidate(h: Host, c: Option<Frames.Frame>, frame: Authoritative, between: seq<PeerAction>, accepts: bool,
                        u: Host, s: SentFrame)
    requires SendChosen(h, c, frame, between, accepts) == (u, Ok(Some(s))) && frame.Application?
    ensures |u.sent| == |h.sent| + 1 && c == Some(u.sent[|h.sent|])
  {
    hide EncodePicture, Forward, ActAll;
  }

  /** How a picture that has to be sent fares, whatever others do to the connection between the look at it and the
      write: `p` is the connection then. */
  function Fate(h: Host, p: Peers, c: Option<Frames.Frame>, accepts: bool): Result<bool, SendError> {
    if c.None? then Err(RenderFailed)
    else if h.peers.active.None? then Ok(false)
    else if h.nextFrameId == U64_MAX then Err(FrameIdExhausted)
    else if EncodePicture(h.nextFrameId, c).None? then Err(EncodeFailed)
    else if p.active.None? then Ok(false)
    else if !p.active.value.formats.Supports(Frames.Mono1) then Err(FormatUnsupported(Frames.Mono1))
    else if !accepts then Err(WriteFailed)
    else Ok(true)
  }

  /** What a delivered application picture leaves behind: one more write, of this picture under the next
      identifier, to the peer connected at the time; and it is the new baseline. */
  ghost predicate WrittenAndKept(h: Host, p: Peers, c: Frames.Frame, v: Viewport, u: Host, s: SentFrame) {
    && p.active.Some? && EncodePicture(h.nextFrameId, Some(c)).Some? && h.nextFrameId < U64_MAX
    && s == SentFrame(h.nextFrameId, |EncodePicture(h.nextFrameId, Some(c)).value|, Some(v))
    && u.peers == p.(wire := p.wire + [Written(p.active.value, Frames.Mono1, None,
                                               EncodePicture(h.nextFrameId, Some(c)).value)])
    && u.sent == h.sent + [c] && u.nextFrameId == h.nextFrameId + 1
    && u.baseline == Some(c) && u.authoritative == Some(Application(v))
  }

  /** A picture that is not the last one written is never held back: it is sent whenever it can be, and otherwise
      the reason is the one that applies first. */
  lemma ChangedIsSent(h: Host, c: Option<Frames.Frame>, v: Viewport, suppress: bool, between: seq<PeerAction>,
                      accepts: bool)
    requires HostInv(h)
    requires h.sent == [] || c != Some(h.sent[|h.sent| - 1])
    ensures var (u, r) := SendApplicationLocked(h, c, v, suppress, between, accepts);
            var p := ActAll(h.peers, between);
            match Fate(h, p, c, accepts)
            case Err(e) => r == Err(e)
            case Ok(false) => r == Ok(NotConnected)
            case Ok(true) => r.Ok? && r.value.Delivered? && WrittenAndKept(h, p, c.value, v, u, r.value.sent)
  {
    hide EncodePicture, PeersInv, SenderInv, ActAll, PixelFormats.Supports;
  }

  /** A viewport change holds nothing back at all, not even the picture written last. */
  lemma ViewportReplaced(h: Host, c: Option<Frames.Frame>, v: Viewport, between: seq<PeerAction>, accepts: bool)
    ensures var (u, r) := SendForViewportChange(h, c, v, between, accepts);
            var p := ActAll(h.peers, between);
            match Fate(h, p, c, accepts)
            case Err(e) => r == Err(e)
            case Ok(false) => r == Ok(None)
            case Ok(true) => r.Ok? && r.value.Some? && WrittenAndKept(h, p, c.value, v, u, r.value.value)
  {
    hide EncodePicture, ActAll, PixelFormats.Supports;
  }

  /** Suppression does its work: the frame just delivered is not written again while a peer is connected. */
  lemma DeliveredIsNotRepeated(h: Host, c: Option<Frames.Frame>, v: Viewport, suppress: bool, between: seq<PeerAction>,
                               accepts: bool, between': seq<PeerAction>, accepts': bool)
    ensures var (u, r) := SendApplicationLocked(h, c, v, suppress, between, accepts);
            r.Ok? && r.value.Delivered? ==>
              u.peers.active.Some? && SendApplicationLocked(u, c, v, true, between', accepts') == (u, Ok(Unchanged))
  {
    hide EncodePicture, ActAll, PixelFormats.Supports;
    if c.Some? && h.peers.active.Some? {
      SendExactly(h.(peers := ActAll(h.peers, between)), Frames.Mono1, None, c, Application(v), accepts);
    }
    hide SendLocked;
  }
}
