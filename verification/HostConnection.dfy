/** The host's current device connection and what may be written to it
    (tools/paperspoon/src/server.rs). Connection generations are numbered as they are installed. */
module HostConnection {
  import opened Machine
  import opened WirePayload
  import Frames

  datatype Active = Active(token: nat, formats: PixelFormats, viewport: Option<Viewport>)

  datatype FrameTarget = FrameTarget(token: nat, viewport: Viewport)

  datatype FrameTargetError = NoTarget | TargetUnsupported | ViewportUnavailable

  datatype FrameForward = Sent | NoConnection | UnsupportedPixelFormat | ConnectionChanged | ViewportChanged

  datatype WriteError = WriteError

  /** One complete write, with the connection it went to as it was at that moment. */
  datatype Written = Written(peer: Active, format: Frames.PixelFormat, target: Option<FrameTarget>, bytes: seq<byte>)

  /** The slot, and its history: what each generation's Hello advertised, the generations a failed write cut
      off mid-message, and every complete write in order. */
  datatype Peers = Peers(active: Option<Active>, hellos: seq<PixelFormats>, broken: set<nat>, wire: seq<Written>)

  /** What other threads do to the slot. */
  datatype PeerAction =
    | Install(formats: PixelFormats, viewport: Option<Viewport>)
    | UpdateViewport(token: nat, reported: Viewport)
    | Clear(token: nat)

  function NoPeers(): Peers {
    Peers(None, [], {}, [])
  }

  predicate IsCurrent(p: Peers, token: nat) {
    p.active.Some? && p.active.value.token == token
  }

  function Act(p: Peers, a: PeerAction): Peers {
    match a
    case Install(formats, viewport) =>
      p.(active := Some(Active(|p.hellos|, formats, viewport)), hellos := p.hellos + [formats])
    case UpdateViewport(token, viewport) =>
      if IsCurrent(p, token) then p.(active := Some(p.active.value.(viewport := Some(viewport)))) else p
    case Clear(token) => if IsCurrent(p, token) then p.(active := None) else p
  }

  function ActAll(p: Peers, actions: seq<PeerAction>): Peers
    decreases |actions|
  {
    if actions == [] then p else ActAll(Act(p, actions[0]), actions[1..])
  }

  function TargetOf(p: Peers, format: Frames.PixelFormat): Result<FrameTarget, FrameTargetError> {
    match p.active
    case None => Err(NoTarget)
    case Some(a) =>
      if !a.formats.Supports(format) then Err(TargetUnsupported)
      else if a.viewport.None? then Err(ViewportUnavailable)
      else Ok(FrameTarget(a.token, a.viewport.value))
  }

  /** `forward_frame_inner`; `accepts` is what the socket says to the write. */
  function Forward(p: Peers, bytes: seq<byte>, format: Frames.PixelFormat, target: Option<FrameTarget>, accepts: bool)
    : (Peers, Result<FrameForward, WriteError>)
  {
    match p.active
    case None => (p, Ok(NoConnection))
    case Some(a) =>
      if target.Some? && a.token != target.value.token then (p, Ok(ConnectionChanged))
      else if target.Some? && a.viewport != Some(target.value.viewport) then (p, Ok(ViewportChanged))
      else if !a.formats.Supports(format) then (p, Ok(FrameForward.UnsupportedPixelFormat))
      else if !accepts then (p.(active := None, broken := p.broken + {a.token}), Err(WriteError))
      else (p.(wire := p.wire + [Written(a, format, target, bytes)]), Ok(Sent))
  }

  /** What becomes of a frame that nothing stops: written, or lost with its connection. */
  function Delivery(accepts: bool): Result<FrameForward, WriteError> {
    if accepts then Ok(Sent) else Err(WriteError)
  }

  /** A target is what a frame of its format needs: forwarding with it is stopped by nothing, and of all targets
      it is the only one. Where there is none, an untargeted frame is stopped for the reason given, or the peer
      has yet to report a viewport. */
  lemma TargetForwards(p: Peers, format: Frames.PixelFormat, t: FrameTarget, bytes: seq<byte>, accepts: bool)
    ensures TargetOf(p, format) == Ok(t) <==> Forward(p, bytes, format, Some(t), accepts).1 == Delivery(accepts)
    ensures TargetOf(p, format) == Err(NoTarget) <==> Forward(p, bytes, format, None, accepts).1 == Ok(NoConnection)
    ensures TargetOf(p, format) == Err(TargetUnsupported) <==>
            Forward(p, bytes, format, None, accepts).1 == Ok(FrameForward.UnsupportedPixelFormat)
    ensures TargetOf(p, format) == Err(ViewportUnavailable) <==>
            Forward(p, bytes, format, None, accepts).1 == Delivery(accepts) && p.active.value.viewport.None?
  {
    hide PixelFormats.Supports;
  }

  class CurrentConnection {
    var inner: Option<Active>
    var hellos: seq<PixelFormats>
    ghost var broken: set<nat>
    ghost var wire: seq<Written>

    ghost function View(): Peers
      reads this
    {
      Peers(inner, hellos, broken, wire)
    }

    constructor ()
      ensures View() == NoPeers()
    {
      inner, hellos, broken, wire := None, [], {}, [];
    }

    predicate IsActive()
      reads this
    {
      inner.Some?
    }

    method InstallForHello(formats: PixelFormats, viewport: Option<Viewport>) returns (token: nat)
      modifies this
      ensures View() == Act(old(View()), Install(formats, viewport))
      ensures inner == Some(Active(token, formats, viewport)) && token == old(|hellos|)
    {
      token := |hellos|;
      inner, hellos := Some(Active(token, formats, viewport)), hellos + [formats];
    }

    method TakeFrameTarget(format: Frames.PixelFormat) returns (r: Result<FrameTarget, FrameTargetError>)
      ensures r == TargetOf(View(), format)
    {
      if inner.None? {
        return Err(NoTarget);
      }
      if !inner.value.formats.Supports(format) {
        return Err(TargetUnsupported);
      }
      if inner.value.viewport.None? {
        return Err(ViewportUnavailable);
      }
      r := Ok(FrameTarget(inner.value.token, inner.value.viewport.value));
    }

    method ForwardFrame(bytes: seq<byte>, format: Frames.PixelFormat, target: Option<FrameTarget>, accepts: bool)
      returns (r: Result<FrameForward, WriteError>)
      modifies this
      ensures (View(), r) == Forward(old(View()), bytes, format, target, accepts)
    {
      if inner.None? {
        return Ok(NoConnection);
      }
      var active := inner.value;
      if target.Some? {
        if active.token != target.value.token {
          return Ok(ConnectionChanged);
        }
        if active.viewport != Some(target.value.viewport) {
          return Ok(ViewportChanged);
        }
      }
      if !active.formats.Supports(format) {
        return Ok(FrameForward.UnsupportedPixelFormat);
      }
      if !accepts {
        inner := None;
        broken := broken + {active.token};
        return Err(WriteError);
      }
      wire := wire + [Written(active, format, target, bytes)];
      r := Ok(Sent);
    }

    method UpdateViewportIfCurrent(candidate: nat, viewport: Viewport) returns (updated: bool)
      modifies this
      ensures View() == Act(old(View()), UpdateViewport(candidate, viewport))
      ensures updated <==> IsCurrent(old(View()), candidate)
    {
      if inner.None? || inner.value.token != candidate {
        return false;
      }
      inner := Some(inner.value.(viewport := Some(viewport)));
      updated := true;
    }

    method ClearIfCurrent(candidate: nat) returns (cleared: bool)
      modifies this
      ensures View() == Act(old(View()), Clear(candidate))
      ensures cleared <==> IsCurrent(old(View()), candidate)
    {
      if inner.None? || inner.value.token != candidate {
        return false;
      }
      inner := None;
      cleared := true;
    }

    /** What other threads do while a sender holds its own lock but not this one. */
    method Interleave(actions: seq<PeerAction>)
      modifies this
      decreases |actions|
      ensures View() == ActAll(old(View()), actions)
    {
      if actions != [] {
        match actions[0] {
          case Install(formats, viewport) => var _ := InstallForHello(formats, viewport);
          case UpdateViewport(token, viewport) => var _ := UpdateViewportIfCurrent(token, viewport);
          case Clear(token) => var _ := ClearIfCurrent(token);
        }
        Interleave(actions[1..]);
      }
    }
  }

  // ---------- What every history keeps ----------

  /** The active connection is the newest generation, not one that failed. */
  ghost predicate PeersInv(p: Peers) {
    && (p.active.Some? ==>
          && |p.hellos| == p.active.value.token + 1
          && p.hellos[p.active.value.token] == p.active.value.formats
          && p.active.value.token !in p.broken)
    && (forall t :: t in p.broken ==> t < |p.hellos|)
    && (forall w :: w in p.wire ==> Sound(p, w))
    && InOrder(p.wire)
  }

  /** A frame went out in a format its peer's Hello advertised; one meant for a particular target went to that
      generation, while it had that viewport. */
  ghost predicate Sound(p: Peers, w: Written) {
    && w.peer.token < |p.hellos| && p.hellos[w.peer.token] == w.peer.formats
    && w.peer.formats.Supports(w.format)
    && (w.target.Some? ==> w.target.value.token == w.peer.token && w.peer.viewport == Some(w.target.value.viewport))
    && (p.active.Some? ==> w.peer.token <= p.active.value.token)
  }

  /** Generations are written to in the order they were installed. */
  ghost predicate InOrder(wire: seq<Written>) {
    forall i, j :: 0 <= i <= j < |wire| ==> wire[i].peer.token <= wire[j].peer.token
  }

  lemma ActKeepsInv(p: Peers, a: PeerAction)
    requires PeersInv(p)
    ensures PeersInv(Act(p, a)) && Act(p, a).wire == p.wire && |Act(p, a).hellos| >= |p.hellos|
  {
  }

  lemma {:induction false} ActAllKeepsInv(p: Peers, actions: seq<PeerAction>)
    requires PeersInv(p)
    ensures PeersInv(ActAll(p, actions)) && ActAll(p, actions).wire == p.wire
    decreases |actions|
  {
    if actions != [] {
      ActKeepsInv(p, actions[0]);
      hide PeersInv, Act;
      ActAllKeepsInv(Act(p, actions[0]), actions[1..]);
    }
  }

  lemma ForwardKeepsInv(p: Peers, bytes: seq<byte>, format: Frames.PixelFormat, target: Option<FrameTarget>,
                        accepts: bool)
    requires PeersInv(p)
    ensures PeersInv(Forward(p, bytes, format, target, accepts).0)
  {
    assert forall i :: 0 <= i < |p.wire| ==> p.wire[i] in p.wire && Sound(p, p.wire[i]);
  }
}
