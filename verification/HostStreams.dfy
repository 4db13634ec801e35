/** What a device reads of everything the host wrote to it (tools/paperspoon/src/main.rs, src/net/mod.rs
    `spawn_reader`). */
module HostStreams {
  import opened Machine
  import Frames
  import opened WirePayload
  import opened WireReader
  import opened HostConnection
  import opened HostSender
  import opened HostRuns

  /** The bytes of the complete writes to one generation. */
  function BytesTo(wire: seq<Written>, token: nat): seq<byte> {
    if wire == [] then []
    else
      var last := wire[|wire| - 1];
      BytesTo(wire[..|wire| - 1], token) + (if last.peer.token == token then last.bytes else [])
  }

  /** The frames they were, with the identifiers they were given. */
  function FramesTo(wire: seq<Written>, sent: seq<Frames.Frame>, token: nat): seq<ReceivedFrame>
    requires |wire| == |sent| <= U64_MAX
  {
    if wire == [] then []
    else
      var n := |wire| - 1;
      FramesTo(wire[..n], sent[..n], token)
      + (if wire[n].peer.token == token then [ReceivedFrame(n + 1, sent[n], wire[n].bytes)] else [])
  }

  /** Part of a frame message, but not all of it. */
  ghost predicate CutShort(tail: seq<byte>) {
    exists id: u64, f: Frames.Frame ::
      Frames.Valid(f) && EncodePicture(id, Some(f)).Some? && tail < EncodePicture(id, Some(f)).value
  }

  lemma {:induction false} BytesAppend(frames: seq<ReceivedFrame>, f: ReceivedFrame)
    ensures FrameBytes(frames + [f]) == FrameBytes(frames) + f.encoded
  {
    if frames == [] {
      assert [f][1..] == [] && [] + [f] == [f];
      assert FrameBytes([f]) == f.encoded + FrameBytes([]);
    } else {
      assert (frames + [f])[1..] == frames[1..] + [f];
      BytesAppend(frames[1..], f);
    }
  }

  /** Every write is read back by itself. */
  ghost predicate ReadBackAll(t: Target, wire: seq<Written>, sent: seq<Frames.Frame>)
    requires |wire| == |sent| <= U64_MAX
  {
    forall k :: 0 <= k < |wire| ==> FrameOutcome(t, wire[k].bytes) == Ok(ReceivedFrame(k + 1, sent[k], wire[k].bytes))
  }

  lemma {:induction false} FramesOfBytes(t: Target, wire: seq<Written>, sent: seq<Frames.Frame>, token: nat)
    requires |wire| == |sent| <= U64_MAX && ReadBackAll(t, wire, sent)
    ensures Readable(t, FramesTo(wire, sent, token))
    ensures FrameBytes(FramesTo(wire, sent, token)) == BytesTo(wire, token)
    decreases |wire|
  {
    hide FrameOutcome;
    if wire != [] {
      var n := |wire| - 1;
      FramesOfBytes(t, wire[..n], sent[..n], token);
      if wire[n].peer.token == token {
        BytesAppend(FramesTo(wire[..n], sent[..n], token), ReceivedFrame(n + 1, sent[n], wire[n].bytes));
      } else {
        assert FramesTo(wire, sent, token) == FramesTo(wire[..n], sent[..n], token);
      }
    }
  }

  /** End to end: in every history a device that reads its connection to the end, whatever went to others before,
      between and after, gets exactly the frames written to it, in order, each with its identifier and picture;
      then a clean end, or the notice that one more frame was cut short. */
  lemma DeviceReadsStream(start: Peers, ops: seq<Op>, u: Host, token: nat, t: Target, tail: seq<byte>)
    requires PeersInv(start) && start.wire == [] && Leads(NewHost(start), ops, u)
    requires tail == [] || CutShort(tail)
    ensures |u.peers.wire| == |u.sent| <= U64_MAX
    ensures FramesRead(t, BytesTo(u.peers.wire, token) + tail) ==
            (FramesTo(u.peers.wire, u.sent, token), if tail == [] then None else Some(UnexpectedEof))
  {
    hide Leads, PeersInv, FrameOutcome, EncodePicture, Frames.Valid, FramesRead;
    assert |u.peers.wire| == |u.sent| <= U64_MAX by {
      HistoryInv(start, ops, u);
      if u.peers.wire != [] {
        WritesAreNumbered(start, ops, u, |u.peers.wire| - 1, t);
      }
    }
    forall k | 0 <= k < |u.peers.wire|
      ensures FrameOutcome(t, u.peers.wire[k].bytes) == Ok(ReceivedFrame(k + 1, u.sent[k], u.peers.wire[k].bytes))
    {
      WritesAreNumbered(start, ops, u, k, t);
    }
    FramesOfBytes(t, u.peers.wire, u.sent, token);
    if tail != [] {
      CutShortWaits(t, tail);
    }
    FramesRoundTrip(t, FramesTo(u.peers.wire, u.sent, token), tail);
  }

  lemma CutShortWaits(t: Target, tail: seq<byte>)
    requires CutShort(tail)
    ensures ReadOutcome(tail) == Err(UnexpectedEof)
  {
    hide ReadOutcome, Frames.Valid;
    var id: u64, f: Frames.Frame :|
      Frames.Valid(f) && EncodePicture(id, Some(f)).Some? && tail < EncodePicture(id, Some(f)).value;
    EncodeFits(id, f);
    FragmentIncomplete(t, FrameOf(FramePayload(id, f)), tail);
  }
}
