/** The one-frame mailbox between the device's reader thread and its event loop (src/net/mod.rs). */
module Mailbox {
  import opened Machine
  import Frames

  datatype Received = Received(frameId: u64, frame: Frames.Frame)
  {
    function Size(): (u16, u16) {
      (frame.width, frame.height)
    }
  }

  datatype Contents = Contents(viewport: (u16, u16), pending: Option<Received>)

  datatype Op = Resize(viewport: (u16, u16)) | Arrive(received: Received) | Take

  function Step(c: Contents, op: Op): Contents {
    match op
    case Resize(v) => Contents(v, if c.pending.Some? && c.pending.value.Size() != v then None else c.pending)
    case Arrive(r) => if r.Size() == c.viewport then c.(pending := Some(r)) else c
    case Take => c.(pending := None)
  }

  /** `FrameMailbox`, each method one critical section. */
  class FrameMailbox {
    var contents: Contents

    constructor (viewport: (u16, u16))
      ensures contents == Contents(viewport, None)
    {
      contents := Contents(viewport, None);
    }

    method SetViewport(viewport: (u16, u16))
      modifies this
      ensures contents == Step(old(contents), Resize(viewport))
    {
      contents := contents.(viewport := viewport);
      if contents.pending.Some? && contents.pending.value.Size() != viewport {
        contents := contents.(pending := None);
      }
    }

    method Publish(r: Received) returns (accepted: bool)
      modifies this
      ensures contents == Step(old(contents), Arrive(r))
      ensures accepted <==> r.Size() == old(contents).viewport
    {
      if r.Size() != contents.viewport {
        return false;
      }
      contents := contents.(pending := Some(r));
      accepted := true;
    }

    method TakeFrame() returns (taken: Option<Received>)
      modifies this
      ensures contents == Step(old(contents), Take) && taken == old(contents).pending
    {
      taken := contents.pending;
      contents := contents.(pending := None);
    }
  }

  // ---------- Histories ----------

  function After(start: (u16, u16), ops: seq<Op>, n: nat): Contents
    requires n <= |ops|
  {
    if n == 0 then Contents(start, None) else Step(After(start, ops, n - 1), ops[n - 1])
  }

  /** Frame r arrived as operation i, fitted the viewport of that moment, and nothing since has taken it,
      replaced it or changed the viewport away from it. */
  ghost predicate Waiting(start: (u16, u16), ops: seq<Op>, i: nat, n: nat, r: Received)
    requires n <= |ops|
  {
    && i < n && ops[i] == Arrive(r) && Fits(start, ops, i)
    && forall j: nat :: i < j < n ==> !Displaces(start, ops, j, r)
  }

  /** Some frame is waiting, and it is r. */
  ghost predicate Latest(start: (u16, u16), ops: seq<Op>, n: nat, r: Received)
    requires n <= |ops|
  {
    exists i: nat :: Waiting(start, ops, i, n, r)
  }

  predicate Fits(start: (u16, u16), ops: seq<Op>, i: nat)
    requires i < |ops|
  {
    ops[i].Arrive? && ops[i].received.Size() == After(start, ops, i).viewport
  }

  predicate Displaces(start: (u16, u16), ops: seq<Op>, j: nat, r: Received)
    requires j < |ops|
  {
    || ops[j].Take?
    || (ops[j].Resize? && ops[j].viewport != r.Size())
    || Fits(start, ops, j)
  }

  /** A pending frame fits the mailbox's viewport, and it is the latest frame that arrived fitting since the last
      take and has fitted ever since. */
  lemma {:induction false} PendingIsLatest(start: (u16, u16), ops: seq<Op>, n: nat, r: Received)
    requires n <= |ops|
    ensures After(start, ops, n).pending == Some(r) ==> r.Size() == After(start, ops, n).viewport
    ensures After(start, ops, n).pending == Some(r) <==> Latest(start, ops, n, r)
    decreases n
  {
    if n > 0 {
      PendingIsLatest(start, ops, n - 1, r);
      if After(start, ops, n).pending == Some(r) {
        PendingWaits(start, ops, n, r);
      }
      if i: nat :| Waiting(start, ops, i, n, r) {
        WaitingPends(start, ops, i, n, r);
      }
    }
  }

  lemma PendingWaits(start: (u16, u16), ops: seq<Op>, n: nat, r: Received)
    requires 0 < n <= |ops| && After(start, ops, n).pending == Some(r)
    requires After(start, ops, n - 1).pending == Some(r) ==> Latest(start, ops, n - 1, r)
    ensures Latest(start, ops, n, r)
  {
    if Fits(start, ops, n - 1) {
      assert Waiting(start, ops, n - 1, n, r);
    } else {
      var i: nat :| Waiting(start, ops, i, n - 1, r);
      assert !Displaces(start, ops, n - 1, r);
      assert Waiting(start, ops, i, n, r);
    }
  }

  lemma WaitingPends(start: (u16, u16), ops: seq<Op>, i: nat, n: nat, r: Received)
    requires 0 < n <= |ops| && Waiting(start, ops, i, n, r)
    requires Latest(start, ops, n - 1, r) ==> After(start, ops, n - 1).pending == Some(r)
    ensures After(start, ops, n).pending == Some(r)
  {
    if i < n - 1 {
      assert Waiting(start, ops, i, n - 1, r);
      assert !Displaces(start, ops, n - 1, r);
    }
  }
}
