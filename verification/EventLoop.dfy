/** The device's event loop over the mailbox and the display (src/x11/events.rs), with frames arriving from
    the reader thread between any two of its steps. */
module EventLoop {
  import opened Machine
  import opened Screen
  import M = Mailbox

  /** Between which two of its own steps the loop is. */
  datatype Phase =
    | Looping
    | Polled(received: M.Received, taken: nat)
    | Resizing(size: (u16, u16))

  /** `cached` is the frame behind the display's cache; `ops` is what has happened to the mailbox. */
  datatype Loop = Loop(
    mailbox: M.Contents,
    dimensions: (u16, u16),
    cached: Option<M.Received>,
    phase: Phase,
    ops: seq<M.Op>)

  datatype Action =
    | Arrives(received: M.Received)
    | Poll
    | Show(uploaded: bool)
    | Configure(size: (u16, u16))
    | SetDimensions

  function Start(size: (u16, u16)): Loop {
    Loop(M.Contents(RemoteViewportSize(size), None), size, None, Looping, [])
  }

  function Mail(s: Loop, op: M.Op): Loop {
    s.(mailbox := M.Step(s.mailbox, op), ops := s.ops + [op])
  }

  function Next(s: Loop, a: Action): Option<Loop> {
    match a
    case Arrives(r) => Some(Mail(s, M.Arrive(r)))
    case Poll =>
      if !s.phase.Looping? then None
      else
        var next := Mail(s, M.Take);
        Some(if s.mailbox.pending.Some? then next.(phase := Polled(s.mailbox.pending.value, |s.ops|)) else next)
    case Show(uploaded) =>
      if !s.phase.Polled? then None
      else Some(s.(phase := Looping, cached := if uploaded then Some(s.phase.received) else s.cached))
    case Configure(size) =>
      // `update_geometry` lets only nonzero changes through; `send_viewport_changed` is first.
      if !s.phase.Looping? || size.0 == 0 || size.1 == 0 || size == s.dimensions then None
      else Some(Mail(s, M.Resize(RemoteViewportSize(size))).(phase := Resizing(size)))
    case SetDimensions =>
      if !s.phase.Resizing? then None
      else
        var viewport := RemoteViewportSize(s.phase.size);
        Some(s.(phase := Looping, dimensions := s.phase.size,
                cached := if s.cached.Some? && s.cached.value.Size() != viewport then None else s.cached))
  }

  ghost predicate Reaches(s: Loop, run: seq<Action>, u: Loop)
    decreases |run|
  {
    if run == [] then u == s
    else Next(s, run[0]).Some? && Reaches(Next(s, run[0]).value, run[1..], u)
  }

  // ---------- The invariant ----------

  /** The viewport the loop has last told the mailbox. */
  function Told(s: Loop): (u16, u16) {
    RemoteViewportSize(if s.phase.Resizing? then s.phase.size else s.dimensions)
  }

  ghost predicate Inv(start: (u16, u16), s: Loop) {
    && s.mailbox == M.After(start, s.ops, |s.ops|)
    && s.mailbox.viewport == Told(s)
    && (s.mailbox.pending.Some? ==> s.mailbox.pending.value.Size() == s.mailbox.viewport)
    && (s.cached.Some? ==> s.cached.value.Size() == RemoteViewportSize(s.dimensions))
    && (s.phase.Polled? ==>
          && s.phase.received.Size() == RemoteViewportSize(s.dimensions)
          && s.phase.taken < |s.ops| && s.ops[s.phase.taken] == M.Take
          && M.After(start, s.ops, s.phase.taken).pending == Some(s.phase.received))
  }

  /** A mailbox history is not changed by what comes later. */
  lemma {:induction false} AfterPrefix(start: (u16, u16), ops: seq<M.Op>, op: M.Op, n: nat)
    requires n <= |ops|
    ensures M.After(start, ops + [op], n) == M.After(start, ops, n)
    decreases n
  {
    if n > 0 {
      AfterPrefix(start, ops, op, n - 1);
    }
  }

  lemma MailKeepsHistory(start: (u16, u16), s: Loop, op: M.Op)
    requires s.mailbox == M.After(start, s.ops, |s.ops|)
    ensures Mail(s, op).mailbox == M.After(start, Mail(s, op).ops, |Mail(s, op).ops|)
    ensures forall n: nat :: n <= |s.ops| ==> M.After(start, Mail(s, op).ops, n) == M.After(start, s.ops, n)
  {
    forall n: nat | n <= |s.ops|
      ensures M.After(start, s.ops + [op], n) == M.After(start, s.ops, n)
    {
      AfterPrefix(start, s.ops, op, n);
    }
  }

  lemma NextKeepsInv(start: (u16, u16), s: Loop, a: Action)
    requires Inv(start, s) && Next(s, a).Some?
    ensures Inv(start, Next(s, a).value)
  {
    hide RemoteViewportSize, M.After;
    match a {
      case Arrives(r) => MailKeepsHistory(start, s, M.Arrive(r));
      case Poll => MailKeepsHistory(start, s, M.Take);
      case Configure(size) => MailKeepsHistory(start, s, M.Resize(RemoteViewportSize(size)));
      case Show(_) =>
      case SetDimensions =>
    }
  }

  lemma {:induction false} RunKeepsInv(start: (u16, u16), s: Loop, run: seq<Action>, u: Loop)
    requires Inv(start, s) && Reaches(s, run, u)
    ensures Inv(start, u)
    decreases |run|
  {
    if run != [] {
      hide Inv, Next;
      NextKeepsInv(start, s, run[0]);
      RunKeepsInv(start, Next(s, run[0]).value, run[1..], u);
    }
  }

  /** In every run: a pending frame fits the mailbox; a frame about to be shown, and the frame in the cache, fit
      the viewport of the display's current dimensions, so no row of them is out of coordinate range; and a frame
      about to be shown was, when taken, the latest fitting arrival since the take before. */
  lemma EveryRun(size: (u16, u16), run: seq<Action>, s: Loop)
    requires Reaches(Start(size), run, s)
    ensures s.mailbox.pending.Some? ==> s.mailbox.pending.value.Size() == s.mailbox.viewport == Told(s)
    ensures s.cached.Some? ==> s.cached.value.Size() == RemoteViewportSize(s.dimensions)
    ensures s.phase.Polled? ==>
      && s.phase.received.Size() == RemoteViewportSize(s.dimensions)
      && s.phase.taken < |s.ops| && s.ops[s.phase.taken] == M.Take
      && M.Latest(RemoteViewportSize(size), s.ops, s.phase.taken, s.phase.received)
    ensures RemoteViewportSize(s.dimensions).1 <= I16_MAX - SYSTEM_UI_HEIGHT
  {
    var start := RemoteViewportSize(size);
    RunKeepsInv(start, Start(size), run, s);
    if s.phase.Polled? {
      M.PendingIsLatest(start, s.ops, s.phase.taken, s.phase.received);
    }
    hide Reaches, M.After, M.Latest;
  }
}
