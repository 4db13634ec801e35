/** The device's transport as a state machine (src/net/mod.rs): main thread, writer, reader, reconnector
    and `Drop`, one action per lock region or channel operation, in any interleaving. Socket handles
    always clone; every other outcome is chosen by the action. */
module KindleNet {
  import opened Machine
  import opened Connection
  import opened WirePayload

  const OUTBOUND_QUEUE_CAPACITY: nat := 16

  /** A queued message. `at` and `stale` are history: the local viewport and the state of the session it
      is stamped with when it was queued. */
  datatype Outbound = Outbound(token: nat, payload: Payload, at: Viewport, stale: bool)

  /** What has been written to one stream: its Hello, whole messages, and at most one cut short. */
  datatype Stream = Stream(hello: Option<Viewport>, installed: bool, sent: seq<Outbound>, cut: Option<Outbound>)

  /** Where the main thread is. The first group is `send_viewport_changed`, then `send_pointer`, then `Drop`. */
  datatype Main =
    | Idle
    | ViewportSet(previous: Viewport)
    | MailboxSet
    | ViewportToken(token: nat)
    | QueueWasFull
    | PointerToken(token: nat, pointer: Pointer)
    | DropStopping
    | DropDisconnected
    | DropWoken
    | DropClosed
    | Dropped

  datatype Writer =
    | Receiving
    | Received(held: Outbound)
    | Checked(held: Outbound)
    | Cloned(held: Outbound)
    | WriteFailed(token: nat)
    | WriterExited

  datatype Reconnector =
    | NotStarted
    | Waiting
    | Joining
    | Joined
    | Cleared
    | Retrying
    | Connecting
    | Open(stream: nat)
    | ViewportRead(stream: nat, viewport: Viewport)
    | HelloWritten(stream: nat, viewport: Viewport)
    | ReconnectorExited

  datatype State = State(
    viewport: Viewport,
    link: Link,
    queue: seq<Outbound>,
    queueOpen: bool,
    stopping: bool,
    streams: seq<Stream>,
    main: Main,
    writer: Writer,
    reconnector: Reconnector,
    reader: Option<nat>,
    wakes: nat,
    // History: every message ever queued; those the writer is done with, written or discarded; sessions
    // whose Hello missed a viewport change; and whether no change has fallen between the reconnector's
    // viewport read and its install.
    log: seq<Outbound>,
    done: seq<Outbound>,
    stale: set<nat>,
    clean: bool)

  datatype Action =
    // main thread
    | Promote(helloWritten: bool)
    | SetViewport(viewport: Viewport)
    | SetMailbox
    | ReadViewportToken
    | EnqueueViewport
    | CloseAfterFull
    | BeginPointer(pointer: Pointer)
    | EnqueuePointer
    | StartDrop
    | DropDisconnect
    | DropWake
    | DropCloseQueue
    | DropJoin
    // writer thread
    | Receive
    | CheckStopping
    | CloneStream
    | Write(whole: bool)
    | DisconnectFailed
    | ChannelClosed
    // reader thread
    | ReaderEnds
    // reconnector thread
    | TakeWake
    | JoinReader
    | ClearSlot
    | CheckAfterClear
    | CheckRetry
    | Connect(connected: bool)
    | Configure(configured: bool)
    | WriteHello(written: bool)
    | Install

  function Initial(viewport: Viewport): State {
    State(viewport, Link(Disconnected, {}), [], true, false, [], Idle, Receiving, NotStarted, None, 0, [], [], {}, true)
  }

  // ---------- Steps ----------

  predicate Window(r: Reconnector) {
    r.ViewportRead? || r.HelloWritten?
  }

  /** Will the main thread still offer its current viewport to whatever connection it finds next? */
  predicate ChangePending(m: Main, viewport: Viewport) {
    (m.ViewportSet? && m.previous != viewport) || m.MailboxSet?
  }

  function NextMain(s: State, a: Action): Option<State> {
    match a
    case Promote(ok) =>
      // `promote_startup` runs on the main thread before any token read, while no worker exists.
      if !(s.reconnector.NotStarted? && (s.main.Idle? || s.main.MailboxSet?) && s.streams == []) then None
      else if ok then
        Some(s.(streams := [Stream(Some(s.viewport), true, [], None)], link := Reconnect(s.link, 0),
                reconnector := Waiting, reader := Some(0)))
      else Some(s.(streams := [Stream(None, false, [], None)]))
    case SetViewport(v) =>
      if !s.main.Idle? then None
      else Some(s.(viewport := v, main := ViewportSet(s.viewport),
                   clean := s.clean && !(v != s.viewport && Window(s.reconnector))))
    case SetMailbox =>
      if !s.main.ViewportSet? then None
      else Some(s.(main := if s.main.previous == s.viewport then Idle else MailboxSet))
    case ReadViewportToken =>
      if !s.main.MailboxSet? then None
      else (match CurrentToken(s.link)
        case None => Some(s.(main := Idle))
        case Some(token) => Some(s.(main := ViewportToken(token))))
    case EnqueueViewport =>
      if !s.main.ViewportToken? then None
      else if |s.queue| < OUTBOUND_QUEUE_CAPACITY then
        Some(Enqueued(s, Outbound(s.main.token, ViewportPayload(s.viewport), s.viewport, false))
             .(main := Idle, stale := s.stale - {s.main.token}))
      else Some(s.(main := QueueWasFull))
    case CloseAfterFull =>
      if !s.main.QueueWasFull? then None
      else Some(s.(main := Idle, link := Disconnect(s.link)))
    case BeginPointer(p) =>
      if !s.main.Idle? then None
      else (match CurrentToken(s.link)
        case None => Some(s)
        case Some(token) => Some(s.(main := PointerToken(token, p))))
    case EnqueuePointer =>
      if !s.main.PointerToken? then None
      else if |s.queue| < OUTBOUND_QUEUE_CAPACITY then
        Some(Enqueued(s, Outbound(s.main.token, PointerPayload(s.main.pointer), s.viewport, s.main.token in s.stale))
             .(main := Idle))
      else Some(s.(main := Idle))
    case StartDrop => if s.main.Idle? then Some(s.(main := DropStopping, stopping := true)) else None
    case DropDisconnect =>
      if s.main.DropStopping? then Some(s.(main := DropDisconnected, link := Disconnect(s.link))) else None
    case DropWake => if s.main.DropDisconnected? then Some(s.(main := DropWoken, wakes := s.wakes + 1)) else None
    case DropCloseQueue => if s.main.DropWoken? then Some(s.(main := DropClosed, queueOpen := false)) else None
    case DropJoin =>
      if s.main.DropClosed? && s.writer.WriterExited? && (s.reconnector.ReconnectorExited? || s.reconnector.NotStarted?)
      then Some(s.(main := Dropped)) else None
    case _ => None
  }

  /** A successful `try_send`. */
  function Enqueued(s: State, o: Outbound): State {
    s.(queue := s.queue + [o], log := s.log + [o])
  }

  function NextWriter(s: State, a: Action): Option<State> {
    match a
    case Receive =>
      if !(s.writer.Receiving? && s.queue != []) then None
      else Some(s.(writer := Received(s.queue[0]), queue := s.queue[1..]))
    case ChannelClosed =>
      if s.writer.Receiving? && s.queue == [] && !s.queueOpen then Some(s.(writer := WriterExited)) else None
    case CheckStopping =>
      if !s.writer.Received? then None
      else if s.stopping then Some(s.(writer := WriterExited, done := s.done + [s.writer.held]))
      else Some(s.(writer := Checked(s.writer.held)))
    case CloneStream =>
      if !s.writer.Checked? then None
      else if CurrentToken(s.link) == Some(s.writer.held.token) then Some(s.(writer := Cloned(s.writer.held)))
      else Some(s.(writer := Receiving, done := s.done + [s.writer.held]))
    case Write(whole) =>
      // A stream already shut down cannot take the whole message.
      if !s.writer.Cloned? || s.writer.held.token >= |s.streams| || (whole && s.writer.held.token in s.link.shut) then None
      else
        var t := s.writer.held.token;
        if whole then
          Some(s.(writer := Receiving, done := s.done + [s.writer.held],
                  streams := s.streams[t := s.streams[t].(sent := s.streams[t].sent + [s.writer.held])]))
        else
          Some(s.(writer := WriteFailed(t), done := s.done + [s.writer.held],
                  streams := s.streams[t := s.streams[t].(cut := Some(s.writer.held))]))
    case DisconnectFailed =>
      if !s.writer.WriteFailed? then None
      else Some(s.(writer := Receiving, link := DisconnectIfCurrent(s.link, s.writer.token)))
    case _ => None
  }

  function NextReconnector(s: State, a: Action): Option<State> {
    match a
    case TakeWake =>
      if s.reconnector.Waiting? && s.wakes > 0 then Some(s.(reconnector := Joining, wakes := s.wakes - 1)) else None
    case JoinReader => if s.reconnector.Joining? && s.reader.None? then Some(s.(reconnector := Joined)) else None
    case ClearSlot =>
      if s.reconnector.Joined? then Some(s.(reconnector := Cleared, link := Disconnect(s.link))) else None
    case CheckAfterClear =>
      if s.reconnector.Cleared? then Some(s.(reconnector := if s.stopping then ReconnectorExited else Retrying)) else None
    case CheckRetry =>
      if s.reconnector.Retrying? then Some(s.(reconnector := if s.stopping then ReconnectorExited else Connecting)) else None
    case Connect(ok) =>
      if !s.reconnector.Connecting? then None
      else if ok then
        Some(s.(reconnector := Open(|s.streams|), streams := s.streams + [Stream(None, false, [], None)]))
      else Some(s.(reconnector := Retrying))
    case Configure(ok) =>
      if !s.reconnector.Open? then None
      else if ok then Some(s.(reconnector := ViewportRead(s.reconnector.stream, s.viewport)))
      else Some(s.(reconnector := Retrying, link := s.link.(shut := s.link.shut + {s.reconnector.stream})))
    case WriteHello(ok) =>
      if !s.reconnector.ViewportRead? || s.reconnector.stream >= |s.streams| then None
      else
        var c, v := s.reconnector.stream, s.reconnector.viewport;
        if ok then
          Some(s.(reconnector := HelloWritten(c, v), streams := s.streams[c := s.streams[c].(hello := Some(v))]))
        else Some(s.(reconnector := Retrying, link := s.link.(shut := s.link.shut + {c})))
    case Install =>
      if !s.reconnector.HelloWritten? || s.reconnector.stream >= |s.streams| then None
      else
        var c := s.reconnector.stream;
        if s.stopping then Some(s.(reconnector := ReconnectorExited, link := s.link.(shut := s.link.shut + {c})))
        else
          Some(s.(reconnector := Waiting, reader := Some(c), link := Reconnect(s.link, c),
                  streams := s.streams[c := s.streams[c].(installed := true)],
                  stale := if s.reconnector.viewport != s.viewport && !ChangePending(s.main, s.viewport)
                           then s.stale + {c} else s.stale))
    case _ => None
  }

  function Next(s: State, a: Action): Option<State> {
    match a
    case ReaderEnds => if s.reader.Some? then Some(s.(reader := None, wakes := s.wakes + 1)) else None
    case _ =>
      if NextMain(s, a).Some? then NextMain(s, a)
      else if NextWriter(s, a).Some? then NextWriter(s, a)
      else NextReconnector(s, a)
  }

  /** The state after a run of enabled actions. */
  ghost predicate Reaches(s: State, run: seq<Action>, t: State)
    decreases |run|
  {
    if run == [] then t == s
    else Next(s, run[0]).Some? && Reaches(Next(s, run[0]).value, run[1..], t)
  }

  // ---------- History ----------

  /** The queued messages stamped with one token, in order. */
  function Stamped(log: seq<Outbound>, token: nat): seq<Outbound> {
    if log == [] then []
    else
      var last := log[|log| - 1];
      Stamped(log[..|log| - 1], token) + (if last.token == token then [last] else [])
  }

  lemma StampedAppend(log: seq<Outbound>, o: Outbound, token: nat)
    ensures Stamped(log + [o], token) == Stamped(log, token) + (if o.token == token then [o] else [])
  {
    assert (log + [o])[..|log|] == log;
  }

  lemma {:induction false} StampedConcat(a: seq<Outbound>, b: seq<Outbound>, token: nat)
    ensures Stamped(a + b, token) == Stamped(a, token) + Stamped(b, token)
    decreases |b|
  {
    if b == [] {
      assert a + b == a;
    } else {
      var n := |b| - 1;
      StampedConcat(a, b[..n], token);
      assert a + b == (a + b[..n]) + [b[n]];
      StampedAppend(a + b[..n], b[n], token);
    }
  }

  lemma {:induction false} StampedTokens(log: seq<Outbound>, token: nat)
    ensures forall k :: 0 <= k < |Stamped(log, token)| ==> Stamped(log, token)[k].token == token
    decreases |log|
  {
    if log != [] {
      StampedTokens(log[..|log| - 1], token);
    }
  }

  lemma {:induction false} UnusedTokenStampsNothing(log: seq<Outbound>, token: nat)
    requires forall k :: 0 <= k < |log| ==> log[k].token != token
    ensures Stamped(log, token) == []
    decreases |log|
  {
    if log != [] {
      UnusedTokenStampsNothing(log[..|log| - 1], token);
    }
  }

  /** The message in the writer's hands, if any. */
  function Held(w: Writer): seq<Outbound> {
    match w
    case Received(o) => [o]
    case Checked(o) => [o]
    case Cloned(o) => [o]
    case _ => []
  }

  /** The last geometry a peer has been told after a Hello and some messages. */
  function LastGeometry(hello: Viewport, ms: seq<Outbound>): Viewport {
    if ms == [] then hello
    else
      match ms[|ms| - 1].payload
      case ViewportPayload(v) => v
      case _ => LastGeometry(hello, ms[..|ms| - 1])
  }

  lemma GeometryAppend(hello: Viewport, ms: seq<Outbound>, o: Outbound)
    ensures LastGeometry(hello, ms + [o]) ==
            match o.payload case ViewportPayload(v) => v case _ => LastGeometry(hello, ms)
  {
    assert (ms + [o])[..|ms|] == ms;
  }
}
