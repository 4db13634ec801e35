/** What every interleaving of the device's transport threads keeps. */
module KindleNetSafety {
  import opened Machine
  import opened Connection
  import opened WirePayload
  import opened KindleNet

  // ---------- Bookkeeping invariants ----------

  predicate Installed(s: State, t: nat) {
    t < |s.streams| && s.streams[t].installed && s.streams[t].hello.Some?
  }

  /** Every queued message is either done with, in the writer's hands, or still in the bounded queue. */
  ghost predicate QueueInv(s: State) {
    |s.queue| <= OUTBOUND_QUEUE_CAPACITY && s.log == s.done + Held(s.writer) + s.queue
  }

  ghost predicate Candidate(s: State, c: nat) {
    c < |s.streams| && !s.streams[c].installed
  }

  /** Only installed streams are ever named by a token: in the log, which holds no Hello and no frame, ... */
  ghost predicate LogInv(s: State) {
    forall k :: 0 <= k < |s.log| ==>
      Installed(s, s.log[k].token) && (s.log[k].payload.PointerPayload? || s.log[k].payload.ViewportPayload?)
  }

  /** ... among the stale sessions, ... */
  ghost predicate StaleInv(s: State) {
    forall t :: t in s.stale ==> Installed(s, t)
  }

  /** ... and in any thread's hands. */
  ghost predicate NamesInv(s: State) {
    && (s.link.slot.Connected? ==> Installed(s, s.link.slot.token))
    && (s.main.ViewportToken? ==> Installed(s, s.main.token))
    && (s.main.PointerToken? ==> Installed(s, s.main.token))
    && (s.writer.WriteFailed? ==> Installed(s, s.writer.token))
  }

  /** The stream being opened is not installed yet, and its Hello is the one the reconnector wrote. */
  ghost predicate CandidateInv(s: State) {
    && (s.reconnector.Open? ==> Candidate(s, s.reconnector.stream))
    && (s.reconnector.ViewportRead? ==> Candidate(s, s.reconnector.stream))
    && (s.reconnector.HelloWritten? ==>
          Candidate(s, s.reconnector.stream) && s.streams[s.reconnector.stream].hello == Some(s.reconnector.viewport))
  }

  ghost predicate TokenInv(s: State) {
    LogInv(s) && StaleInv(s) && NamesInv(s) && CandidateInv(s)
  }

  /** Installed streams stay installed under the same Hello. */
  ghost predicate Grows(s: State, u: State) {
    forall t: nat :: Installed(s, t) ==> Installed(u, t) && u.streams[t].hello == s.streams[t].hello
  }

  predicate Dropping(m: Main) {
    m.DropStopping? || DropCut(m)
  }

  /** `Drop` is past its disconnect. */
  predicate DropCut(m: Main) {
    m.DropDisconnected? || m.DropWoken? || m.DropClosed? || m.Dropped?
  }

  /** A connection is installed only while the reconnector is idle, and never after `Drop` has cut it. */
  ghost predicate SlotInv(s: State) {
    && (s.stopping <==> Dropping(s.main))
    && (s.link.slot.Connected? ==>
          && !DropCut(s.main)
          && (s.reconnector.Waiting? || s.reconnector.Joining? || s.reconnector.Joined?))
  }

  /** Every stream ever installed is the current one or has been shut down. */
  ghost predicate ShutInv(s: State) {
    forall t: nat :: Installed(s, t) ==> s.link.slot == Connected(t) || t in s.link.shut
  }

  // ---------- Delivery ----------

  function Cut(st: Stream): seq<Outbound> {
    if st.cut.Some? then [st.cut.value] else []
  }

  /** The writer may still add whole messages to stream t. */
  predicate Live(s: State, t: nat) {
    || (s.link.slot == Connected(t) && s.writer != WriteFailed(t) && !s.writer.WriterExited?)
    || (s.writer.Cloned? && s.writer.held.token == t)
  }

  /** What stream t carries is a prefix of what was stamped with t, and all of it while t is live. */
  ghost predicate StreamInv(s: State, t: nat)
    requires t < |s.streams|
  {
    var st := s.streams[t];
    && (st.installed ==> st.hello.Some?)
    && (!st.installed ==> st.sent == [] && st.cut.None?)
    && st.sent + Cut(st) <= Stamped(s.done, t)
    && (Live(s, t) ==> st.cut.None? && st.sent == Stamped(s.done, t))
  }

  ghost predicate DeliveryInv(s: State) {
    forall t: nat :: t < |s.streams| ==> StreamInv(s, t)
  }

  // ---------- Geometry ----------

  /** The geometry peer t has been, or will have been, told by everything stamped with t so far. */
  function Told(s: State, t: nat): Viewport
    requires Installed(s, t)
  {
    LastGeometry(s.streams[t].hello.value, Stamped(s.log, t))
  }

  /** The main thread is not between changing the viewport and offering it to the connection. */
  predicate Settled(m: Main, viewport: Viewport) {
    m.Idle? || m.PointerToken? || (m.ViewportSet? && m.previous == viewport)
  }

  /** A session lacks the local viewport exactly when it is stale. */
  ghost predicate Agrees(s: State, t: nat) {
    Installed(s, t) ==> (Told(s, t) == s.viewport <==> t !in s.stale)
  }

  /** Every queued pointer follows geometry equal to the viewport it was queued under, unless its session
      was stale at that moment, and then it does not. */
  ghost predicate PointersAgree(hello: Viewport, ms: seq<Outbound>) {
    forall k :: 0 <= k < |ms| && ms[k].payload.PointerPayload? ==>
      (LastGeometry(hello, ms[..k]) == ms[k].at <==> !ms[k].stale)
  }

  ghost predicate GeometryInv(s: State) {
    && (forall t: nat :: Installed(s, t) ==> PointersAgree(s.streams[t].hello.value, Stamped(s.log, t)))
    && (Settled(s.main, s.viewport) && s.link.slot.Connected? ==> Agrees(s, s.link.slot.token))
    && (s.main.PointerToken? ==> Agrees(s, s.main.token))
    && (s.main.ViewportToken? ==>
          && (Window(s.reconnector) ==> s.reconnector.viewport == s.viewport)
          && (s.link.slot.Connected? && s.link.slot.token != s.main.token ==>
                Agrees(s, s.link.slot.token) && s.link.slot.token !in s.stale))
  }

  /** In a run with no change between viewport read and install, no session is stale. */
  ghost predicate CleanInv(s: State) {
    s.clean ==>
      && s.stale == {}
      && (Window(s.reconnector) ==> s.reconnector.viewport == s.viewport)
      && forall k :: 0 <= k < |s.log| ==> !s.log[k].stale
  }

  ghost predicate Inv(s: State) {
    && QueueInv(s) && TokenInv(s) && SlotInv(s) && ShutInv(s) && DeliveryInv(s) && GeometryInv(s) && CleanInv(s)
  }

  lemma InitialInv(v: Viewport)
    ensures Inv(Initial(v))
  {
  }

  // ---------- The main thread ----------

  /** What a step of the main thread adds to the queue. */
  function Queued(s: State, a: Action): seq<Outbound> {
    if |s.queue| >= OUTBOUND_QUEUE_CAPACITY then []
    else if a.EnqueueViewport? && s.main.ViewportToken? then
      [Outbound(s.main.token, ViewportPayload(s.viewport), s.viewport, false)]
    else if a.EnqueuePointer? && s.main.PointerToken? then
      [Outbound(s.main.token, PointerPayload(s.main.pointer), s.viewport, s.main.token in s.stale)]
    else []
  }

  /** Starting with a stream of its own, or with none. */
  ghost predicate Promoted(s: State, u: State) {
    && s.streams == [] && |u.streams| == 1 && u.streams[0].sent == [] && u.streams[0].cut.None?
    && !u.main.ViewportToken? && !u.main.PointerToken?
    && u.link.slot == (if u.streams[0].installed then Connected(0) else s.link.slot)
    && u.reconnector == (if u.streams[0].installed then Waiting else NotStarted)
    && (u.streams[0].installed ==> u.streams[0].hello == Some(s.viewport))
    && u.main == s.main && u.stopping == s.stopping && s.reconnector.NotStarted?
    && u.viewport == s.viewport && u.clean == s.clean && u.stale == s.stale
  }

  ghost predicate MainHistory(s: State, a: Action, u: State) {
    && u.done == s.done && u.writer == s.writer && u.stale <= s.stale
    && u.log == s.log + Queued(s, a) && u.queue == s.queue + Queued(s, a)
  }

  ghost predicate MainLinks(s: State, a: Action, u: State) {
    && (u.main.ViewportToken? ==> s.link.slot == Connected(u.main.token))
    && (u.main.PointerToken? ==> s.link.slot == Connected(u.main.token) || u.main == s.main)
    && (if a.Promote? then Promoted(s, u)
        else
          && u.streams == s.streams && u.reconnector == s.reconnector
          && (u.link.slot == s.link.slot || u.link.slot == Disconnected))
  }

  lemma MainHistoryStep(s: State, a: Action)
    requires NextMain(s, a).Some?
    ensures MainHistory(s, a, NextMain(s, a).value)
  {
    hide Reconnect, Disconnect, CurrentToken, Window, ChangePending;
    if a.EnqueueViewport? || a.EnqueuePointer? {
      MainQueues(s, a);
    } else {
      hide Enqueued;
      assert Queued(s, a) == [];
      assert s.log + [] == s.log && s.queue + [] == s.queue;
    }
  }

  lemma MainQueues(s: State, a: Action)
    requires NextMain(s, a).Some? && (a.EnqueueViewport? || a.EnqueuePointer?)
    ensures MainHistory(s, a, NextMain(s, a).value)
  {
  }

  lemma MainLinksStep(s: State, a: Action)
    requires NextMain(s, a).Some?
    ensures MainLinks(s, a, NextMain(s, a).value)
  {
    hide Queued, Held;
  }

  lemma MainKeepsQueue(s: State, a: Action)
    requires QueueInv(s) && NextMain(s, a).Some?
    ensures QueueInv(NextMain(s, a).value)
  {
    MainHistoryStep(s, a);
    hide NextMain;
  }

  lemma MainKeepsSlot(s: State, a: Action)
    requires SlotInv(s) && NextMain(s, a).Some?
    ensures SlotInv(NextMain(s, a).value)
  {
    hide CurrentToken, Window, ChangePending;
  }

  lemma MainGrows(s: State, a: Action)
    requires CandidateInv(s) && NextMain(s, a).Some?
    ensures Grows(s, NextMain(s, a).value)
  {
    MainLinksStep(s, a);
    hide NextMain;
  }

  lemma MainKeepsTokens(s: State, a: Action)
    requires TokenInv(s) && NextMain(s, a).Some?
    ensures TokenInv(NextMain(s, a).value) && Grows(s, NextMain(s, a).value)
  {
    MainLinksStep(s, a);
    MainHistoryStep(s, a);
    MainGrows(s, a);
    hide NextMain, LogInv, Queued;
    MainKeepsLog(s, a);
  }

  lemma MainKeepsLog(s: State, a: Action)
    requires TokenInv(s) && NextMain(s, a).Some?
    ensures LogInv(NextMain(s, a).value)
  {
    MainHistoryStep(s, a);
    MainGrows(s, a);
    hide NextMain;
  }

  lemma MainKeepsShut(s: State, a: Action)
    requires ShutInv(s) && NextMain(s, a).Some?
    ensures ShutInv(NextMain(s, a).value)
    ensures NextMain(s, a).value.link.shut >= s.link.shut
  {
    hide CurrentToken;
  }

  /** Nothing has ever been stamped with the name of a stream that is not installed. */
  lemma NothingStamped(s: State, c: nat)
    requires QueueInv(s) && LogInv(s) && !Installed(s, c)
    ensures Stamped(s.log, c) == [] && Stamped(s.done, c) == []
  {
    assert forall k :: 0 <= k < |s.done| ==> s.done[k] == s.log[k];
    UnusedTokenStampsNothing(s.log, c);
    UnusedTokenStampsNothing(s.done, c);
  }

  lemma MainKeepsDelivery(s: State, a: Action)
    requires QueueInv(s) && TokenInv(s) && DeliveryInv(s) && NextMain(s, a).Some?
    ensures DeliveryInv(NextMain(s, a).value)
  {
    MainLinksStep(s, a);
    MainHistoryStep(s, a);
    hide NextMain;
    var u := NextMain(s, a).value;
    if a.Promote? {
      NothingStamped(s, 0);
    } else {
      forall t: nat | t < |u.streams|
        ensures StreamInv(u, t)
      {
        assert StreamInv(s, t);
      }
    }
  }

  // ---------- The writer ----------

  /** A step of the writer as the others see it. */
  ghost predicate WriterLinks(s: State, u: State) {
    && u.log == s.log && u.stale == s.stale && u.viewport == s.viewport && u.clean == s.clean
    && u.main == s.main && u.reconnector == s.reconnector && u.stopping == s.stopping
    && (u.link.slot == s.link.slot || u.link.slot == Disconnected)
    && (u.writer.WriteFailed? ==> Held(s.writer) != [] && u.writer.token == s.writer.held.token)
  }

  /** It leaves a stream alone, adds the message in hand to it whole, or adds it cut. */
  ghost predicate WriterWrites(s: State, u: State, t: nat)
    requires t < |s.streams|
  {
    && |u.streams| == |s.streams|
    && (Live(u, t) ==> Live(s, t))
    && (|| (u.streams[t] == s.streams[t] && u.done == s.done)
        || (&& Held(s.writer) != [] && u.done == s.done + [s.writer.held]
            && (|| (u.streams[t] == s.streams[t] && (s.writer.held.token == t ==> !Live(u, t)))
                || (s.writer.held.token == t && Live(s, t)
                    && u.streams[t] == s.streams[t].(sent := s.streams[t].sent + [s.writer.held]))
                || (s.writer.held.token == t && Live(s, t) && !Live(u, t)
                    && u.streams[t] == s.streams[t].(cut := Some(s.writer.held))))))
  }

  lemma WriterLinksStep(s: State, a: Action)
    requires NextWriter(s, a).Some?
    ensures WriterLinks(s, NextWriter(s, a).value)
  {
  }

  lemma WriterKeepsQueue(s: State, a: Action)
    requires QueueInv(s) && NextWriter(s, a).Some?
    ensures QueueInv(NextWriter(s, a).value)
  {
    WriterTakes(s, a);
    hide NextWriter;
  }

  /** What the writer is done with, holds and has yet to take never changes as a whole. */
  lemma WriterTakes(s: State, a: Action)
    requires NextWriter(s, a).Some?
    ensures var u := NextWriter(s, a).value;
            && u.log == s.log && |u.queue| <= |s.queue|
            && u.done + Held(u.writer) + u.queue == s.done + Held(s.writer) + s.queue
  {
    hide DisconnectIfCurrent, CurrentToken;
    var u := NextWriter(s, a).value;
    if a.Receive? {
      assert s.queue == [s.queue[0]] + s.queue[1..];
    } else {
      assert u.queue == s.queue;
      assert u.done + Held(u.writer) == s.done + Held(s.writer);
    }
  }

  lemma WriterKeepsSlot(s: State, a: Action)
    requires SlotInv(s) && NextWriter(s, a).Some?
    ensures SlotInv(NextWriter(s, a).value)
  {
    WriterLinksStep(s, a);
    hide NextWriter;
  }

  lemma WriteWrites(s: State, a: Action, t: nat)
    requires NextWriter(s, a).Some? && t < |s.streams| && a.Write?
    ensures WriterWrites(s, NextWriter(s, a).value, t)
  {
  }

  lemma OthersWriteNothing(s: State, a: Action, t: nat)
    requires NextWriter(s, a).Some? && t < |s.streams| && !a.Write?
    ensures WriterWrites(s, NextWriter(s, a).value, t)
    ensures NextWriter(s, a).value.streams == s.streams
  {
  }

  lemma WriterKeepsStreams(s: State, a: Action)
    requires NextWriter(s, a).Some?
    ensures var u := NextWriter(s, a).value;
            |u.streams| == |s.streams|
            && forall t: nat :: t < |s.streams| ==>
                 u.streams[t].installed == s.streams[t].installed && u.streams[t].hello == s.streams[t].hello
  {
  }

  lemma WriterKeepsShut(s: State, a: Action)
    requires ShutInv(s) && NextWriter(s, a).Some?
    ensures ShutInv(NextWriter(s, a).value)
    ensures NextWriter(s, a).value.link.shut >= s.link.shut
  {
    hide CurrentToken;
  }

  lemma WriterKeepsTokens(s: State, a: Action)
    requires TokenInv(s) && QueueInv(s) && NextWriter(s, a).Some?
    ensures TokenInv(NextWriter(s, a).value) && Grows(s, NextWriter(s, a).value)
  {
    WriterLinksStep(s, a);
    WriterKeepsStreams(s, a);
    hide NextWriter, CurrentToken;
    var u := NextWriter(s, a).value;
    assert forall t: nat :: Installed(u, t) <==> Installed(s, t);
    if Held(s.writer) != [] {
      assert s.log[|s.done|] == s.writer.held;
      assert Installed(s, s.writer.held.token);
    }
    assert LogInv(u);
    assert NamesInv(u);
  }

  lemma WriterKeepsDelivery(s: State, a: Action)
    requires QueueInv(s) && TokenInv(s) && DeliveryInv(s) && NextWriter(s, a).Some?
    ensures DeliveryInv(NextWriter(s, a).value)
  {
    WriterKeepsStreams(s, a);
    hide NextWriter, QueueInv, TokenInv, WriterWrites, Live;
    var u := NextWriter(s, a).value;
    forall t: nat | t < |u.streams|
      ensures StreamInv(u, t)
    {
      assert StreamInv(s, t);
      if a.Write? {
        WriteWrites(s, a, t);
      } else {
        OthersWriteNothing(s, a, t);
      }
      if Live(s, t) {
        LiveIsInstalled(s, t);
      }
      WrittenIsPrefix(s, u, t);
    }
  }

  lemma WrittenIsPrefix(s: State, u: State, t: nat)
    requires t < |s.streams| && StreamInv(s, t) && WriterWrites(s, u, t)
    requires u.streams[t].installed == s.streams[t].installed && u.streams[t].hello == s.streams[t].hello
    requires Live(s, t) ==> s.streams[t].installed
    ensures StreamInv(u, t)
  {
    hide Live, Stamped;
    if Held(s.writer) != [] {
      StampedAppend(s.done, s.writer.held, t);
    }
  }

  lemma LiveIsInstalled(s: State, t: nat)
    requires QueueInv(s) && TokenInv(s) && Live(s, t)
    ensures Installed(s, t)
  {
    if s.link.slot != Connected(t) {
      assert s.log[|s.done|] == s.writer.held;
    }
  }

  // ---------- The reconnector ----------

  ghost predicate ReconnectorLinks(s: State, a: Action, u: State) {
    && u.log == s.log && u.done == s.done && u.queue == s.queue && u.writer == s.writer
    && u.main == s.main && u.viewport == s.viewport && u.clean == s.clean && u.stopping == s.stopping
    && (if a.Install? && !s.stopping then
          && s.reconnector.HelloWritten? && s.reconnector.stream < |s.streams|
          && u.link.slot == Connected(s.reconnector.stream) && u.reconnector.Waiting?
          && u.stale == (if s.reconnector.viewport != s.viewport && !ChangePending(s.main, s.viewport)
                         then s.stale + {s.reconnector.stream} else s.stale)
        else
          && u.stale == s.stale
          && (u.link.slot == s.link.slot || u.link.slot == Disconnected)
          && (Window(u.reconnector) ==>
                if Window(s.reconnector) then u.reconnector.viewport == s.reconnector.viewport
                else u.reconnector.viewport == s.viewport))
  }

  /** Only the stream being opened changes, and it is installed exactly when its token is published. */
  ghost predicate ReconnectorStreams(s: State, a: Action, u: State) {
    && |s.streams| <= |u.streams|
    && (forall t: nat :: t < |u.streams| ==>
          if t == |s.streams| then u.streams[t] == Stream(None, false, [], None)
          else t < |s.streams| && (u.streams[t] == s.streams[t] || ChangesCandidate(s, a, u, t)))
  }

  ghost predicate ChangesCandidate(s: State, a: Action, u: State, t: nat) {
    && t < |s.streams| && t < |u.streams| && Window(s.reconnector) && t == s.reconnector.stream
    && u.streams[t].sent == s.streams[t].sent && u.streams[t].cut == s.streams[t].cut
    && (if a.Install? then !s.stopping && u.streams[t] == s.streams[t].(installed := true)
        else u.streams[t].installed == s.streams[t].installed)
  }

  lemma ReconnectorLinksStep(s: State, a: Action)
    requires NextReconnector(s, a).Some?
    ensures ReconnectorLinks(s, a, NextReconnector(s, a).value)
  {
    hide ChangePending;
  }

  lemma ReconnectorStreamsStep(s: State, a: Action)
    requires NextReconnector(s, a).Some?
    ensures ReconnectorStreams(s, a, NextReconnector(s, a).value)
  {
  }

  lemma ReconnectorKeepsQueue(s: State, a: Action)
    requires QueueInv(s) && NextReconnector(s, a).Some?
    ensures QueueInv(NextReconnector(s, a).value)
  {
    ReconnectorLinksStep(s, a);
    hide NextReconnector;
  }

  lemma ReconnectorKeepsSlot(s: State, a: Action)
    requires SlotInv(s) && NextReconnector(s, a).Some?
    ensures SlotInv(NextReconnector(s, a).value)
  {
  }

  lemma ReconnectorKeepsCandidate(s: State, a: Action)
    requires CandidateInv(s) && NextReconnector(s, a).Some?
    ensures CandidateInv(NextReconnector(s, a).value)
    ensures a.Install? && !s.stopping ==> Installed(NextReconnector(s, a).value, s.reconnector.stream)
  {
  }

  lemma ReconnectorKeepsShut(s: State, a: Action)
    requires TokenInv(s) && ShutInv(s) && NextReconnector(s, a).Some?
    ensures ShutInv(NextReconnector(s, a).value)
    ensures NextReconnector(s, a).value.link.shut >= s.link.shut
  {
  }

  lemma ReconnectorGrows(s: State, a: Action)
    requires CandidateInv(s) && NextReconnector(s, a).Some?
    ensures Grows(s, NextReconnector(s, a).value)
  {
    ReconnectorStreamsStep(s, a);
    hide NextReconnector;
  }

  lemma ReconnectorKeepsTokens(s: State, a: Action)
    requires TokenInv(s) && NextReconnector(s, a).Some?
    ensures TokenInv(NextReconnector(s, a).value) && Grows(s, NextReconnector(s, a).value)
  {
    ReconnectorLinksStep(s, a);
    ReconnectorKeepsCandidate(s, a);
    ReconnectorGrows(s, a);
    hide NextReconnector, CandidateInv;
    var u := NextReconnector(s, a).value;
    assert LogInv(u);
    assert StaleInv(u);
    assert NamesInv(u);
  }

  /** A stream the reconnector did not open keeps its delivery. */
  lemma OpenedStreamDelivers(s: State, u: State, t: nat)
    requires t < |s.streams| && t < |u.streams| && StreamInv(s, t)
    requires u.streams[t] == s.streams[t]
    requires u.done == s.done && u.writer == s.writer
    requires u.link.slot == s.link.slot || u.link.slot != Connected(t)
    ensures StreamInv(u, t)
  {
    hide Stamped;
  }

  /** A stream with no messages delivers all of the none that were stamped with it. */
  lemma EmptyStreamDelivers(u: State, t: nat)
    requires t < |u.streams| && u.streams[t].sent == [] && u.streams[t].cut.None?
    requires u.streams[t].installed ==> u.streams[t].hello.Some?
    requires Stamped(u.done, t) == []
    ensures StreamInv(u, t)
  {
  }

  lemma ReconnectorKeepsDelivery(s: State, a: Action)
    requires QueueInv(s) && TokenInv(s) && DeliveryInv(s) && NextReconnector(s, a).Some?
    ensures DeliveryInv(NextReconnector(s, a).value)
  {
    ReconnectorLinksStep(s, a);
    ReconnectorStreamsStep(s, a);
    ReconnectorKeepsTokens(s, a);
    hide NextReconnector, Stamped;
    var u := NextReconnector(s, a).value;
    forall t: nat | t < |u.streams|
      ensures StreamInv(u, t)
    {
      if t < |s.streams| && s.streams[t].installed {
        hide StreamInv;
        assert StreamInv(s, t);
        OpenedStreamDelivers(s, u, t);
      } else {
        if t < |s.streams| {
          assert StreamInv(s, t);
        }
        NothingStamped(s, t);
        EmptyStreamDelivers(u, t);
      }
    }
  }
}
