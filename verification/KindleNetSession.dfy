/** What the host sees: the main theorems about runs of the device's transport. */
module KindleNetSession {
  import opened Machine
  import opened Connection
  import opened WireFraming
  import opened WirePayload
  import opened WireReader
  import opened KindleNet
  import opened KindleNetSafety
  import opened KindleNetRuns

  /** A state some interleaving of the threads can reach. */
  ghost predicate Reachable(s: State) {
    exists v: Viewport, run: seq<Action> :: Reaches(Initial(v), run, s)
  }

  lemma ReachableInv(s: State)
    requires Reachable(s)
    ensures Inv(s)
  {
    var v: Viewport, run: seq<Action> :| Reaches(Initial(v), run, s);
    hide Inv, Reaches;
    InitialInv(v);
    RunKeepsInv(Initial(v), run, s);
  }

  // ---------- Delivery ----------

  /** Each stream carries one Hello, then a prefix, in queue order, of the messages stamped with it, the last
      possibly cut short. Nothing reaches a stream that was never installed. */
  lemma StreamsCarryTheirOwn(s: State, t: nat)
    requires Reachable(s) && t < |s.streams|
    ensures var st := s.streams[t];
            && (st.installed ==> st.hello.Some?)
            && (!st.installed ==> st.sent == [] && st.cut.None?)
            && st.sent + Cut(st) <= Stamped(s.log, t)
  {
    ReachableInv(s);
    hide Reachable, Stamped, Live;
    assert StreamInv(s, t);
    assert s.log == s.done + (Held(s.writer) + s.queue);
    StampedConcat(s.done, Held(s.writer) + s.queue, t);
  }

  /** No message crosses a reconnect. */
  lemma NoMessageCrosses(s: State, t: nat, k: nat)
    requires Reachable(s) && t < |s.streams| && k < |s.streams[t].sent + Cut(s.streams[t])|
    ensures (s.streams[t].sent + Cut(s.streams[t]))[k].token == t
  {
    StreamsCarryTheirOwn(s, t);
    StampedTokens(s.log, t);
  }

  /** Whatever was queued for the current connection has been written to it once the queue is drained. */
  lemma NothingLost(s: State)
    requires Reachable(s) && s.link.slot.Connected? && s.queue == [] && s.writer.Receiving?
    ensures s.link.slot.token < |s.streams|
    ensures s.streams[s.link.slot.token].sent == Stamped(s.log, s.link.slot.token)
  {
    ReachableInv(s);
    hide Reachable, Stamped;
    assert s.log == s.done;
    assert StreamInv(s, s.link.slot.token);
  }

  // ---------- Drop ----------

  /** No stream is added to the installed ones, and none of those carries another whole message. */
  ghost predicate Quiet(s: State, u: State) {
    && DropCut(u.main) && |u.streams| >= |s.streams|
    && forall t: nat :: t < |u.streams| && u.streams[t].installed ==>
         t < |s.streams| && s.streams[t].installed && u.streams[t].sent == s.streams[t].sent
  }

  lemma MainStaysQuiet(s: State, a: Action)
    requires DropCut(s.main) && NextMain(s, a).Some?
    ensures Quiet(s, NextMain(s, a).value)
  {
  }

  lemma WriterStaysQuiet(s: State, a: Action)
    requires Inv(s) && DropCut(s.main) && NextWriter(s, a).Some?
    ensures Quiet(s, NextWriter(s, a).value)
  {
    WriterLinksStep(s, a);
    WriterKeepsStreams(s, a);
    if a.Write? {
      WriterTargetShut(s);
    }
    hide Inv;
  }

  /** The stream in the writer's hands is shut down already. */
  lemma WriterTargetShut(s: State)
    requires Inv(s) && DropCut(s.main) && Held(s.writer) != []
    ensures s.writer.held.token in s.link.shut
  {
    hide DeliveryInv, GeometryInv, CleanInv;
    assert s.log[|s.done|] == s.writer.held;
    assert Installed(s, s.writer.held.token);
  }

  lemma ReconnectorStaysQuiet(s: State, a: Action)
    requires Inv(s) && DropCut(s.main) && NextReconnector(s, a).Some?
    ensures Quiet(s, NextReconnector(s, a).value)
  {
    ReconnectorLinksStep(s, a);
    ReconnectorStreamsStep(s, a);
    assert s.stopping;
    hide NextReconnector, Inv;
  }

  lemma StaysQuiet(s: State, a: Action)
    requires Inv(s) && DropCut(s.main) && Next(s, a).Some?
    ensures Quiet(s, Next(s, a).value)
  {
    hide Inv, NextMain, NextWriter, NextReconnector;
    if !a.ReaderEnds? {
      if NextMain(s, a).Some? {
        MainStaysQuiet(s, a);
      } else if NextWriter(s, a).Some? {
        WriterStaysQuiet(s, a);
      } else {
        ReconnectorStaysQuiet(s, a);
      }
    }
  }

  /** Once `Drop` has disconnected, no stream is installed again, every stream that ever was is shut down,
      and no further message reaches any of them whole. */
  lemma {:induction false} DropCutsEverything(s: State, run: seq<Action>, u: State)
    requires Inv(s) && DropCut(s.main) && Reaches(s, run, u)
    ensures Quiet(s, u) && u.link.slot == Disconnected
    ensures forall t: nat :: Installed(u, t) ==> t in u.link.shut
    decreases |run|
  {
    if run != [] {
      var m := Next(s, run[0]).value;
      StaysQuiet(s, run[0]);
      NextKeepsInv(s, run[0]);
      hide Inv, Next;
      DropCutsEverything(m, run[1..], u);
    } else {
      hide DeliveryInv, GeometryInv, CleanInv, QueueInv, TokenInv;
      assert SlotInv(s) && ShutInv(s);
    }
  }

  // ---------- Geometry ----------

  /** Every pointer written to a stream is preceded there by geometry whose last value is the local viewport
      at the moment the pointer was queued, if and only if the session was not stale at that moment. */
  lemma PointersFollowGeometry(s: State, t: nat, k: nat)
    requires Reachable(s) && t < |s.streams| && k < |s.streams[t].sent|
    requires s.streams[t].sent[k].payload.PointerPayload?
    ensures s.streams[t].hello.Some?
    ensures var sent := s.streams[t].sent;
            LastGeometry(s.streams[t].hello.value, sent[..k]) == sent[k].at <==> !sent[k].stale
  {
    ReachableInv(s);
    StreamsCarryTheirOwn(s, t);
    var st := s.streams[t];
    var all := Stamped(s.log, t);
    hide Reachable, Stamped, LastGeometry, DeliveryInv, QueueInv, TokenInv, SlotInv, CleanInv;
    assert st.sent <= all;
    assert Installed(s, t);
    assert PointersAgree(st.hello.value, all);
    assert all[k] == st.sent[k] && all[..k] == st.sent[..k];
  }

  /** Outside the two calls that change it, the last geometry queued for the current connection is the local
      viewport if and only if that session is not stale. */
  lemma ConnectionAgrees(s: State)
    requires Reachable(s) && Settled(s.main, s.viewport) && s.link.slot.Connected?
    ensures Installed(s, s.link.slot.token)
    ensures Told(s, s.link.slot.token) == s.viewport <==> s.link.slot.token !in s.stale
  {
    ReachableInv(s);
    hide Reachable, Stamped, LastGeometry, DeliveryInv, QueueInv, SlotInv, CleanInv;
    assert NamesInv(s);
  }

  /** No viewport change falls between the reconnector's viewport read and its install. */
  ghost predicate Undisturbed(s: State, run: seq<Action>)
    decreases |run|
  {
    run != [] && Next(s, run[0]).Some? ==>
      && !(run[0].SetViewport? && run[0].viewport != s.viewport && Window(s.reconnector))
      && Undisturbed(Next(s, run[0]).value, run[1..])
  }

  lemma {:induction false} CleanIsUndisturbed(s: State, run: seq<Action>, u: State)
    requires Reaches(s, run, u)
    ensures u.clean <==> s.clean && Undisturbed(s, run)
    decreases |run|
  {
    if run != [] {
      HistoryStep(s, run[0], 0);
      hide Next;
      CleanIsUndisturbed(Next(s, run[0]).value, run[1..], u);
    }
  }

  /** The step installs t under a Hello whose viewport is no longer the local one, with no call still about to
      offer the new one. */
  predicate Misses(s: State, a: Action, t: nat) {
    && a.Install? && s.reconnector.HelloWritten? && s.reconnector.stream == t < |s.streams| && !s.stopping
    && s.reconnector.viewport != s.viewport && !ChangePending(s.main, s.viewport)
  }

  /** The step queues a viewport for t. */
  predicate Tells(s: State, a: Action, t: nat) {
    a.EnqueueViewport? && s.main == ViewportToken(t) && |s.queue| < OUTBOUND_QUEUE_CAPACITY
  }

  ghost predicate NeverTold(s: State, run: seq<Action>, t: nat)
    decreases |run|
  {
    run != [] && Next(s, run[0]).Some? ==> !Tells(s, run[0], t) && NeverTold(Next(s, run[0]).value, run[1..], t)
  }

  /** Somewhere in the run t is installed so, and it is told nothing since. */
  ghost predicate MissedIn(s: State, run: seq<Action>, t: nat)
    decreases |run|
  {
    && run != [] && Next(s, run[0]).Some?
    && var m := Next(s, run[0]).value;
       (Misses(s, run[0], t) && NeverTold(m, run[1..], t)) || MissedIn(m, run[1..], t)
  }

  lemma HistoryMain(s: State, a: Action, t: nat)
    requires NextMain(s, a).Some?
    ensures !a.Install? && (t in NextMain(s, a).value.stale <==> t in s.stale && !Tells(s, a, t))
    ensures NextMain(s, a).value.clean <==>
            s.clean && !(a.SetViewport? && a.viewport != s.viewport && Window(s.reconnector))
  {
    hide Reconnect, Disconnect, CurrentToken, Window;
  }

  lemma HistoryWriter(s: State, a: Action)
    requires NextWriter(s, a).Some?
    ensures !a.Install? && !a.EnqueueViewport? && NextWriter(s, a).value.stale == s.stale
    ensures !a.SetViewport? && NextWriter(s, a).value.clean == s.clean
  {
    hide CurrentToken, DisconnectIfCurrent;
  }

  lemma HistoryReconnector(s: State, a: Action, t: nat)
    requires NextReconnector(s, a).Some?
    ensures !a.EnqueueViewport? && (t in NextReconnector(s, a).value.stale <==> t in s.stale || Misses(s, a, t))
    ensures !a.SetViewport? && NextReconnector(s, a).value.clean == s.clean
  {
    hide ChangePending, Reconnect, Disconnect;
  }

  /** What one step does to the history of viewports. */
  lemma HistoryStep(s: State, a: Action, t: nat)
    requires Next(s, a).Some?
    ensures t in Next(s, a).value.stale <==> (t in s.stale && !Tells(s, a, t)) || Misses(s, a, t)
    ensures Next(s, a).value.clean <==>
            s.clean && !(a.SetViewport? && a.viewport != s.viewport && Window(s.reconnector))
  {
    hide NextMain, NextWriter, NextReconnector, ChangePending;
    if a.ReaderEnds? {
    } else if NextMain(s, a).Some? {
      HistoryMain(s, a, t);
    } else if NextWriter(s, a).Some? {
      HistoryWriter(s, a);
    } else {
      HistoryReconnector(s, a, t);
    }
  }

  lemma {:induction false} StaleGrows(s: State, run: seq<Action>, u: State, t: nat)
    requires Reaches(s, run, u)
    ensures t in u.stale <==> (t in s.stale && NeverTold(s, run, t)) || MissedIn(s, run, t)
    decreases |run|
  {
    if run != [] {
      HistoryStep(s, run[0], t);
      hide Next, Misses, Tells;
      StaleGrows(Next(s, run[0]).value, run[1..], u, t);
    }
  }

  /** Which sessions are stale, read off the run. */
  lemma StaleIsMissed(v: Viewport, run: seq<Action>, s: State, t: nat)
    requires Reaches(Initial(v), run, s)
    ensures t in s.stale <==> MissedIn(Initial(v), run, t)
  {
    StaleGrows(Initial(v), run, s, t);
    hide MissedIn, NeverTold, Reaches;
  }

  /** In such a run every delivered pointer follows the viewport it was queued under. */
  lemma UndisturbedPointersAgree(v: Viewport, run: seq<Action>, s: State, t: nat, k: nat)
    requires Reaches(Initial(v), run, s) && Undisturbed(Initial(v), run)
    requires t < |s.streams| && k < |s.streams[t].sent| && s.streams[t].sent[k].payload.PointerPayload?
    ensures s.streams[t].hello.Some?
    ensures LastGeometry(s.streams[t].hello.value, s.streams[t].sent[..k]) == s.streams[t].sent[k].at
  {
    CleanIsUndisturbed(Initial(v), run, s);
    hide Reaches, Undisturbed, LastGeometry, Stamped;
    ReachableInv(s);
    StreamsCarryTheirOwn(s, t);
    PointersFollowGeometry(s, t, k);
    var o := s.streams[t].sent[k];
    hide DeliveryInv, QueueInv, TokenInv, SlotInv, GeometryInv, Reachable;
    assert o == Stamped(s.log, t)[k];
    StampedFromLog(s.log, t, k);
  }

  lemma {:induction false} StampedFromLog(log: seq<Outbound>, t: nat, k: nat)
    requires k < |Stamped(log, t)|
    ensures exists i :: 0 <= i < |log| && log[i] == Stamped(log, t)[k]
    decreases |log|
  {
    var n := |log| - 1;
    if k < |Stamped(log[..n], t)| {
      StampedFromLog(log[..n], t, k);
      var i :| 0 <= i < n && log[..n][i] == Stamped(log[..n], t)[k];
      assert log[i] == Stamped(log, t)[k];
    } else {
      assert log[n] == Stamped(log, t)[k];
    }
  }

  // ---------- The race ----------

  lemma {:induction false} ReachesStep(s: State, run: seq<Action>, m: State, a: Action)
    requires Reaches(s, run, m) && Next(m, a).Some?
    ensures Reaches(s, run + [a], Next(m, a).value)
    decreases |run|
  {
    hide Next;
    if run == [] {
      assert (run + [a])[1..] == [];
    } else {
      assert (run + [a])[1..] == run[1..] + [a];
      ReachesStep(Next(s, run[0]).value, run[1..], m, a);
    }
  }

  lemma ReachableStep(s: State, a: Action, u: State)
    requires Reachable(s) && Next(s, a) == Some(u)
    ensures Reachable(u)
  {
    hide Next;
    var v: Viewport, run: seq<Action> :| Reaches(Initial(v), run, s);
    ReachesStep(Initial(v), run, s, a);
  }

  /** The first connection, opened with viewport a, has been lost. */
  function Lost(a: Viewport): State {
    Initial(a).(streams := [Stream(Some(a), true, [], None)], link := Link(Disconnected, {0}), reconnector := Cleared)
  }

  lemma ClearsFirst(a: Viewport, s: State)
    requires s == Lost(a).(link := Link(Connected(0), {}), reconnector := Joined)
    ensures Next(s, ClearSlot) == Some(Lost(a))
  {
    assert s.link.shut + {0} == {0};
  }

  lemma LosesConnection(a: Viewport)
    ensures Reachable(Lost(a))
  {
    var s1 := Initial(a).(streams := [Stream(Some(a), true, [], None)], link := Link(Connected(0), {}),
                          reconnector := Waiting, reader := Some(0));
    var s2 := s1.(reader := None, wakes := 1);
    var s3 := s2.(wakes := 0, reconnector := Joining);
    var s4 := s3.(reconnector := Joined);
    assert Reaches(Initial(a), [], Initial(a));
    ReachableStep(Initial(a), Promote(true), s1);
    ReachableStep(s1, ReaderEnds, s2);
    ReachableStep(s2, TakeWake, s3);
    ReachableStep(s3, JoinReader, s4);
    hide Reachable, Next;
    ClearsFirst(a, s4);
    ReachableStep(s4, ClearSlot, Lost(a));
  }

  /** The second connection is open and its Hello has been given viewport a. */
  function Reopened(a: Viewport): State {
    Lost(a).(streams := Lost(a).streams + [Stream(None, false, [], None)], reconnector := ViewportRead(1, a))
  }

  lemma Reopens(a: Viewport)
    ensures Reachable(Reopened(a))
  {
    LosesConnection(a);
    hide Reachable;
    var s1 := Lost(a).(reconnector := Retrying);
    var s2 := Lost(a).(reconnector := Connecting);
    var s3 := Reopened(a).(reconnector := Open(1));
    ReachableStep(Lost(a), CheckAfterClear, s1);
    ReachableStep(s1, CheckRetry, s2);
    ReachableStep(s2, Connect(true), s3);
    ReachableStep(s3, Configure(true), Reopened(a));
  }

  /** Meanwhile the viewport has become b, the call that changed it has returned, and the Hello with a is out. */
  function Greeted(a: Viewport, b: Viewport): State {
    Reopened(a).(viewport := b, clean := a == b, reconnector := HelloWritten(1, a),
                 streams := [Stream(Some(a), true, [], None), Stream(Some(a), false, [], None)])
  }

  lemma Greets(a: Viewport, b: Viewport)
    requires a != b
    ensures Reachable(Greeted(a, b))
  {
    Reopens(a);
    hide Reachable;
    var s1 := Reopened(a).(viewport := b, clean := false, main := ViewportSet(a));
    var s2 := s1.(main := MailboxSet);
    var s3 := s1.(main := Idle);
    ReachableStep(Reopened(a), SetViewport(b), s1);
    ReachableStep(s1, SetMailbox, s2);
    ReachableStep(s2, ReadViewportToken, s3);
    assert s3.streams[1 := Stream(Some(a), false, [], None)] == Greeted(a, b).streams;
    ReachableStep(s3, WriteHello(true), Greeted(a, b));
  }

  /** The pointer, queued under viewport b. */
  function Misplaced(b: Viewport, p: Pointer): Outbound {
    Outbound(1, PointerPayload(p), b, true)
  }

  function Pressed(a: Viewport, b: Viewport, p: Pointer): State {
    Greeted(a, b).(reconnector := Waiting, reader := Some(1), link := Link(Connected(1), {0}), stale := {1},
                   streams := [Stream(Some(a), true, [], None), Stream(Some(a), true, [], None)],
                   log := [Misplaced(b, p)], queue := [Misplaced(b, p)])
  }

  lemma Presses(a: Viewport, b: Viewport, p: Pointer)
    requires a != b
    ensures Reachable(Pressed(a, b, p))
  {
    Greets(a, b);
    hide Reachable;
    var s1 := Pressed(a, b, p).(log := [], queue := []);
    var s2 := s1.(main := PointerToken(1, p));
    assert Greeted(a, b).streams[1 := Stream(Some(a), true, [], None)] == s1.streams;
    assert Greeted(a, b).stale + {1} == s1.stale;
    ReachableStep(Greeted(a, b), Install, s1);
    ReachableStep(s1, BeginPointer(p), s2);
    assert [] + [Misplaced(b, p)] == [Misplaced(b, p)];
    ReachableStep(s2, EnqueuePointer, Pressed(a, b, p));
  }

  /** Delivered: the second stream carries the pointer. */
  function Delivered(a: Viewport, b: Viewport, p: Pointer): State {
    Pressed(a, b, p).(queue := [], done := [Misplaced(b, p)],
                      streams := [Stream(Some(a), true, [], None), Stream(Some(a), true, [Misplaced(b, p)], None)])
  }

  lemma Writes(a: Viewport, b: Viewport, p: Pointer, s: State)
    requires s == Pressed(a, b, p).(queue := [], writer := Cloned(Misplaced(b, p)))
    ensures Next(s, Write(true)) == Some(Delivered(a, b, p))
  {
    var o := Misplaced(b, p);
    assert [] + [o] == [o];
    assert s.streams[1 := Stream(Some(a), true, [o], None)] == Delivered(a, b, p).streams;
  }

  lemma Delivers(a: Viewport, b: Viewport, p: Pointer)
    requires a != b
    ensures Reachable(Delivered(a, b, p))
  {
    Presses(a, b, p);
    hide Reachable;
    var o := Misplaced(b, p);
    var s0 := Pressed(a, b, p);
    var s1 := s0.(queue := [], writer := Received(o));
    var s2 := s1.(writer := Checked(o));
    var s3 := s1.(writer := Cloned(o));
    assert [o][1..] == [];
    ReachableStep(s0, Receive, s1);
    ReachableStep(s1, CheckStopping, s2);
    ReachableStep(s2, CloneStream, s3);
    hide Next;
    Writes(a, b, p, s3);
    ReachableStep(s3, Write(true), Delivered(a, b, p));
  }

  /** A viewport change that falls between the reconnector's read and its install reports success and yet
      never reaches the new session: for any two viewports, a pointer placed in b is delivered to a peer
      whose only geometry is a. */
  lemma RacingChangeReachesPeer(a: Viewport, b: Viewport, p: Pointer)
    requires a != b
    ensures exists s: State ::
      && Reachable(s) && s.viewport == b && s.main.Idle?
      && |s.streams| == 2 && s.streams[1].hello == Some(a) && s.streams[1].sent == [Misplaced(b, p)]
      && LastGeometry(a, s.streams[1].sent[..0]) != s.streams[1].sent[0].at
  {
    Delivers(a, b, p);
    hide Reachable;
    var s := Delivered(a, b, p);
    assert s.streams[1].sent[..0] == [];
  }

  // ---------- On the wire ----------

  function HelloOf(v: Viewport, formats: PixelFormats): Hello {
    Hello(v.width, v.height, formats)
  }

  function SessionMessageOf(p: Payload): SessionMessage
    requires p.PointerPayload? || p.ViewportPayload?
  {
    match p
    case PointerPayload(q) => SessionPointer(q)
    case ViewportPayload(v) => SessionViewport(v)
  }

  ghost predicate SessionPayloads(ms: seq<Outbound>) {
    forall k :: 0 <= k < |ms| ==> ms[k].payload.PointerPayload? || ms[k].payload.ViewportPayload?
  }

  function SessionOf(ms: seq<Outbound>): seq<SessionMessage>
    requires SessionPayloads(ms)
  {
    seq(|ms|, k requires 0 <= k < |ms| => SessionMessageOf(ms[k].payload))
  }

  /** What a message cut short may leave behind: any part of it but all of it. */
  ghost predicate Fragment(cut: Option<Outbound>, tail: seq<byte>) {
    match cut
    case None => tail == []
    case Some(o) => Encode(o.payload).Ok? && tail < Encode(o.payload).value
  }

  /** The messages stamped with one token are all session messages. */
  lemma StampedPayloads(s: State, t: nat)
    requires LogInv(s)
    ensures SessionPayloads(Stamped(s.log, t))
  {
    forall k | 0 <= k < |Stamped(s.log, t)|
      ensures Stamped(s.log, t)[k].payload.PointerPayload? || Stamped(s.log, t)[k].payload.ViewportPayload?
    {
      StampedFromLog(s.log, t, k);
    }
  }

  /** End to end: whatever the interleaving, the host reading a device's stream to its end sees that Hello,
      then exactly the whole messages written to it, then a clean end or one truncated message. */
  lemma HostReadsStream(s: State, t: nat, target: Target, formats: PixelFormats, tail: seq<byte>)
    requires Reachable(s) && Installed(s, t) && formats.Valid()
    requires Fragment(s.streams[t].cut, tail)
    ensures SessionPayloads(s.streams[t].sent)
    ensures var h := HelloOf(s.streams[t].hello.value, formats);
            var body := SessionMessageBytes(SessionOf(s.streams[t].sent)) + tail;
            && ReadSessionHello(target, Encode(HelloPayload(h)).value + body) == Ok(Some(h))
            && ReadSessionMessages(target, body) ==
               (SessionOf(s.streams[t].sent), if tail == [] then None else Some(UnexpectedEof))
  {
    var st := s.streams[t];
    ReachableInv(s);
    StreamsCarryTheirOwn(s, t);
    StampedPayloads(s, t);
    hide Reachable, Stamped, Inv, LogInv, ReadOutcome, Encode, ReadSessionHello, ReadSessionMessages;
    var carried := st.sent + Cut(st);
    assert forall k :: 0 <= k < |carried| ==> carried[k] == Stamped(s.log, t)[k];
    assert forall k :: 0 <= k < |st.sent| ==> st.sent[k] == carried[k];
    if tail != [] {
      assert carried[|st.sent|] == st.cut.value;
      FragmentIncomplete(target, st.cut.value.payload, tail);
    }
    SessionRoundTrip(target, SessionOf(st.sent), tail);
    HelloRead(target, HelloOf(st.hello.value, formats), SessionMessageBytes(SessionOf(st.sent)) + tail);
  }
}
