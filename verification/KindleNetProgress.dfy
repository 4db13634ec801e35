/** That the device's transport is never stuck: from every reachable state the queue can be drained, a lost
    connection can be replaced, a call returns, and `Drop` comes to its end. */
module KindleNetProgress {
  import opened Machine
  import opened Connection
  import opened WirePayload
  import opened KindleNet
  import opened KindleNetSafety
  import opened KindleNetRuns
  import opened KindleNetSession

  // ---------- When threads may end or wait ----------

  /** The queue is closed at the end of `Drop` only, and no thread ends before `Drop` has begun. */
  ghost predicate EndInv(s: State) {
    && (s.queueOpen <==> !(s.main.DropClosed? || s.main.Dropped?))
    && (s.writer.WriterExited? ==> s.stopping)
    && (s.reconnector.ReconnectorExited? ==> s.stopping)
  }

  /** A waiting reconnector will be woken: by its reader's end, by a wake already sent, or by `Drop`. */
  ghost predicate WakeInv(s: State) {
    && (s.reconnector.NotStarted? ==> s.reader.None?)
    && (s.reconnector.Waiting? ==> s.reader.Some? || s.wakes > 0)
    && (s.reconnector.Waiting? && (s.main.DropWoken? || s.main.DropClosed? || s.main.Dropped?) ==> s.wakes > 0)
  }

  /** Neither the current stream nor the one being opened has been shut down. */
  ghost predicate FreshInv(s: State) {
    && (forall t :: t in s.link.shut ==> t < |s.streams|)
    && (s.link.slot.Connected? ==> s.link.slot.token !in s.link.shut)
    && (s.reconnector.Open? || Window(s.reconnector) ==>
          s.reconnector.stream !in s.link.shut && s.link.slot != Connected(s.reconnector.stream))
  }

  ghost predicate LiveInv(s: State) {
    EndInv(s) && WakeInv(s) && FreshInv(s)
  }

  lemma MainKeepsEnds(s: State, a: Action)
    requires EndInv(s) && SlotInv(s) && NextMain(s, a).Some?
    ensures EndInv(NextMain(s, a).value)
  {
    hide CurrentToken, Disconnect, Window, ChangePending;
  }

  lemma MainKeepsWakes(s: State, a: Action)
    requires WakeInv(s) && NextMain(s, a).Some?
    ensures WakeInv(NextMain(s, a).value)
  {
    hide CurrentToken, Disconnect, Reconnect, Window, ChangePending;
  }

  lemma MainKeepsFresh(s: State, a: Action)
    requires FreshInv(s) && NamesInv(s) && CandidateInv(s) && NextMain(s, a).Some?
    ensures FreshInv(NextMain(s, a).value)
  {
    hide ChangePending;
  }

  lemma WriterKeepsEnds(s: State, a: Action)
    requires EndInv(s) && WakeInv(s) && SlotInv(s) && NextWriter(s, a).Some?
    ensures EndInv(NextWriter(s, a).value) && WakeInv(NextWriter(s, a).value)
  {
    hide CurrentToken, DisconnectIfCurrent;
  }

  lemma WriterKeepsFresh(s: State, a: Action)
    requires FreshInv(s) && NamesInv(s) && NextWriter(s, a).Some?
    ensures FreshInv(NextWriter(s, a).value)
  {
    WriterKeepsStreams(s, a);
  }

  lemma ReconnectorKeepsEnds(s: State, a: Action)
    requires EndInv(s) && WakeInv(s) && SlotInv(s) && NextReconnector(s, a).Some?
    ensures EndInv(NextReconnector(s, a).value) && WakeInv(NextReconnector(s, a).value)
  {
    hide Disconnect, Reconnect, ChangePending;
  }

  lemma InstallKeepsFresh(s: State, a: Action)
    requires FreshInv(s) && NamesInv(s) && CandidateInv(s) && NextReconnector(s, a).Some? && (a.Install? || a.ClearSlot?)
    ensures FreshInv(NextReconnector(s, a).value)
  {
    hide ChangePending;
  }

  lemma OpeningKeepsFresh(s: State, a: Action)
    requires FreshInv(s) && NamesInv(s) && CandidateInv(s) && NextReconnector(s, a).Some?
    requires !a.Install? && !a.ClearSlot?
    ensures FreshInv(NextReconnector(s, a).value)
  {
    hide ChangePending, Reconnect, Disconnect;
  }

  lemma NextKeepsLive(s: State, a: Action)
    requires Inv(s) && LiveInv(s) && Next(s, a).Some?
    ensures LiveInv(Next(s, a).value)
  {
    hide NextMain, NextWriter, NextReconnector, QueueInv, LogInv, StaleInv, NamesInv, CandidateInv, SlotInv, ShutInv,
         DeliveryInv, GeometryInv, CleanInv, EndInv, FreshInv;
    if a.ReaderEnds? {
      ReaderKeepsLive(s);
    } else if NextMain(s, a).Some? {
      hide WakeInv;
      MainKeepsEnds(s, a);
      MainKeepsWakes(s, a);
      MainKeepsFresh(s, a);
    } else if NextWriter(s, a).Some? {
      hide WakeInv;
      WriterKeepsEnds(s, a);
      WriterKeepsFresh(s, a);
    } else {
      hide WakeInv;
      ReconnectorKeepsEnds(s, a);
      if a.Install? || a.ClearSlot? {
        InstallKeepsFresh(s, a);
      } else {
        OpeningKeepsFresh(s, a);
      }
    }
  }

  lemma ReaderKeepsLive(s: State)
    requires LiveInv(s) && s.reader.Some?
    ensures LiveInv(s.(reader := None, wakes := s.wakes + 1))
  {
  }

  lemma {:induction false} RunKeepsLive(s: State, run: seq<Action>, u: State)
    requires Inv(s) && LiveInv(s) && Reaches(s, run, u)
    ensures Inv(u) && LiveInv(u)
    decreases |run|
  {
    hide Inv, LiveInv, Next;
    if run != [] {
      NextKeepsInv(s, run[0]);
      NextKeepsLive(s, run[0]);
      RunKeepsLive(Next(s, run[0]).value, run[1..], u);
    }
  }

  lemma ReachableLive(s: State)
    requires Reachable(s)
    ensures Inv(s) && LiveInv(s)
  {
    var v: Viewport, run: seq<Action> :| Reaches(Initial(v), run, s);
    InitialInv(v);
    assert LiveInv(Initial(v));
    hide Inv, LiveInv, Reaches;
    RunKeepsLive(Initial(v), run, s);
  }

  /** No thread ends by itself: while nothing is stopping, the writer runs and so does the reconnector. */
  lemma WritersStay(s: State)
    requires Reachable(s) && !s.stopping
    ensures s.queueOpen && !s.writer.WriterExited? && !s.reconnector.ReconnectorExited?
  {
    ReachableLive(s);
    hide Reachable, WakeInv, FreshInv, QueueInv, TokenInv, ShutInv, DeliveryInv, GeometryInv, CleanInv;
  }

  // ---------- Runs, one step at a time ----------

  /** Some run of the given actions leads from s to u. */
  ghost predicate Leads(s: State, run: seq<Action>, u: State, allowed: Action -> bool) {
    Reaches(s, run, u) && forall k :: 0 <= k < |run| ==> allowed(run[k])
  }

  lemma LeadsOn(s: State, a: Action, run: seq<Action>, u: State, allowed: Action -> bool)
    requires Next(s, a).Some? && allowed(a) && Leads(Next(s, a).value, run, u, allowed)
    ensures Leads(s, [a] + run, u, allowed)
  {
    hide Next;
    assert ([a] + run)[1..] == run;
  }

  // ---------- Draining ----------

  predicate Writers(a: Action) {
    a.Receive? || a.CheckStopping? || a.CloneStream? || a.Write? || a.DisconnectFailed?
  }

  /** What the writer does next when every stream that is not shut down takes its message. */
  function DrainAction(s: State): Option<Action> {
    match s.writer
    case Receiving => if s.queue == [] then None else Some(Receive)
    case Received(_) => Some(CheckStopping)
    case Checked(_) => Some(CloneStream)
    case Cloned(o) => Some(Write(o.token !in s.link.shut))
    case WriteFailed(_) => Some(DisconnectFailed)
    case WriterExited => None
  }

  function WriterRank(s: State): nat {
    5 * |s.queue| + match s.writer
                    case Receiving => 0
                    case Received(_) => 4
                    case Checked(_) => 3
                    case Cloned(_) => 2
                    case WriteFailed(_) => 1
                    case WriterExited => 0
  }

  /** The connection is not one the writer is about to give up. */
  predicate Sound(s: State) {
    s.link.slot.Connected? && s.writer != WriteFailed(s.link.slot.token)
  }

  lemma WriterActs(s: State, a: Action)
    requires Writers(a) || a.ChannelClosed?
    ensures NextMain(s, a).None? && Next(s, a) == (if NextWriter(s, a).Some? then NextWriter(s, a) else None)
  {
    hide NextWriter;
  }

  lemma WriterStep(s: State)
    requires DrainAction(s).Some? && !s.stopping
    requires s.writer.Cloned? ==> s.writer.held.token < |s.streams|
    requires s.link.slot.Connected? ==> s.link.slot.token !in s.link.shut
    ensures var a := DrainAction(s).value;
            && Writers(a) && NextWriter(s, a).Some?
            && var u := NextWriter(s, a).value;
               && WriterRank(u) < WriterRank(s) && u.log == s.log && !u.stopping
               && (Sound(s) ==> u.link == s.link && Sound(u))
  {
  }

  lemma HeldIsInstalled(s: State)
    requires Inv(s) && Held(s.writer) != []
    ensures Installed(s, s.writer.held.token)
  {
    hide SlotInv, ShutInv, DeliveryInv, GeometryInv, CleanInv;
    assert s.log[|s.done|] == s.writer.held;
  }

  /** Nothing is left to write, and nothing else has happened. */
  ghost predicate Drained(s: State, u: State) {
    u.queue == [] && u.writer.Receiving? && u.log == s.log && (Sound(s) ==> u.link == s.link)
  }

  lemma {:induction false} DrainsFrom(s: State)
    requires Inv(s) && LiveInv(s) && !s.stopping
    ensures exists run: seq<Action>, u: State :: Leads(s, run, u, Writers) && Drained(s, u)
    decreases WriterRank(s)
  {
    if DrainAction(s).None? {
      assert s.writer.Receiving?;
      hide Inv, LiveInv;
      assert Leads(s, [], s, Writers);
    } else {
      var a := DrainAction(s).value;
      if s.writer.Cloned? {
        HeldIsInstalled(s);
      }
      WriterStep(s);
      WriterActs(s, a);
      NextKeepsInv(s, a);
      NextKeepsLive(s, a);
      hide Inv, LiveInv, Next, DrainAction, WriterRank, Leads;
      var m := Next(s, a).value;
      DrainsFrom(m);
      var run: seq<Action>, u: State :| Leads(m, run, u, Writers) && Drained(m, u);
      LeadsOn(s, a, run, u, Writers);
      assert Drained(s, u);
    }
  }

  lemma {:induction false} ReachesConcat(s: State, run: seq<Action>, m: State, more: seq<Action>, u: State)
    requires Reaches(s, run, m) && Reaches(m, more, u)
    ensures Reaches(s, run + more, u)
    decreases |run|
  {
    hide Next;
    if run == [] {
      assert run + more == more;
    } else {
      assert (run + more)[1..] == run[1..] + more;
      ReachesConcat(Next(s, run[0]).value, run[1..], m, more, u);
    }
  }

  lemma ReachableOn(s: State, run: seq<Action>, u: State)
    requires Reachable(s) && Reaches(s, run, u)
    ensures Reachable(u)
  {
    hide Reaches;
    var v: Viewport, first: seq<Action> :| Reaches(Initial(v), first, s);
    ReachesConcat(Initial(v), first, s, run, u);
  }

  /** From every reachable state, unless it is stopping, the writer alone can empty queue and hands, nothing being
      queued meanwhile. A connection it was not already giving up is then still there, and has been sent everything
      ever queued for it. */
  lemma QueueDrains(s: State)
    requires Reachable(s) && !s.stopping
    ensures exists run: seq<Action>, u: State ::
      && Leads(s, run, u, Writers) && Drained(s, u)
      && (Sound(s) ==> s.link.slot.token < |u.streams|
                       && u.streams[s.link.slot.token].sent == Stamped(s.log, s.link.slot.token))
  {
    ReachableLive(s);
    DrainsFrom(s);
    var run: seq<Action>, u: State :| Leads(s, run, u, Writers) && Drained(s, u);
    ReachableOn(s, run, u);
    hide Reachable, Reaches, Inv, LiveInv, Stamped;
    if Sound(s) {
      NothingLost(u);
    }
  }

  // ---------- Reconnecting ----------

  predicate Others(a: Action) {
    || a.ReaderEnds? || a.TakeWake? || a.JoinReader? || a.ClearSlot? || a.CheckAfterClear? || a.CheckRetry?
    || a.Connect? || a.Configure? || a.WriteHello? || a.Install?
  }

  /** What reader and reconnector do next when the host answers. */
  function RecoverAction(s: State): Action {
    match s.reconnector
    case Waiting => if s.reader.Some? then ReaderEnds else TakeWake
    case Joining => if s.reader.Some? then ReaderEnds else JoinReader
    case Joined => ClearSlot
    case Cleared => CheckAfterClear
    case Retrying => CheckRetry
    case Connecting => Connect(true)
    case Open(_) => Configure(true)
    case ViewportRead(_, _) => WriteHello(true)
    case HelloWritten(_, _) => Install
    case NotStarted => ReaderEnds
    case ReconnectorExited => ReaderEnds
  }

  function RecoverRank(s: State): nat {
    (if s.reader.Some? then 1 else 0) + 2 * match s.reconnector
                                            case Waiting => 9
                                            case Joining => 8
                                            case Joined => 7
                                            case Cleared => 6
                                            case Retrying => 5
                                            case Connecting => 4
                                            case Open(_) => 3
                                            case ViewportRead(_, _) => 2
                                            case HelloWritten(_, _) => 1
                                            case NotStarted => 0
                                            case ReconnectorExited => 0
  }

  lemma RecoverStep(s: State)
    requires s.link.slot.Disconnected? && !s.stopping && (s.reconnector.Waiting? ==> s.reader.Some? || s.wakes > 0)
    requires Window(s.reconnector) ==> s.reconnector.stream < |s.streams|
    requires !s.reconnector.NotStarted? && !s.reconnector.ReconnectorExited?
    ensures var a := RecoverAction(s);
            var u := if a.ReaderEnds? then Some(s.(reader := None, wakes := s.wakes + 1)) else NextReconnector(s, a);
            && Others(a) && (a.ReaderEnds? ==> s.reader.Some?)
            && u.Some? && (u.value.link.slot.Connected? || RecoverRank(u.value) < RecoverRank(s))
            && u.value.main == s.main && u.value.viewport == s.viewport && !u.value.stopping
            && u.value.queue == s.queue && !u.value.reconnector.NotStarted? && !u.value.reconnector.ReconnectorExited?
  {
    hide ChangePending, Disconnect;
  }

  lemma OthersActs(s: State, a: Action)
    requires Others(a)
    ensures Next(s, a) == if !a.ReaderEnds? then NextReconnector(s, a)
                          else if s.reader.Some? then Some(s.(reader := None, wakes := s.wakes + 1)) else None
  {
    hide NextReconnector;
  }

  /** Connected again, and the main thread has not moved. */
  ghost predicate Recovered(s: State, u: State) {
    u.link.slot.Connected? && u.main == s.main && u.viewport == s.viewport && u.queue == s.queue
  }

  lemma {:induction false} RecoversFrom(s: State)
    requires Inv(s) && LiveInv(s) && !s.stopping && !s.reconnector.NotStarted? && !s.reconnector.ReconnectorExited?
    ensures exists run: seq<Action>, u: State :: Leads(s, run, u, Others) && Recovered(s, u)
    decreases if s.link.slot.Connected? then 0 else 1 + RecoverRank(s)
  {
    if s.link.slot.Connected? {
      hide Inv, LiveInv;
      assert Leads(s, [], s, Others);
    } else {
      var a := RecoverAction(s);
      RecoverStep(s);
      OthersActs(s, a);
      NextKeepsInv(s, a);
      NextKeepsLive(s, a);
      hide Inv, LiveInv, Next, RecoverAction, Leads, RecoverRank;
      var m := Next(s, a).value;
      RecoversFrom(m);
      var run: seq<Action>, u: State :| Leads(m, run, u, Others) && Recovered(m, u);
      LeadsOn(s, a, run, u, Others);
      assert Recovered(s, u);
    }
  }

  /** From every reachable state, once started and unless stopping, reader and reconnector alone can lead to a
      connection. */
  lemma Reconnects(s: State)
    requires Reachable(s) && !s.stopping && !s.reconnector.NotStarted?
    ensures exists run: seq<Action>, u: State :: Leads(s, run, u, Others) && Recovered(s, u)
  {
    ReachableLive(s);
    hide Reachable, WakeInv, FreshInv, Inv, Leads;
    RecoversFrom(s);
  }

  // ---------- Calls and Drop ----------

  predicate Calls(a: Action) {
    a.SetMailbox? || a.ReadViewportToken? || a.EnqueueViewport? || a.CloseAfterFull? || a.EnqueuePointer?
  }

  function CallAction(m: Main): Action {
    match m
    case ViewportSet(_) => SetMailbox
    case MailboxSet => ReadViewportToken
    case ViewportToken(_) => EnqueueViewport
    case QueueWasFull => CloseAfterFull
    case _ => EnqueuePointer
  }

  function CallRank(m: Main): nat {
    match m
    case ViewportSet(_) => 4
    case MailboxSet => 3
    case ViewportToken(_) => 2
    case QueueWasFull => 1
    case PointerToken(_, _) => 1
    case _ => 0
  }

  lemma CallStep(s: State)
    requires CallRank(s.main) > 0
    ensures var a := CallAction(s.main);
            && Calls(a) && Next(s, a).Some? && CallRank(Next(s, a).value.main) < CallRank(s.main)
            && !Dropping(Next(s, a).value.main)
  {
    hide NextWriter, NextReconnector, Disconnect, CurrentToken;
  }

  /** No call blocks: whatever the other threads do or do not do, the main thread can finish what it is at. */
  lemma {:induction false} CallsReturn(s: State)
    requires !Dropping(s.main)
    ensures exists run: seq<Action>, u: State :: Leads(s, run, u, Calls) && u.main.Idle?
    decreases CallRank(s.main)
  {
    if CallRank(s.main) == 0 {
      assert Leads(s, [], s, Calls);
    } else {
      var a := CallAction(s.main);
      CallStep(s);
      hide Next, Leads, CallRank;
      CallsReturn(Next(s, a).value);
      var run: seq<Action>, u: State :| Leads(Next(s, a).value, run, u, Calls) && u.main.Idle?;
      LeadsOn(s, a, run, u, Calls);
    }
  }

  /** One call from its first step to its return, nobody else moving. */
  ghost predicate Does(s: State, run: seq<Action>, u: State) {
    Reaches(s, run, u) && u.main.Idle?
  }

  lemma OneStep(s: State, a: Action, m: State, run: seq<Action>, u: State)
    requires Next(s, a) == Some(m) && Reaches(m, run, u)
    ensures Reaches(s, [a] + run, u)
  {
    hide Next;
    assert ([a] + run)[1..] == run;
  }

  /** A pointer sent while connected is stamped for that connection and queued behind what is there, unless the
      queue is full; sent while disconnected, it is dropped. */
  lemma PointerIsQueued(s: State, p: Pointer)
    requires s.main.Idle?
    ensures match s.link.slot
            case Disconnected => Does(s, [BeginPointer(p)], s)
            case Connected(t) =>
              var o := Outbound(t, PointerPayload(p), s.viewport, t in s.stale);
              Does(s, [BeginPointer(p), EnqueuePointer],
                   if |s.queue| < OUTBOUND_QUEUE_CAPACITY then s.(queue := s.queue + [o], log := s.log + [o]) else s)
  {
    hide NextWriter, NextReconnector;
    match s.link.slot {
      case Disconnected =>
        assert Next(s, BeginPointer(p)) == Some(s);
        hide Next;
        assert Reaches(s, [], s);
        OneStep(s, BeginPointer(p), s, [], s);
        assert [BeginPointer(p)] + [] == [BeginPointer(p)];
      case Connected(t) =>
        var m := s.(main := PointerToken(t, p));
        assert Next(s, BeginPointer(p)) == Some(m);
        var u := Next(m, EnqueuePointer).value;
        hide Next;
        assert Reaches(u, [], u);
        OneStep(m, EnqueuePointer, u, [], u);
        OneStep(s, BeginPointer(p), m, [EnqueuePointer], u);
        assert [EnqueuePointer] + [] == [EnqueuePointer];
        assert [BeginPointer(p)] + [EnqueuePointer] == [BeginPointer(p), EnqueuePointer];
    }
  }

  /** A changed viewport is queued for the connection there is, or, when the queue is full, that connection is cut;
      an unchanged one is not sent again, and a disconnected transport keeps it. */
  lemma ViewportIsQueued(s: State, v: Viewport)
    requires s.main.Idle?
    ensures var clean := s.clean && !(v != s.viewport && Window(s.reconnector));
            if v == s.viewport then Does(s, [SetViewport(v), SetMailbox], s)
            else match s.link.slot
              case Disconnected =>
                Does(s, [SetViewport(v), SetMailbox, ReadViewportToken], s.(viewport := v, clean := clean))
              case Connected(t) =>
                var o := Outbound(t, ViewportPayload(v), v, false);
                if |s.queue| < OUTBOUND_QUEUE_CAPACITY then
                  Does(s, [SetViewport(v), SetMailbox, ReadViewportToken, EnqueueViewport],
                       s.(viewport := v, clean := clean, stale := s.stale - {t}, queue := s.queue + [o],
                          log := s.log + [o]))
                else
                  Does(s, [SetViewport(v), SetMailbox, ReadViewportToken, EnqueueViewport, CloseAfterFull],
                       s.(viewport := v, clean := clean, link := Link(Disconnected, s.link.shut + {t})))
  {
    var clean := s.clean && !(v != s.viewport && Window(s.reconnector));
    var m1 := s.(viewport := v, main := ViewportSet(s.viewport), clean := clean);
    SetsViewport(s, v);
    if v == s.viewport {
      hide Next;
      assert Reaches(s, [], s);
      OneStep(m1, SetMailbox, s, [], s);
      OneStep(s, SetViewport(v), m1, [SetMailbox] + [], s);
      assert [SetViewport(v)] + ([SetMailbox] + []) == [SetViewport(v), SetMailbox];
    } else {
      var m2 := m1.(main := MailboxSet);
      hide Next;
      OffersViewport(m2);
      forall rest: seq<Action>, u: State | Reaches(m2, rest, u)
        ensures Reaches(s, [SetViewport(v)] + ([SetMailbox] + rest), u)
      {
        OneStep(m1, SetMailbox, m2, rest, u);
        OneStep(s, SetViewport(v), m1, [SetMailbox] + rest, u);
      }
      assert [SetViewport(v)] + ([SetMailbox] + [ReadViewportToken]) == [SetViewport(v), SetMailbox, ReadViewportToken];
      assert [SetViewport(v)] + ([SetMailbox] + [ReadViewportToken, EnqueueViewport])
             == [SetViewport(v), SetMailbox, ReadViewportToken, EnqueueViewport];
      assert [SetViewport(v)] + ([SetMailbox] + [ReadViewportToken, EnqueueViewport, CloseAfterFull])
             == [SetViewport(v), SetMailbox, ReadViewportToken, EnqueueViewport, CloseAfterFull];
    }
  }

  lemma SetsViewport(s: State, v: Viewport)
    requires s.main.Idle?
    ensures var clean := s.clean && !(v != s.viewport && Window(s.reconnector));
            var m := s.(viewport := v, main := ViewportSet(s.viewport), clean := clean);
            && Next(s, SetViewport(v)) == Some(m)
            && Next(m, SetMailbox) == Some(if v == s.viewport then s else m.(main := MailboxSet))
  {
    hide NextWriter, NextReconnector;
  }

  /** The rest of the call, once the mailbox has been told. */
  lemma OffersViewport(s: State)
    requires s.main.MailboxSet?
    ensures match s.link.slot
            case Disconnected => Reaches(s, [ReadViewportToken], s.(main := Idle))
            case Connected(t) =>
              var o := Outbound(t, ViewportPayload(s.viewport), s.viewport, false);
              if |s.queue| < OUTBOUND_QUEUE_CAPACITY then
                Reaches(s, [ReadViewportToken, EnqueueViewport],
                        s.(main := Idle, stale := s.stale - {t}, queue := s.queue + [o], log := s.log + [o]))
              else
                Reaches(s, [ReadViewportToken, EnqueueViewport, CloseAfterFull],
                        s.(main := Idle, link := Link(Disconnected, s.link.shut + {t})))
  {
    hide NextWriter, NextReconnector;
    match s.link.slot {
      case Disconnected =>
        var u := s.(main := Idle);
        assert Next(s, ReadViewportToken) == Some(u);
        hide Next;
        assert Reaches(u, [], u);
        OneStep(s, ReadViewportToken, u, [], u);
        assert [ReadViewportToken] + [] == [ReadViewportToken];
      case Connected(t) =>
        var m := s.(main := ViewportToken(t));
        assert Next(s, ReadViewportToken) == Some(m);
        var n := Next(m, EnqueueViewport).value;
        if |s.queue| < OUTBOUND_QUEUE_CAPACITY {
          hide Next;
          assert Reaches(n, [], n);
          OneStep(m, EnqueueViewport, n, [], n);
          OneStep(s, ReadViewportToken, m, [EnqueueViewport] + [], n);
          assert [ReadViewportToken] + ([EnqueueViewport] + []) == [ReadViewportToken, EnqueueViewport];
        } else {
          var u := s.(main := Idle, link := Link(Disconnected, s.link.shut + {t}));
          assert Next(n, CloseAfterFull) == Some(u);
          hide Next;
          assert Reaches(u, [], u);
          OneStep(n, CloseAfterFull, u, [], u);
          OneStep(m, EnqueueViewport, n, [CloseAfterFull] + [], u);
          OneStep(s, ReadViewportToken, m, [EnqueueViewport] + ([CloseAfterFull] + []), u);
          assert [ReadViewportToken] + ([EnqueueViewport] + ([CloseAfterFull] + []))
                 == [ReadViewportToken, EnqueueViewport, CloseAfterFull];
        }
    }
  }

  predicate Anything(a: Action) {
    true
  }

  /** What happens next on the shortest way to the end of `Drop`: its own steps, then the writer's way out, then
      the reconnector's. */
  function DropAction(s: State): Action {
    match s.main
    case DropStopping => DropDisconnect
    case DropDisconnected => DropWake
    case DropWoken => DropCloseQueue
    case _ =>
      if !s.writer.WriterExited? then WriterExit(s)
      else if s.reconnector.NotStarted? || s.reconnector.ReconnectorExited? then DropJoin
      else ReconnectorExit(s)
  }

  function WriterExit(s: State): Action {
    match s.writer
    case Receiving => if s.queue == [] then ChannelClosed else Receive
    case Received(_) => CheckStopping
    case Checked(_) => CloneStream
    case Cloned(o) => Write(o.token !in s.link.shut)
    case WriteFailed(_) => DisconnectFailed
    case WriterExited => DropJoin
  }

  function ReconnectorExit(s: State): Action {
    match s.reconnector
    case Connecting => Connect(false)
    case Open(_) => Configure(false)
    case ViewportRead(_, _) => WriteHello(false)
    case _ => RecoverAction(s)
  }

  function MainLeft(m: Main): nat {
    match m
    case DropStopping => 4
    case DropDisconnected => 3
    case DropWoken => 2
    case DropClosed => 1
    case _ => 0
  }

  function WriterLeft(s: State): nat {
    if s.writer.WriterExited? then 0 else 1 + WriterRank(s)
  }

  function ReconnectorLeft(s: State): nat {
    (if s.reader.Some? then 1 else 0) + 2 * match s.reconnector
                                            case Waiting => 5
                                            case Joining => 4
                                            case Joined => 3
                                            case Cleared => 2
                                            case Retrying => 1
                                            case Connecting => 2
                                            case Open(_) => 3
                                            case ViewportRead(_, _) => 3
                                            case HelloWritten(_, _) => 1
                                            case NotStarted => 0
                                            case ReconnectorExited => 0
  }

  predicate Nearer(u: State, s: State) {
    || MainLeft(u.main) < MainLeft(s.main)
    || (u.main == s.main && WriterLeft(u) < WriterLeft(s))
    || (u.main == s.main && WriterLeft(u) == WriterLeft(s) && ReconnectorLeft(u) < ReconnectorLeft(s))
  }

  lemma DropStep(s: State)
    requires Inv(s) && LiveInv(s) && Dropping(s.main) && !s.main.Dropped?
    ensures var a := DropAction(s);
            Next(s, a).Some? && Nearer(Next(s, a).value, s) && Dropping(Next(s, a).value.main)
  {
    DropFacts(s);
    hide Inv, LiveInv, Next, WriterLeft, ReconnectorLeft;
    if !s.main.DropClosed? || (s.writer.WriterExited? && (s.reconnector.NotStarted? || s.reconnector.ReconnectorExited?)) {
      OwnStep(s);
    } else if !s.writer.WriterExited? {
      WriterExits(s);
      WriterActs(s, WriterExit(s));
    } else {
      OthersActs(s, ReconnectorExit(s));
      ReconnectorExits(s);
    }
  }

  lemma DropFacts(s: State)
    requires Inv(s) && LiveInv(s) && Dropping(s.main)
    ensures s.stopping && (s.main.DropClosed? ==> !s.queueOpen)
    ensures s.writer.Cloned? ==> s.writer.held.token < |s.streams|
    ensures s.reconnector.Waiting? ==> s.reader.Some? || s.wakes > 0
    ensures Window(s.reconnector) ==> s.reconnector.stream < |s.streams|
  {
    if s.writer.Cloned? {
      HeldIsInstalled(s);
    }
    hide QueueInv, ShutInv, DeliveryInv, GeometryInv, CleanInv, FreshInv, LogInv;
  }

  lemma OwnStep(s: State)
    requires Dropping(s.main) && !s.main.Dropped?
    requires s.main.DropClosed? ==>
      s.writer.WriterExited? && (s.reconnector.NotStarted? || s.reconnector.ReconnectorExited?)
    ensures var a := DropAction(s);
            && Next(s, a).Some? && MainLeft(Next(s, a).value.main) < MainLeft(s.main)
            && Dropping(Next(s, a).value.main)
  {
    hide NextWriter, NextReconnector, Disconnect, ReconnectorExit;
  }

  lemma WriterExits(s: State)
    requires s.stopping && s.main.DropClosed? && !s.queueOpen && !s.writer.WriterExited?
    requires s.writer.Cloned? ==> s.writer.held.token < |s.streams|
    ensures var r := NextWriter(s, WriterExit(s));
            && r.Some? && r.value.main == s.main && WriterLeft(r.value) < WriterLeft(s)
            && (WriterExit(s).ChannelClosed? || Writers(WriterExit(s)))
  {
    hide DisconnectIfCurrent;
  }

  lemma ReconnectorExits(s: State)
    requires s.stopping && (s.reconnector.Waiting? ==> s.reader.Some? || s.wakes > 0)
    requires Window(s.reconnector) ==> s.reconnector.stream < |s.streams|
    requires !s.reconnector.NotStarted? && !s.reconnector.ReconnectorExited?
    ensures var a := ReconnectorExit(s);
            var u := if a.ReaderEnds? then Some(s.(reader := None, wakes := s.wakes + 1)) else NextReconnector(s, a);
            && Others(a) && (a.ReaderEnds? ==> s.reader.Some?)
            && u.Some? && u.value.main == s.main && WriterLeft(u.value) == WriterLeft(s)
            && ReconnectorLeft(u.value) < ReconnectorLeft(s)
  {
    hide ChangePending, Disconnect, Reconnect;
  }

  lemma {:induction false} DropsFrom(s: State)
    requires Inv(s) && LiveInv(s) && Dropping(s.main)
    ensures exists run: seq<Action>, u: State :: Leads(s, run, u, Anything) && u.main.Dropped?
    decreases MainLeft(s.main), WriterLeft(s), ReconnectorLeft(s)
  {
    if s.main.Dropped? {
      hide Inv, LiveInv;
      assert Leads(s, [], s, Anything);
    } else {
      var a := DropAction(s);
      DropStep(s);
      NextKeepsInv(s, a);
      NextKeepsLive(s, a);
      hide Inv, LiveInv, Next, DropAction, Leads, WriterLeft, ReconnectorLeft;
      var m := Next(s, a).value;
      DropsFrom(m);
      var run: seq<Action>, u: State :| Leads(m, run, u, Anything) && u.main.Dropped?;
      LeadsOn(s, a, run, u, Anything);
    }
  }

  /** `Drop`, once begun, can always come to its end: the writer and the reconnector can be joined. */
  lemma DropEnds(s: State)
    requires Reachable(s) && Dropping(s.main)
    ensures exists run: seq<Action>, u: State :: Leads(s, run, u, Anything) && u.main.Dropped?
  {
    ReachableLive(s);
    hide Reachable, Inv, LiveInv, Leads;
    DropsFrom(s);
  }
}
