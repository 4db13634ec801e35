/** `event_loop` (src/x11/events.rs) over the real mailbox and display objects: turn by turn it does what the
    abstract loop does, so what every run of that keeps holds of the objects. */
module X11Loop {
  import opened Machine
  import Frames
  import opened Screen
  import opened X11Bitmap
  import opened X11Upload
  import X11Server
  import opened X11Display
  import M = Mailbox
  import opened EventLoop

  datatype Event =
    | NoEvent
    | Expose(clears: bool, answers: Answers)
    /** Frames may arrive between telling the mailbox and telling the display. */
    | ConfigureNotify(size: (u16, u16), meanwhile: seq<M.Received>, clears: bool, answers: Answers)

  /** One turn of the loop: what has arrived before it, the answers to the frame it may show, and the event. */
  datatype Turn = Turn(arrived: seq<M.Received>, answers: Answers, event: Event)

  /** What a turn puts on the window: the frame it polled, and what its event redraws. */
  datatype Effect = Effect(shown: Option<Outcome>, drawn: Option<Outcome>)

  /** The reader publishes validated frames only. */
  ghost predicate Valid(frames: seq<M.Received>) {
    forall i :: 0 <= i < |frames| ==> Frames.Valid(frames[i].frame)
  }

  ghost predicate ValidTurn(turn: Turn) {
    Valid(turn.arrived) && (turn.event.ConfigureNotify? ==> Valid(turn.event.meanwhile))
  }

  // ---------- A turn, abstractly ----------

  function ArriveAll(s: Loop, frames: seq<M.Received>): Loop
    decreases |frames|
  {
    if frames == [] then s
    else
      var n := |frames| - 1;
      Mail(ArriveAll(s, frames[..n]), M.Arrive(frames[n]))
  }

  /** The frame the turn polls, if there is one. */
  function Polled(s: Loop, turn: Turn): Option<M.Received> {
    ArriveAll(s, turn.arrived).mailbox.pending
  }

  predicate IsUploaded(o: Option<Outcome>) {
    o.Some? && o.value.shown.Uploaded?
  }

  /** After polling and showing. */
  function Displayed(s: Loop, turn: Turn, o: Effect): Loop {
    var polled := Mail(ArriveAll(s, turn.arrived), M.Take);
    if IsUploaded(o.shown) then polled.(cached := Polled(s, turn)) else polled
  }

  predicate Changes(s: Loop, e: Event) {
    e.ConfigureNotify? && e.size.0 > 0 && e.size.1 > 0 && e.size != s.dimensions
  }

  /** After a change of size: what is cached goes unless it fits. */
  function Resized(s: Loop, size: (u16, u16), meanwhile: seq<M.Received>): Loop {
    var told := ArriveAll(Mail(s, M.Resize(RemoteViewportSize(size))), meanwhile);
    told.(dimensions := size,
          cached := if s.cached.Some? && s.cached.value.Size() != RemoteViewportSize(size) then None else s.cached)
  }

  function TurnEnd(s: Loop, turn: Turn, o: Effect): Loop {
    var shown := Displayed(s, turn, o);
    if Changes(shown, turn.event) then Resized(shown, turn.event.size, turn.event.meanwhile) else shown
  }

  /** What the turn's requests are: the polled frame is attempted, and what is cached then is redrawn after an
      exposure or a change of size. */
  ghost predicate Effected(adapter: Option<Adapter>, s: Loop, turn: Turn, o: Effect)
    requires adapter.Some? ==> adapter.value.Valid()
  {
    var polled, end := Polled(s, turn), TurnEnd(s, turn, o);
    && (o.shown.Some? <==> polled.Some?)
    && (polled.Some? ==> Attempted(adapter, polled.value.frame, turn.answers, o.shown.value))
    && match turn.event
       case NoEvent => o.drawn == None
       case Expose(clears, answers) => o.drawn.Some? && Redrawn(adapter, end.cached, clears, answers, o.drawn.value)
       case ConfigureNotify(_, _, clears, answers) =>
         && (o.drawn.Some? <==> Changes(Displayed(s, turn, o), turn.event))
         && (o.drawn.Some? ==> Redrawn(adapter, end.cached, clears, answers, o.drawn.value))
  }

  ghost predicate Redrawn(adapter: Option<Adapter>, cached: Option<M.Received>, clears: bool, a: Answers, o: Outcome)
    requires adapter.Some? ==> adapter.value.Valid()
  {
    if clears && cached.Some? then
      && adapter.Some? && o.bitmap.Some? && Faithful(adapter.value, o.bitmap.value, cached.value.frame)
      && Issued(o.bitmap.value, a, o.shown, o.requests)
    else o == Outcome(RenderUnavailable, [], None)
  }

  /** The loop after n turns. */
  function LoopAt(size: (u16, u16), turns: seq<Turn>, effects: seq<Effect>, n: nat): Loop
    requires n <= |turns| && n <= |effects|
  {
    if n == 0 then Start(size) else TurnEnd(LoopAt(size, turns, effects, n - 1), turns[n - 1], effects[n - 1])
  }

  // ---------- The objects ----------

  ghost predicate ValidPending(c: M.Contents) {
    c.pending.Some? ==> Frames.Valid(c.pending.value.frame)
  }

  /** The objects are in the abstract state: same mailbox, same dimensions, same frame behind the cache. */
  ghost predicate Mirrors(display: X11DisplayBackend, mailbox: M.FrameMailbox, s: Loop)
    reads display, display.cache, mailbox
  {
    && s.phase.Looping? && mailbox.contents == s.mailbox && ValidPending(s.mailbox)
    && display.Valid() && display.dimensions == s.dimensions
    && CacheIs(display.cache.current, display.picture, s.cached)
  }

  ghost predicate CacheIs(current: Option<CachedFrame>, picture: Frames.Frame, cached: Option<M.Received>) {
    && (current.Some? <==> cached.Some?)
    && (current.Some? ==>
          && current.value.frameId == cached.value.frameId && picture == cached.value.frame
          && (current.value.width, current.value.height) == cached.value.Size())
  }

  /** Frames published by the reader thread. */
  method Arrive(mailbox: M.FrameMailbox, frames: seq<M.Received>, ghost s: Loop)
    requires mailbox.contents == s.mailbox && ValidPending(s.mailbox) && Valid(frames)
    modifies mailbox
    ensures mailbox.contents == ArriveAll(s, frames).mailbox && ValidPending(mailbox.contents)
  {
    hide Frames.Valid;
    for i := 0 to |frames|
      invariant mailbox.contents == ArriveAll(s, frames[..i]).mailbox && ValidPending(mailbox.contents)
    {
      var _ := mailbox.Publish(frames[i]);
      assert frames[..i + 1][..i] == frames[..i];
    }
    assert frames[..|frames|] == frames;
  }

  lemma {:induction false} ArrivalsLeave(s: Loop, frames: seq<M.Received>)
    ensures var u := ArriveAll(s, frames); u == s.(mailbox := u.mailbox, ops := u.ops)
    decreases |frames|
  {
    if frames != [] {
      ArrivalsLeave(s, frames[..|frames| - 1]);
    }
  }

  /** Polling the mailbox and showing what was there. */
  method PollAndShow(display: X11DisplayBackend, mailbox: M.FrameMailbox, turn: Turn, ghost s: Loop)
    returns (o: Option<Outcome>)
    requires Mirrors(display, mailbox, s) && ValidTurn(turn)
    modifies display, display.cache, mailbox
    ensures Mirrors(display, mailbox, Displayed(s, turn, Effect(o, None)))
    ensures o.Some? <==> Polled(s, turn).Some?
    ensures o.Some? ==> Attempted(display.adapter, Polled(s, turn).value.frame, turn.answers, o.value)
  {
    hide Frames.Valid, RemoteViewportSize, X11DisplayBackend.Valid, Attempted;
    ArrivalsLeave(s, turn.arrived);
    hide ArriveAll;
    Arrive(mailbox, turn.arrived, s);
    o := None;
    var taken := mailbox.TakeFrame();
    if taken.Some? {
      var outcome := display.DisplayRemoteFrame(taken.value, turn.answers);
      o := Some(outcome);
    }
  }

  /** The redraw that follows an exposure or a change of size. */
  method Redraw(display: X11DisplayBackend, mailbox: M.FrameMailbox, clears: bool, answers: Answers, ghost s: Loop)
    returns (o: Outcome)
    requires Mirrors(display, mailbox, s)
    ensures Redrawn(display.adapter, s.cached, clears, answers, o)
  {
    hide Chunks, Issued;
    o := display.RedrawCachedFrame(clears, answers);
  }

  /** The window's change of size, if it is one: the mailbox hears of it first, then the display. */
  method Resize(display: X11DisplayBackend, mailbox: M.FrameMailbox, size: (u16, u16), meanwhile: seq<M.Received>,
                ghost s: Loop)
    requires Mirrors(display, mailbox, s) && Valid(meanwhile)
    modifies display, display.cache, mailbox
    ensures Mirrors(display, mailbox, Resized(s, size, meanwhile))
  {
    hide Frames.Valid, RemoteViewportSize, Faithful;
    ghost var told := Mail(s, M.Resize(RemoteViewportSize(size)));
    ArrivalsLeave(told, meanwhile);
    hide ArriveAll;
    mailbox.SetViewport(RemoteViewportSize(size));
    Arrive(mailbox, meanwhile, told);
    var _ := display.SetDimensions(size);
  }

  /** One turn of the loop's body. */
  method RunTurn(display: X11DisplayBackend, mailbox: M.FrameMailbox, turn: Turn, ghost s: Loop) returns (o: Effect)
    requires Mirrors(display, mailbox, s) && ValidTurn(turn)
    modifies display, display.cache, mailbox
    ensures Mirrors(display, mailbox, TurnEnd(s, turn, o)) && Effected(display.adapter, s, turn, o)
  {
    hide Frames.Valid, RemoteViewportSize, X11DisplayBackend.Valid, Attempted, Redrawn, ArriveAll, Resized;
    var shown := PollAndShow(display, mailbox, turn, s);
    ghost var displayed := Displayed(s, turn, Effect(shown, None));
    var drawn: Option<Outcome> := None;
    match turn.event {
      case NoEvent =>
      case Expose(clears, answers) =>
        var redrawn := Redraw(display, mailbox, clears, answers, displayed);
        drawn := Some(redrawn);
      case ConfigureNotify(size, meanwhile, clears, answers) =>
        if size.0 > 0 && size.1 > 0 && size != display.dimensions {
          Resize(display, mailbox, size, meanwhile, displayed);
          var redrawn := Redraw(display, mailbox, clears, answers, Resized(displayed, size, meanwhile));
          drawn := Some(redrawn);
        }
    }
    o := Effect(shown, drawn);
    assert Displayed(s, turn, o) == displayed;
  }

  /** The effects of the first turns, each where the loop then is. */
  ghost predicate Effects(adapter: Option<Adapter>, size: (u16, u16), turns: seq<Turn>, effects: seq<Effect>) {
    && (adapter.Some? ==> adapter.value.Valid())
    && |effects| <= |turns|
    && forall i :: 0 <= i < |effects| ==> Effected(adapter, LoopAt(size, turns, effects, i), turns[i], effects[i])
  }

  /** The loop, whatever arrives, whatever the server answers and whatever events it sends. */
  method RunLoop(display: X11DisplayBackend, mailbox: M.FrameMailbox, turns: seq<Turn>) returns (effects: seq<Effect>)
    requires display.Valid() && display.cache.current == None
    requires mailbox.contents == M.Contents(RemoteViewportSize(display.dimensions), None)
    requires forall i :: 0 <= i < |turns| ==> ValidTurn(turns[i])
    modifies display, display.cache, mailbox
    ensures |effects| == |turns| && Effects(display.adapter, old(display.dimensions), turns, effects)
    ensures Mirrors(display, mailbox, LoopAt(old(display.dimensions), turns, effects, |turns|))
  {
    hide RemoteViewportSize, TurnEnd, ValidTurn, Mirrors, X11DisplayBackend.Valid, LoopAt, Effects, Start;
    ghost var size := display.dimensions;
    effects := [];
    MirrorsStart(display, mailbox, turns);
    for i := 0 to |turns|
      invariant |effects| == i
      invariant Mirrors(display, mailbox, LoopAt(size, turns, effects, i))
      invariant Effects(display.adapter, size, turns, effects)
    {
      var o := RunTurn(display, mailbox, turns[i], LoopAt(size, turns, effects, i));
      EffectsGrow(display.adapter, size, turns, effects, o);
      effects := effects + [o];
    }
  }

  lemma MirrorsStart(display: X11DisplayBackend, mailbox: M.FrameMailbox, turns: seq<Turn>)
    requires display.Valid() && display.cache.current == None
    requires mailbox.contents == M.Contents(RemoteViewportSize(display.dimensions), None)
    ensures Mirrors(display, mailbox, LoopAt(display.dimensions, turns, [], 0))
    ensures Effects(display.adapter, display.dimensions, turns, [])
  {
    hide RemoteViewportSize, Faithful;
  }

  lemma EffectsGrow(adapter: Option<Adapter>, size: (u16, u16), turns: seq<Turn>, effects: seq<Effect>, o: Effect)
    requires |effects| < |turns| && Effects(adapter, size, turns, effects)
    requires Effected(adapter, LoopAt(size, turns, effects, |effects|), turns[|effects|], o)
    ensures Effects(adapter, size, turns, effects + [o])
    ensures LoopAt(size, turns, effects + [o], |effects| + 1)
            == TurnEnd(LoopAt(size, turns, effects, |effects|), turns[|effects|], o)
  {
    hide Effected, TurnEnd;
    forall k | 0 <= k <= |effects|
      ensures LoopAt(size, turns, effects + [o], k) == LoopAt(size, turns, effects, k)
    {
      LoopPrefix(size, turns, effects, o, k);
    }
  }

  /** Later turns do not change where the loop was. */
  lemma {:induction false} LoopPrefix(size: (u16, u16), turns: seq<Turn>, effects: seq<Effect>, o: Effect, n: nat)
    requires n <= |turns| && n <= |effects|
    ensures LoopAt(size, turns, effects + [o], n) == LoopAt(size, turns, effects, n)
    decreases n
  {
    hide TurnEnd;
    if n > 0 {
      LoopPrefix(size, turns, effects, o, n - 1);
    }
  }

  // ---------- What every run of it keeps ----------

  lemma {:induction false} ReachesStep(start: Loop, run: seq<Action>, s: Loop, a: Action)
    requires Reaches(start, run, s) && Next(s, a).Some?
    ensures Reaches(start, run + [a], Next(s, a).value)
    decreases |run|
  {
    hide Next;
    if run == [] {
      var u := Next(s, a).value;
      assert [a][1..] == [] && Reaches(u, [], u);
      assert run + [a] == [a];
    } else {
      ReachesStep(Next(start, run[0]).value, run[1..], s, a);
      assert (run + [a])[1..] == run[1..] + [a];
    }
  }

  /** Some run of the abstract loop leads here. */
  ghost predicate Reachable(size: (u16, u16), s: Loop) {
    exists run: seq<Action> :: Reaches(Start(size), run, s)
  }

  lemma ReachableStep(size: (u16, u16), s: Loop, a: Action)
    requires Reachable(size, s) && Next(s, a).Some?
    ensures Reachable(size, Next(s, a).value)
  {
    var run: seq<Action> :| Reaches(Start(size), run, s);
    hide Next, Reaches;
    ReachesStep(Start(size), run, s, a);
  }

  lemma {:induction false} ReachableArrivals(size: (u16, u16), s: Loop, frames: seq<M.Received>)
    requires Reachable(size, s)
    ensures Reachable(size, ArriveAll(s, frames))
    decreases |frames|
  {
    if frames != [] {
      var n := |frames| - 1;
      hide Reachable;
      ReachableArrivals(size, s, frames[..n]);
      ReachableStep(size, ArriveAll(s, frames[..n]), Arrives(frames[n]));
    }
  }

  /** A turn is a run of the abstract loop. */
  lemma TurnReaches(size: (u16, u16), s: Loop, turn: Turn, o: Effect)
    requires Reachable(size, s) && s.phase.Looping? && (o.shown.Some? <==> Polled(s, turn).Some?)
    ensures Reachable(size, TurnEnd(s, turn, o)) && TurnEnd(s, turn, o).phase.Looping?
  {
    hide Reachable, RemoteViewportSize;
    var arrived := ArriveAll(s, turn.arrived);
    ArrivalsLeave(s, turn.arrived);
    ReachableArrivals(size, s, turn.arrived);
    hide ArriveAll;
    ReachableStep(size, arrived, Poll);
    var polled := Next(arrived, Poll).value;
    if polled.phase.Polled? {
      ReachableStep(size, polled, Show(IsUploaded(o.shown)));
    }
    var shown := Displayed(s, turn, o);
    assert Reachable(size, shown);
    if Changes(shown, turn.event) {
      ResizeReaches(size, shown, turn.event.size, turn.event.meanwhile);
    }
  }

  lemma ResizeReaches(size: (u16, u16), s: Loop, size': (u16, u16), meanwhile: seq<M.Received>)
    requires Reachable(size, s) && s.phase.Looping? && size'.0 > 0 && size'.1 > 0 && size' != s.dimensions
    ensures Reachable(size, Resized(s, size', meanwhile)) && Resized(s, size', meanwhile).phase.Looping?
  {
    hide Reachable, RemoteViewportSize;
    ReachableStep(size, s, Configure(size'));
    var told := Next(s, Configure(size')).value;
    ReachableArrivals(size, told, meanwhile);
    ArrivalsLeave(told, meanwhile);
    ArrivalsLeave(Mail(s, M.Resize(RemoteViewportSize(size'))), meanwhile);
    SameArrivals(told, Mail(s, M.Resize(RemoteViewportSize(size'))), meanwhile);
    hide ArriveAll;
    ReachableStep(size, ArriveAll(told, meanwhile), SetDimensions);
  }

  /** Arrivals depend on the mailbox alone. */
  lemma {:induction false} SameArrivals(s: Loop, u: Loop, frames: seq<M.Received>)
    requires s.mailbox == u.mailbox && s.ops == u.ops
    ensures ArriveAll(s, frames).mailbox == ArriveAll(u, frames).mailbox
    ensures ArriveAll(s, frames).ops == ArriveAll(u, frames).ops
    decreases |frames|
  {
    if frames != [] {
      SameArrivals(s, u, frames[..|frames| - 1]);
    }
  }

  lemma EffectAt(adapter: Option<Adapter>, size: (u16, u16), turns: seq<Turn>, effects: seq<Effect>, n: nat)
    requires Effects(adapter, size, turns, effects) && n < |effects|
    ensures n < |turns| && (adapter.Some? ==> adapter.value.Valid())
    ensures var s := LoopAt(size, turns, effects, n);
            && Effected(adapter, s, turns[n], effects[n])
            && (effects[n].shown.Some? <==> Polled(s, turns[n]).Some?)
            && LoopAt(size, turns, effects, n + 1) == TurnEnd(s, turns[n], effects[n])
  {
    hide TurnEnd, Attempted, Redrawn, ArriveAll;
  }

  lemma LoopStarts(adapter: Option<Adapter>, size: (u16, u16), turns: seq<Turn>, effects: seq<Effect>)
    ensures var s := LoopAt(size, turns, effects, 0);
            Reachable(size, s) && s.phase.Looping? && OnWindow(adapter, s.cached, LastUploaded(effects[..0]))
  {
    hide RemoteViewportSize;
    assert Reaches(Start(size), [], Start(size));
  }

  lemma {:induction false} LoopReaches(adapter: Option<Adapter>, size: (u16, u16), turns: seq<Turn>, effects: seq<Effect>,
                                       n: nat)
    requires Effects(adapter, size, turns, effects) && n <= |effects|
    ensures n <= |turns| && Reachable(size, LoopAt(size, turns, effects, n))
    ensures LoopAt(size, turns, effects, n).phase.Looping?
    decreases n
  {
    hide Effects, Effected, Reachable, TurnEnd, LoopAt, Polled;
    if n == 0 {
      LoopStarts(adapter, size, turns, effects);
    } else {
      EffectAt(adapter, size, turns, effects, n - 1);
      LoopReaches(adapter, size, turns, effects, n - 1);
      TurnReaches(size, LoopAt(size, turns, effects, n - 1), turns[n - 1], effects[n - 1]);
    }
  }

  /** No upload and no redraw ever fails on a coordinate range. */
  lemma NeverOutOfReach(adapter: Option<Adapter>, size: (u16, u16), turns: seq<Turn>, effects: seq<Effect>, n: nat)
    requires Effects(adapter, size, turns, effects) && n < |effects|
    ensures var o := effects[n];
            && (o.shown.Some? ==> o.shown.value.shown != UploadFailed(DestinationOutOfRange))
            && (o.drawn.Some? ==> o.drawn.value.shown != UploadFailed(DestinationOutOfRange))
  {
    LoopReaches(adapter, size, turns, effects, n);
    var s, turn, o := LoopAt(size, turns, effects, n), turns[n], effects[n];
    assert Effected(adapter, s, turn, o);
    hide Effects, LoopAt, Effected;
    ShownInReach(adapter, size, s, turn, o);
    DrawnInReach(adapter, size, s, turn, o);
  }

  lemma ShownInReach(adapter: Option<Adapter>, size: (u16, u16), s: Loop, turn: Turn, o: Effect)
    requires adapter.Some? ==> adapter.value.Valid()
    requires Reachable(size, s) && s.phase.Looping? && Effected(adapter, s, turn, o)
    ensures o.shown.Some? ==> o.shown.value.shown != UploadFailed(DestinationOutOfRange)
  {
    if o.shown.Some? {
      var arrived := ArriveAll(s, turn.arrived);
      ReachableArrivals(size, s, turn.arrived);
      ArrivalsLeave(s, turn.arrived);
      assert Attempted(adapter, arrived.mailbox.pending.value.frame, turn.answers, o.shown.value);
      hide Effected, RemoteViewportSize, ArriveAll, Faithful, Chunks, Issued;
      var run: seq<Action> :| Reaches(Start(size), run, arrived);
      EveryRun(size, run, arrived);
      var polled := arrived.mailbox.pending.value;
      if o.shown.value.bitmap.Some? {
        NeverOutOfRange(adapter.value, o.shown.value.bitmap.value, polled.frame, turn.answers, o.shown.value.shown,
                        o.shown.value.requests, arrived.dimensions);
      }
    }
  }

  lemma DrawnInReach(adapter: Option<Adapter>, size: (u16, u16), s: Loop, turn: Turn, o: Effect)
    requires adapter.Some? ==> adapter.value.Valid()
    requires Reachable(size, s) && s.phase.Looping? && Effected(adapter, s, turn, o)
    ensures o.drawn.Some? ==> o.drawn.value.shown != UploadFailed(DestinationOutOfRange)
  {
    if o.drawn.Some? {
      var end := TurnEnd(s, turn, o);
      assert Redrawn(adapter, end.cached, turn.event.clears, turn.event.answers, o.drawn.value);
      assert o.shown.Some? <==> Polled(s, turn).Some?;
      hide Effected, TurnEnd, RemoteViewportSize, Faithful, Chunks, Issued;
      TurnReaches(size, s, turn, o);
      var run: seq<Action> :| Reaches(Start(size), run, end);
      EveryRun(size, run, end);
      if turn.event.clears && end.cached.Some? {
        NeverOutOfRange(adapter.value, o.drawn.value.bitmap.value, end.cached.value.frame, turn.event.answers,
                        o.drawn.value.shown, o.drawn.value.requests, end.dimensions);
      }
    }
  }

  /** The requests of the last upload or redraw that worked. */
  function LastUploaded(effects: seq<Effect>): Option<seq<Request>> {
    if effects == [] then None
    else
      var n := |effects| - 1;
      if IsUploaded(effects[n].drawn) then Some(effects[n].drawn.value.requests)
      else if IsUploaded(effects[n].shown) then Some(effects[n].shown.value.requests)
      else LastUploaded(effects[..n])
  }

  /** What is cached, if anything, is what these requests show. */
  ghost predicate OnWindow(adapter: Option<Adapter>, cached: Option<M.Received>, last: Option<seq<Request>>) {
    cached.Some? ==>
      && last.Some? && cached.value.frame.format.Mono1? && adapter.Some? && adapter.value.Valid()
      && X11Server.Shows(adapter.value.format, last.value, cached.value.frame)
  }

  /** Whenever a frame is cached, the last upload or redraw that worked has put exactly that frame on the window. */
  lemma {:induction false} CachedIsShown(adapter: Option<Adapter>, size: (u16, u16), turns: seq<Turn>,
                                         effects: seq<Effect>, n: nat)
    requires Effects(adapter, size, turns, effects) && n <= |effects|
    ensures n <= |turns| && OnWindow(adapter, LoopAt(size, turns, effects, n).cached, LastUploaded(effects[..n]))
    decreases n
  {
    hide Effects, Effected, TurnEnd, LoopAt, LastUploaded, OnWindow, Polled, Reachable;
    if n == 0 {
      LoopStarts(adapter, size, turns, effects);
    } else {
      EffectAt(adapter, size, turns, effects, n - 1);
      CachedIsShown(adapter, size, turns, effects, n - 1);
      assert effects[..n] == effects[..n - 1] + [effects[n - 1]];
      TurnOnWindow(adapter, LoopAt(size, turns, effects, n - 1), turns[n - 1], effects[..n - 1], effects[n - 1]);
    }
  }

  lemma TurnOnWindow(adapter: Option<Adapter>, s: Loop, turn: Turn, effects: seq<Effect>, o: Effect)
    requires adapter.Some? ==> adapter.value.Valid()
    requires Effected(adapter, s, turn, o) && OnWindow(adapter, s.cached, LastUploaded(effects))
    ensures OnWindow(adapter, TurnEnd(s, turn, o).cached, LastUploaded(effects + [o]))
  {
    hide Effected, TurnEnd, X11Server.Shows, IsUploaded;
    TurnShows(adapter, s, turn, o);
    assert (effects + [o])[..|effects|] == effects;
  }

  /** What a turn caches it has shown. */
  lemma TurnShows(adapter: Option<Adapter>, s: Loop, turn: Turn, o: Effect)
    requires adapter.Some? ==> adapter.value.Valid()
    requires Effected(adapter, s, turn, o)
    ensures var end := TurnEnd(s, turn, o);
            end.cached.Some? ==>
              if IsUploaded(o.drawn) then
                && adapter.Some? && end.cached.value.frame.format.Mono1?
                && X11Server.Shows(adapter.value.format, o.drawn.value.requests, end.cached.value.frame)
              else if IsUploaded(o.shown) then
                && adapter.Some? && end.cached.value.frame.format.Mono1?
                && X11Server.Shows(adapter.value.format, o.shown.value.requests, end.cached.value.frame)
              else end.cached == s.cached
  {
    var end := TurnEnd(s, turn, o);
    TurnCaches(s, turn, o);
    if end.cached.Some? {
      if IsUploaded(o.drawn) {
        assert Redrawn(adapter, end.cached, turn.event.clears, turn.event.answers, o.drawn.value);
        hide Effected, TurnEnd, X11Server.Shows, Issued, Faithful;
        UploadedShows(adapter.value, o.drawn.value.bitmap.value, end.cached.value.frame, turn.event.answers,
                      o.drawn.value.shown, o.drawn.value.requests);
      } else if IsUploaded(o.shown) {
        var polled := Polled(s, turn).value;
        assert Attempted(adapter, polled.frame, turn.answers, o.shown.value);
        hide Effected, TurnEnd, X11Server.Shows, Issued, Faithful, Polled;
        UploadedShows(adapter.value, o.shown.value.bitmap.value, polled.frame, turn.answers, o.shown.value.shown,
                      o.shown.value.requests);
      }
    }
  }

  /** What is cached after a turn is the polled frame, if that was uploaded, or else what was cached before. */
  lemma TurnCaches(s: Loop, turn: Turn, o: Effect)
    ensures var end := TurnEnd(s, turn, o);
            end.cached.Some? ==> end.cached == if IsUploaded(o.shown) then Polled(s, turn) else s.cached
  {
    hide RemoteViewportSize;
    ArrivalsLeave(s, turn.arrived);
    var shown := Displayed(s, turn, o);
    if Changes(shown, turn.event) {
      ArrivalsLeave(Mail(shown, M.Resize(RemoteViewportSize(turn.event.size))), turn.event.meanwhile);
    }
    hide ArriveAll;
  }
}
