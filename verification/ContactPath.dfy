/** A contact from the device's screen to a host action, over lossless in-order delivery with matching
    viewports: `AppState` feeding `ApplicationInput`. */
module ContactPath {
  import opened Machine
  import Screen
  import WirePayload
  import D = DeviceInput
  import H = HostInput
  import ButtonGrid

  /** The device, and the host's tracker for the frame it shows. */
  datatype Path = Path(app: D.App, tracker: H.Tracker)

  function MatchingTracker(size: (u16, u16)): H.Tracker {
    H.WithViewport(Some(Screen.RemoteViewportSize(size)))
  }

  function Start(size: (u16, u16)): Path {
    Path(D.New(size), MatchingTracker(size))
  }

  /** Sides are capped, so different sizes can have one viewport. */
  predicate SameViewport(a: D.App, reported: (u16, u16)) {
    Screen.RemoteViewportSize(reported) == Screen.RemoteViewportSize((a.width, a.height))
  }

  /** The wire form of a remote event. */
  function ToPointer(e: D.RemotePointerEvent): WirePayload.Pointer {
    WirePayload.Pointer(if e.kind == D.Press then WirePayload.Down else WirePayload.Up, e.point.x, e.point.y)
  }

  /** One input at the device: its remote event, if any, is handled by the host. A change of size resets the
      device; the host is told, and answers with a matching frame, only if the viewport changes with it. */
  function PathStep(p: Path, i: D.Input): (Path, Option<H.Activation>) {
    match i
    case Cancel => (p.(app := D.CancelStep(p.app)), None)
    case Configure(reported) =>
      if !D.Resizes(p.app, reported) then (p, None)
      else if SameViewport(p.app, reported) then (p.(app := D.New(reported)), None)
      else (Start(reported), None)
    case Pointer(e) =>
      var (app, outcome) := D.PointerStep(p.app, e);
      if outcome.remote.None? then (p.(app := app), None)
      else
        var (tracker, activation) := H.PointerStep(p.tracker, ToPointer(outcome.remote.value));
        (Path(app, tracker), activation)
  }

  function PathAt(size: (u16, u16), inputs: seq<D.Input>, n: nat): Path
    requires n <= |inputs|
  {
    if n == 0 then Start(size) else PathStep(PathAt(size, inputs, n - 1), inputs[n - 1]).0
  }

  function ActivationAt(size: (u16, u16), inputs: seq<D.Input>, n: nat): Option<H.Activation>
    requires n < |inputs|
  {
    PathStep(PathAt(size, inputs, n), inputs[n]).1
  }

  /** The button under the point of an input, if it is over one. */
  function ButtonUnder(size: (u16, u16), inputs: seq<D.Input>, n: nat): Option<byte>
    requires n < |inputs| && inputs[n].Pointer?
  {
    var a := D.StateAt(size, inputs, n);
    var point := D.PhysicalToRemote(inputs[n].event.point, a.width, a.height);
    var viewport := Screen.RemoteViewportSize((a.width, a.height));
    if point.None? then None else ButtonGrid.ButtonAt(viewport.0, viewport.1, point.value.x, point.value.y)
  }

  /** The last remote event or change of viewport among the first n inputs. */
  function LastDelivery(size: (u16, u16), inputs: seq<D.Input>, n: nat): (r: Option<nat>)
    requires n <= |inputs|
    ensures r.Some? ==> r.value < n
  {
    if n == 0 then None
    else if D.EmitsAt(size, inputs, n - 1) || ReportsAt(size, inputs, n - 1) then Some(n - 1)
    else LastDelivery(size, inputs, n - 1)
  }

  /** The device reports a new viewport to the host. */
  predicate ReportsAt(size: (u16, u16), inputs: seq<D.Input>, n: nat)
    requires n < |inputs|
  {
    && inputs[n].Configure? && D.Resizes(D.StateAt(size, inputs, n), inputs[n].reported)
    && !SameViewport(D.StateAt(size, inputs, n), inputs[n].reported)
  }

  /** The host has no contact outstanding: the last thing it was told, if anything, was not a press. */
  predicate HostIdle(size: (u16, u16), inputs: seq<D.Input>, n: nat)
    requires n <= |inputs|
  {
    var last := LastDelivery(size, inputs, n);
    last.Some? && D.EmitsAt(size, inputs, last.value) ==>
      D.OutcomeAt(size, inputs, last.value).remote.value.kind != D.Press
  }

  // ---------- The joint state ----------

  lemma {:induction false} PathIsTrace(size: (u16, u16), inputs: seq<D.Input>, n: nat)
    requires n <= |inputs|
    ensures var p := PathAt(size, inputs, n);
            && p.app == D.StateAt(size, inputs, n)
            && p.tracker.viewport == MatchingTracker((p.app.width, p.app.height)).viewport
    decreases n
  {
    if n > 0 {
      hide PathStep, D.Step, MatchingTracker;
      PathIsTrace(size, inputs, n - 1);
      StepIsStep(PathAt(size, inputs, n - 1), inputs[n - 1]);
    }
  }

  lemma StepIsStep(p: Path, i: D.Input)
    requires p.tracker.viewport == MatchingTracker((p.app.width, p.app.height)).viewport
    ensures var next := PathStep(p, i).0;
            && next.app == D.Step(p.app, i)
            && next.tracker.viewport == MatchingTracker((next.app.width, next.app.height)).viewport
  {
    hide D.SystemStep, D.RemoteStep, H.Hit, Screen.RemoteViewportSize, ToPointer;
  }

  /** What one input does to the host. */
  lemma TrackerStep(size: (u16, u16), inputs: seq<D.Input>, n: nat)
    requires n < |inputs|
    ensures var t, next := PathAt(size, inputs, n).tracker, PathAt(size, inputs, n + 1).tracker;
            if D.EmitsAt(size, inputs, n) then
              next == H.PointerStep(t, ToPointer(D.OutcomeAt(size, inputs, n).remote.value)).0
            else if ReportsAt(size, inputs, n) then next == MatchingTracker(inputs[n].reported)
            else next == t
  {
    PathIsTrace(size, inputs, n);
    hide D.StateAt, D.SystemStep, D.RemoteStep, H.PointerStep, Screen.RemoteViewportSize, ToPointer;
  }

  /** What input n makes the device tell the host. */
  function MessageAt(size: (u16, u16), inputs: seq<D.Input>, n: nat): Option<H.Input>
    requires n < |inputs|
  {
    if D.EmitsAt(size, inputs, n) then Some(H.Deliver(ToPointer(D.OutcomeAt(size, inputs, n).remote.value)))
    else if ReportsAt(size, inputs, n) then Some(H.SetViewport(Some(Screen.RemoteViewportSize(inputs[n].reported))))
    else None
  }

  lemma MessageHandled(size: (u16, u16), inputs: seq<D.Input>, n: nat)
    requires n < |inputs|
    ensures var t, next := PathAt(size, inputs, n).tracker, PathAt(size, inputs, n + 1).tracker;
            next == if MessageAt(size, inputs, n).Some? then H.Handle(t, MessageAt(size, inputs, n).value) else t
  {
    hide PathAt, D.StateAt, D.OutcomeAt, D.EmitsAt, ReportsAt, H.PointerStep, Screen.RemoteViewportSize;
    TrackerStep(size, inputs, n);
  }

  /** Everything the host is told: the viewport at first and whenever it changes, and the remote events. */
  function Messages(size: (u16, u16), inputs: seq<D.Input>, n: nat): seq<H.Input>
    requires n <= |inputs|
  {
    if n == 0 then [H.SetViewport(Some(Screen.RemoteViewportSize(size)))]
    else
      var message := MessageAt(size, inputs, n - 1);
      Messages(size, inputs, n - 1) + (if message.Some? then [message.value] else [])
  }

  lemma ToldAtStart(size: (u16, u16), inputs: seq<D.Input>)
    ensures var ms := Messages(size, inputs, 0); PathAt(size, inputs, 0).tracker == H.TrackerAt(ms, |ms|)
  {
    hide H.WithViewport, Screen.RemoteViewportSize;
  }

  /** The joint state holds nothing the host could not know: its tracker is the one of those messages. */
  lemma {:induction false} TrackerOfMessages(size: (u16, u16), inputs: seq<D.Input>, n: nat)
    requires n <= |inputs|
    ensures var ms := Messages(size, inputs, n); PathAt(size, inputs, n).tracker == H.TrackerAt(ms, |ms|)
    decreases n
  {
    hide PathAt, MessageAt, H.Handle, H.TrackerAt;
    if n == 0 {
      ToldAtStart(size, inputs);
    } else {
      TrackerOfMessages(size, inputs, n - 1);
      MessageHandled(size, inputs, n - 1);
      H.TrackerAppend(Messages(size, inputs, n - 1), MessageAt(size, inputs, n - 1));
    }
  }

  /** A press is only ever sent from inside a viewport, which is then not empty. */
  lemma PressHasViewport(size: (u16, u16), inputs: seq<D.Input>, n: nat)
    requires n < |inputs| && D.EmitsAt(size, inputs, n)
    requires D.OutcomeAt(size, inputs, n).remote.value.kind == D.Press
    ensures PathAt(size, inputs, n).tracker.viewport.Some?
  {
    PathIsTrace(size, inputs, n);
    D.RemoteStream(size, inputs, n);
    hide PathAt, D.StateAt, D.OutcomeAt, Screen.RemoteViewportSize, D.EmitsAt, D.PhysicalToRemote;
  }

  lemma TrackerIdleStep(size: (u16, u16), inputs: seq<D.Input>, n: nat)
    requires n < |inputs|
    ensures PathAt(size, inputs, n + 1).tracker.contact.Idle? <==>
            if D.EmitsAt(size, inputs, n) then D.OutcomeAt(size, inputs, n).remote.value.kind != D.Press
            else ReportsAt(size, inputs, n) || PathAt(size, inputs, n).tracker.contact.Idle?
  {
    hide PathAt, D.StateAt, D.OutcomeAt, ReportsAt, H.Hit;
    TrackerStep(size, inputs, n);
    if D.EmitsAt(size, inputs, n) && D.OutcomeAt(size, inputs, n).remote.value.kind == D.Press {
      PressHasViewport(size, inputs, n);
    }
  }

  lemma HostIdleStep(size: (u16, u16), inputs: seq<D.Input>, n: nat)
    requires n < |inputs|
    ensures HostIdle(size, inputs, n + 1) <==>
            if D.EmitsAt(size, inputs, n) then D.OutcomeAt(size, inputs, n).remote.value.kind != D.Press
            else ReportsAt(size, inputs, n) || HostIdle(size, inputs, n)
  {
    hide D.OutcomeAt, D.EmitsAt, ReportsAt;
  }

  lemma IdleAtStart(size: (u16, u16), inputs: seq<D.Input>)
    ensures PathAt(size, inputs, 0).tracker.contact.Idle? && HostIdle(size, inputs, 0)
  {
    hide Screen.RemoteViewportSize;
  }

  lemma {:induction false} TrackerIdle(size: (u16, u16), inputs: seq<D.Input>, n: nat)
    requires n <= |inputs|
    ensures PathAt(size, inputs, n).tracker.contact.Idle? <==> HostIdle(size, inputs, n)
    decreases n
  {
    hide PathAt, HostIdle, D.OutcomeAt, D.EmitsAt, ReportsAt;
    if n == 0 {
      IdleAtStart(size, inputs);
    } else {
      TrackerIdle(size, inputs, n - 1);
      TrackerIdleStep(size, inputs, n - 1);
      HostIdleStep(size, inputs, n - 1);
    }
  }

  /** A press that begins a contact at both ends. */
  predicate StartsContact(size: (u16, u16), inputs: seq<D.Input>, n: nat)
    requires n < |inputs|
  {
    D.Primary(inputs[n], D.Press) && !D.Owes(size, inputs, n) && HostIdle(size, inputs, n)
  }

  /** While the device owes a release, its last relevant input is the press, and the host is armed with the
      button under that press if the press began a contact at both ends. */
  lemma {:induction false} ArmedWhileOwing(size: (u16, u16), inputs: seq<D.Input>, n: nat)
    requires n <= |inputs| && D.StateAt(size, inputs, n).remoteActive
    ensures var last := D.LastRelevant(size, inputs, n);
            && last.Some? && D.Primary(inputs[last.value], D.Press) && !D.Owes(size, inputs, last.value)
            && forall id: byte :: PathAt(size, inputs, n).tracker.contact == H.Armed(id) <==>
                 StartsContact(size, inputs, last.value) && ButtonUnder(size, inputs, last.value) == Some(id)
    decreases n
  {
    if D.RelevantAt(size, inputs, n - 1) {
      PressArms(size, inputs, n - 1);
    } else {
      D.IrrelevantKeepsState(size, inputs, n - 1);
      TrackerStep(size, inputs, n - 1);
      IrrelevantIsSilent(size, inputs, n - 1);
      hide PathAt, D.StateAt, D.RelevantAt, D.Owes, StartsContact, ButtonUnder, D.EmitsAt;
      ArmedWhileOwing(size, inputs, n - 1);
    }
  }

  lemma IrrelevantIsSilent(size: (u16, u16), inputs: seq<D.Input>, n: nat)
    requires n < |inputs| && !D.RelevantAt(size, inputs, n)
    ensures !D.EmitsAt(size, inputs, n) && !ReportsAt(size, inputs, n)
  {
    hide D.StateAt, D.SystemStep;
  }

  /** The press itself. */
  lemma PressArms(size: (u16, u16), inputs: seq<D.Input>, n: nat)
    requires n < |inputs| && D.RelevantAt(size, inputs, n) && D.StateAt(size, inputs, n + 1).remoteActive
    ensures D.Primary(inputs[n], D.Press) && !D.Owes(size, inputs, n)
    ensures forall id: byte :: PathAt(size, inputs, n + 1).tracker.contact == H.Armed(id) <==>
              StartsContact(size, inputs, n) && ButtonUnder(size, inputs, n) == Some(id)
  {
    D.ActiveStep(size, inputs, n);
    D.ActiveIsOwing(size, inputs, n);
    D.RemoteStream(size, inputs, n);
    TrackerStep(size, inputs, n);
    TrackerIdle(size, inputs, n);
    PathIsTrace(size, inputs, n);
  }

  /** A release the device sends lands on a button only if the input was a release over that button. */
  lemma ReleaseHits(size: (u16, u16), inputs: seq<D.Input>, n: nat, id: byte)
    requires n < |inputs| && D.EmitsAt(size, inputs, n)
    requires D.OutcomeAt(size, inputs, n).remote.value.kind == D.Release
    ensures var a, e := D.StateAt(size, inputs, n), D.OutcomeAt(size, inputs, n).remote.value;
            var viewport := Screen.RemoteViewportSize((a.width, a.height));
            ButtonGrid.ButtonAt(viewport.0, viewport.1, e.point.x, e.point.y) == Some(id) <==>
              D.Primary(inputs[n], D.Release) && ButtonUnder(size, inputs, n) == Some(id)
  {
    var a := D.StateAt(size, inputs, n);
    var viewport := Screen.RemoteViewportSize((a.width, a.height));
    ButtonGrid.NoButtonOutside(viewport.0, viewport.1, viewport.0, viewport.1);
    hide D.StateAt, ButtonGrid.ButtonAt, Screen.RemoteViewportSize, D.PhysicalToRemote, D.SystemStep;
  }

  /** An activation needs a host viewport, and when there is a button under a point there is one. */
  lemma ButtonNeedsViewport(size: (u16, u16), x: u16, y: u16)
    ensures var viewport := Screen.RemoteViewportSize(size);
            ButtonGrid.ButtonAt(viewport.0, viewport.1, x, y).Some? ==>
              MatchingTracker(size).viewport == Some(viewport)
  {
    var viewport := Screen.RemoteViewportSize(size);
    hide Screen.RemoteViewportSize, ButtonGrid.Cell;
  }

  /** What the host's last step needs. */
  lemma ActivationIs(size: (u16, u16), inputs: seq<D.Input>, n: nat, id: byte)
    requires n < |inputs|
    ensures ActivationAt(size, inputs, n).Some? && ActivationAt(size, inputs, n).value.buttonId == id <==>
            var t := PathAt(size, inputs, n).tracker;
            && D.EmitsAt(size, inputs, n) && D.OutcomeAt(size, inputs, n).remote.value.kind == D.Release
            && t.contact == H.Armed(id) && t.viewport.Some?
            && H.Hit(t.viewport.value, ToPointer(D.OutcomeAt(size, inputs, n).remote.value)) == Some(id)
  {
    PathIsTrace(size, inputs, n);
    var t := PathAt(size, inputs, n).tracker;
    if D.EmitsAt(size, inputs, n) && t.viewport.Some? {
      H.EveryButtonActs(t.viewport.value, ToPointer(D.OutcomeAt(size, inputs, n).remote.value), id);
    }
    hide PathAt, D.StateAt, D.SystemStep, D.RemoteStep, H.Hit, H.ActionForButton;
  }

  /** The last relevant input was a press over the button that began a contact at both ends. */
  predicate StartedOver(size: (u16, u16), inputs: seq<D.Input>, n: nat, id: byte)
    requires n <= |inputs|
  {
    var last := D.LastRelevant(size, inputs, n);
    last.Some? && StartsContact(size, inputs, last.value) && ButtonUnder(size, inputs, last.value) == Some(id)
  }

  /** Such a press is owed its release until something relevant happens. */
  lemma StartedIsActive(size: (u16, u16), inputs: seq<D.Input>, n: nat, id: byte)
    requires n <= |inputs|
    ensures StartedOver(size, inputs, n, id) ==> D.StateAt(size, inputs, n).remoteActive
  {
    var last := D.LastRelevant(size, inputs, n);
    if StartedOver(size, inputs, n, id) {
      D.RemoteStream(size, inputs, last.value);
      D.ActiveStep(size, inputs, last.value);
      D.SizeSinceRelevant(size, inputs, n);
      hide D.StateAt, D.Owes, D.EmitsAt, D.OutcomeAt, HostIdle;
    }
  }

  /** End to end: the host activates a button exactly on a primary release over it, whose last relevant input
      before was a primary press over the same button that began a contact at both ends. */
  lemma HostActivates(size: (u16, u16), inputs: seq<D.Input>, n: nat, id: byte)
    requires n < |inputs|
    ensures ActivationAt(size, inputs, n).Some? && ActivationAt(size, inputs, n).value.buttonId == id <==>
            && D.Primary(inputs[n], D.Release) && ButtonUnder(size, inputs, n) == Some(id)
            && StartedOver(size, inputs, n, id)
  {
    hide ActivationAt, ButtonUnder, StartedOver, D.Primary;
    OnlyThen(size, inputs, n, id);
    Then(size, inputs, n, id);
  }

  lemma OnlyThen(size: (u16, u16), inputs: seq<D.Input>, n: nat, id: byte)
    requires n < |inputs|
    ensures ActivationAt(size, inputs, n).Some? && ActivationAt(size, inputs, n).value.buttonId == id ==>
            && D.Primary(inputs[n], D.Release) && ButtonUnder(size, inputs, n) == Some(id)
            && StartedOver(size, inputs, n, id)
  {
    hide PathAt, ActivationAt, D.StateAt, D.Owes, D.OutcomeAt, HostIdle, D.LastRelevant, ButtonUnder, D.Primary,
         Screen.RemoteViewportSize, StartsContact;
    if ActivationAt(size, inputs, n).Some? && ActivationAt(size, inputs, n).value.buttonId == id {
      ActivationIs(size, inputs, n, id);
      PathIsTrace(size, inputs, n);
      D.RemoteStream(size, inputs, n);
      D.ActiveIsOwing(size, inputs, n);
      ReleaseHits(size, inputs, n, id);
      ArmedWhileOwing(size, inputs, n);
    }
  }

  lemma Then(size: (u16, u16), inputs: seq<D.Input>, n: nat, id: byte)
    requires n < |inputs|
    ensures (D.Primary(inputs[n], D.Release) && ButtonUnder(size, inputs, n) == Some(id)
             && StartedOver(size, inputs, n, id)) ==>
              ActivationAt(size, inputs, n).Some? && ActivationAt(size, inputs, n).value.buttonId == id
  {
    var a := D.StateAt(size, inputs, n);
    hide PathAt, ActivationAt, D.StateAt, D.Owes, D.OutcomeAt, HostIdle, D.LastRelevant, ButtonUnder, D.Primary,
         Screen.RemoteViewportSize, StartsContact;
    if D.Primary(inputs[n], D.Release) && ButtonUnder(size, inputs, n) == Some(id) && StartedOver(size, inputs, n, id) {
      StartedIsActive(size, inputs, n, id);
      D.ActiveIsOwing(size, inputs, n);
      D.RemoteStream(size, inputs, n);
      PathIsTrace(size, inputs, n);
      ReleaseHits(size, inputs, n, id);
      ArmedWhileOwing(size, inputs, n);
      var e := D.OutcomeAt(size, inputs, n).remote.value;
      ButtonNeedsViewport((a.width, a.height), e.point.x, e.point.y);
      ActivationIs(size, inputs, n, id);
    }
  }
}
