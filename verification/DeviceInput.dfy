/** Contact tracking on the device: the local Exit control and the remote pointer stream
    (src/app.rs, src/ui/system.rs). */
module DeviceInput {
  import opened Machine
  import opened Screen

  const PRIMARY_BUTTON_DETAIL: byte := 1

  datatype Kind = Press | Release

  datatype PointerEvent = PointerEvent(kind: Kind, detail: byte, point: PhysicalPoint)

  datatype ExitContact = Idle | Armed | Cancelled

  datatype RemotePointerEvent = RemotePointerEvent(kind: Kind, point: RemotePoint)

  datatype Outcome = Outcome(exit: bool, remote: Option<RemotePointerEvent>)

  datatype GeometryUpdate = IgnoredZero | Unchanged | Redraw(size: (u16, u16))

  /** The fields of `AppState` and of the `SystemUi` it owns. */
  datatype App = App(width: u16, height: u16, remoteActive: bool, exitContact: ExitContact)

  function New(size: (u16, u16)): App {
    App(size.0, size.1, false, Idle)
  }

  // ---------- One step ----------

  predicate InExit(p: PhysicalPoint, width: u16, height: u16) {
    ExitBounds(width, height).Some? && ExitBounds(width, height).value.Contains(p)
  }

  function SystemStep(c: ExitContact, e: PointerEvent, width: u16, height: u16): (ExitContact, bool) {
    if e.detail != PRIMARY_BUTTON_DETAIL then (c, false)
    else match e.kind
      case Press => (if c == Idle && InExit(e.point, width, height) then Armed else Cancelled, false)
      case Release => (Idle, c == Armed && InExit(e.point, width, height))
  }

  function PhysicalToRemote(p: PhysicalPoint, width: u16, height: u16): Option<RemotePoint> {
    match NewLayout(width, height)
    case None => None
    case Some(s) => s.remoteViewport.ToRelative(p)
  }

  /** The exclusive bottom-right corner: a release nowhere inside the viewport. */
  function CancelPoint(width: u16, height: u16): RemotePoint {
    var size := RemoteViewportSize((width, height));
    RemotePoint(size.0, size.1)
  }

  function RemoteStep(active: bool, e: PointerEvent, width: u16, height: u16): (bool, Option<RemotePointerEvent>) {
    var point := PhysicalToRemote(e.point, width, height);
    if e.detail != PRIMARY_BUTTON_DETAIL then (active, None)
    else match e.kind
      case Press =>
        if active then (false, Some(RemotePointerEvent(Release, CancelPoint(width, height))))
        else if point.None? then (active, None)
        else (true, Some(RemotePointerEvent(Press, point.value)))
      case Release =>
        if active then
          (false, Some(RemotePointerEvent(Release, if point.Some? then point.value else CancelPoint(width, height))))
        else (active, None)
  }

  function PointerStep(a: App, e: PointerEvent): (App, Outcome) {
    var (contact, exit) := SystemStep(a.exitContact, e, a.width, a.height);
    var (active, remote) := RemoteStep(a.remoteActive, e, a.width, a.height);
    (App(a.width, a.height, active, contact), Outcome(exit, remote))
  }

  function CancelStep(a: App): App {
    a.(remoteActive := false, exitContact := Idle)
  }

  predicate Resizes(a: App, reported: (u16, u16)) {
    reported.0 != 0 && reported.1 != 0 && reported != (a.width, a.height)
  }

  function GeometryStep(a: App, reported: (u16, u16)): App {
    if Resizes(a, reported) then New(reported) else a
  }

  // ---------- The objects ----------

  class SystemUi {
    var exitContact: ExitContact

    constructor ()
      ensures exitContact == Idle
    {
      exitContact := Idle;
    }

    method HandlePointer(e: PointerEvent, width: u16, height: u16) returns (exit: bool)
      modifies this
      ensures (exitContact, exit) == SystemStep(old(exitContact), e, width, height)
    {
      if e.detail != PRIMARY_BUTTON_DETAIL {
        return false;
      }
      var bounds := ExitBounds(width, height);
      match e.kind {
        case Press =>
          exitContact :=
            if exitContact == Idle && bounds.Some? && bounds.value.Contains(e.point) then Armed else Cancelled;
          exit := false;
        case Release =>
          exit := exitContact == Armed && bounds.Some? && bounds.value.Contains(e.point);
          exitContact := Idle;
      }
    }

    method CancelContact()
      modifies this
      ensures exitContact == Idle
    {
      exitContact := Idle;
    }
  }

  class AppState {
    var width: u16
    var height: u16
    var remoteContactActive: bool
    const systemUi: SystemUi

    ghost function View(): App
      reads this, systemUi
    {
      App(width, height, remoteContactActive, systemUi.exitContact)
    }

    constructor (size: (u16, u16))
      ensures View() == New(size) && fresh(systemUi)
    {
      width, height := size.0, size.1;
      remoteContactActive := false;
      systemUi := new SystemUi();
    }

    method UpdateGeometry(reported: (u16, u16)) returns (update: GeometryUpdate)
      modifies this, systemUi
      ensures View() == GeometryStep(old(View()), reported)
      ensures update.Redraw? <==> Resizes(old(View()), reported)
      ensures update.Redraw? ==> update.size == (width, height) == reported
      ensures update == IgnoredZero <==> reported.0 == 0 || reported.1 == 0
    {
      if reported.0 == 0 || reported.1 == 0 {
        return IgnoredZero;
      }
      if reported == (width, height) {
        return Unchanged;
      }
      remoteContactActive := false;
      systemUi.CancelContact();
      width, height := reported.0, reported.1;
      update := Redraw((width, height));
    }

    method HandlePointer(e: PointerEvent) returns (outcome: Outcome)
      modifies this, systemUi
      ensures (View(), outcome) == PointerStep(old(View()), e)
    {
      hide ExitBounds, NewLayout;
      var exit := systemUi.HandlePointer(e, width, height);
      var remote := HandleRemotePointer(e, PhysicalToRemote(e.point, width, height),
                                        RemoteViewportSize((width, height)));
      outcome := Outcome(exit, remote);
    }

    method CancelContact()
      modifies this, systemUi
      ensures View() == CancelStep(old(View()))
    {
      remoteContactActive := false;
      systemUi.CancelContact();
    }

    method HandleRemotePointer(e: PointerEvent, point: Option<RemotePoint>, size: (u16, u16))
      returns (remote: Option<RemotePointerEvent>)
      requires point == PhysicalToRemote(e.point, width, height) && size == RemoteViewportSize((width, height))
      modifies this`remoteContactActive
      ensures (remoteContactActive, remote) == RemoteStep(old(remoteContactActive), e, width, height)
    {
      if e.detail != PRIMARY_BUTTON_DETAIL {
        return None;
      }
      var cancelPoint := RemotePoint(size.0, size.1);
      match e.kind {
        case Press =>
          if remoteContactActive {
            remoteContactActive := false;
            return Some(RemotePointerEvent(Release, cancelPoint));
          }
          if point.None? {
            return None;
          }
          remoteContactActive := true;
          remote := Some(RemotePointerEvent(Press, point.value));
        case Release =>
          if !remoteContactActive {
            return None;
          }
          remoteContactActive := false;
          remote := Some(RemotePointerEvent(Release, if point.Some? then point.value else cancelPoint));
      }
    }
  }

  // ---------- Traces ----------

  datatype Input = Pointer(event: PointerEvent) | Cancel | Configure(reported: (u16, u16))

  /** The state after the first n inputs of a fresh application. */
  function StateAt(size: (u16, u16), inputs: seq<Input>, n: nat): App
    requires n <= |inputs|
  {
    if n == 0 then New(size)
    else Step(StateAt(size, inputs, n - 1), inputs[n - 1])
  }

  function Step(a: App, i: Input): App {
    match i
    case Pointer(e) => PointerStep(a, e).0
    case Cancel => CancelStep(a)
    case Configure(reported) => GeometryStep(a, reported)
  }

  function OutcomeAt(size: (u16, u16), inputs: seq<Input>, n: nat): Outcome
    requires n < |inputs|
  {
    match inputs[n]
    case Pointer(e) => PointerStep(StateAt(size, inputs, n), e).1
    case _ => Outcome(false, None)
  }

  predicate Primary(i: Input, k: Kind) {
    i.Pointer? && i.event.detail == PRIMARY_BUTTON_DETAIL && i.event.kind == k
  }

  /** A cancellation, or a configuration that changes the size. */
  predicate Resets(a: App, i: Input) {
    i.Cancel? || (i.Configure? && Resizes(a, i.reported))
  }

  predicate RelevantAt(size: (u16, u16), inputs: seq<Input>, n: nat)
    requires n < |inputs|
  {
    Primary(inputs[n], Press) || Primary(inputs[n], Release) || Resets(StateAt(size, inputs, n), inputs[n])
  }

  /** The last primary event or reset among the first n inputs. */
  function LastRelevant(size: (u16, u16), inputs: seq<Input>, n: nat): (r: Option<nat>)
    requires n <= |inputs|
    ensures r.Some? ==> r.value < n && RelevantAt(size, inputs, r.value)
    ensures forall m :: (if r.Some? then r.value + 1 else 0) <= m < n ==> !RelevantAt(size, inputs, m)
  {
    if n == 0 then None
    else if RelevantAt(size, inputs, n - 1) then Some(n - 1)
    else LastRelevant(size, inputs, n - 1)
  }

  /** No press is outstanding before input n: the last relevant input, if any, is not one. */
  predicate Quiescent(size: (u16, u16), inputs: seq<Input>, n: nat)
    requires n <= |inputs|
  {
    var last := LastRelevant(size, inputs, n);
    last.Some? ==> !Primary(inputs[last.value], Press)
  }

  /** A press that armed Exit: it found no press outstanding and it hit the control. */
  predicate ArmsExit(size: (u16, u16), inputs: seq<Input>, n: nat)
    requires n < |inputs|
  {
    var a := StateAt(size, inputs, n);
    Primary(inputs[n], Press) && Quiescent(size, inputs, n) && InExit(inputs[n].event.point, a.width, a.height)
  }

  /** Nothing irrelevant changes the state. */
  lemma IrrelevantKeepsState(size: (u16, u16), inputs: seq<Input>, n: nat)
    requires n < |inputs| && !RelevantAt(size, inputs, n)
    ensures StateAt(size, inputs, n + 1) == StateAt(size, inputs, n)
  {
    hide InExit, PhysicalToRemote, CancelPoint;
  }

  /** The Exit automaton, read off the trace. */
  lemma {:induction false} ExitContactAt(size: (u16, u16), inputs: seq<Input>, n: nat)
    requires n <= |inputs|
    ensures var last, c := LastRelevant(size, inputs, n), StateAt(size, inputs, n).exitContact;
            && (c == Idle <==> Quiescent(size, inputs, n))
            && (c == Armed <==> last.Some? && ArmsExit(size, inputs, last.value))
    decreases n
  {
    if n > 0 {
      hide InExit, RemoteStep;
      ExitContactAt(size, inputs, n - 1);
      if RelevantAt(size, inputs, n - 1) {
      } else {
        hide ArmsExit, Quiescent, RelevantAt, Step;
        IrrelevantKeepsState(size, inputs, n - 1);
      }
    }
  }

  /** The size does not change between the last relevant input and now. */
  lemma {:induction false} SizeSinceRelevant(size: (u16, u16), inputs: seq<Input>, n: nat)
    requires n <= |inputs|
    ensures var last := LastRelevant(size, inputs, n);
            last.Some? ==> StateAt(size, inputs, last.value + 1) == StateAt(size, inputs, n)
    decreases n
  {
    if n > 0 && !RelevantAt(size, inputs, n - 1) {
      hide RelevantAt, Step;
      SizeSinceRelevant(size, inputs, n - 1);
      IrrelevantKeepsState(size, inputs, n - 1);
    }
  }

  /** Exit fires exactly when a lone primary press and its release both lie in the Exit bounds. */
  lemma ExitFires(size: (u16, u16), inputs: seq<Input>, n: nat)
    requires n < |inputs|
    ensures OutcomeAt(size, inputs, n).exit <==>
            var a, last := StateAt(size, inputs, n), LastRelevant(size, inputs, n);
            && Primary(inputs[n], Release) && InExit(inputs[n].event.point, a.width, a.height)
            && last.Some? && ArmsExit(size, inputs, last.value)
  {
    hide InExit, RemoteStep, ArmsExit, RelevantAt, Step;
    ExitContactAt(size, inputs, n);
  }

  // ---------- The remote stream ----------

  /** A remote contact in progress has cancelled the Exit contact. */
  lemma {:induction false} RemoteCancelsExit(size: (u16, u16), inputs: seq<Input>, n: nat)
    requires n <= |inputs|
    ensures StateAt(size, inputs, n).remoteActive ==> StateAt(size, inputs, n).exitContact == Cancelled
    decreases n
  {
    if n > 0 {
      RemoteCancelsExit(size, inputs, n - 1);
      var a := StateAt(size, inputs, n - 1);
      if inputs[n - 1].Pointer? {
        ExitIsNotRemote(a, inputs[n - 1].event.point);
      }
      hide InExit, PhysicalToRemote, CancelPoint;
    }
  }

  lemma ExitIsNotRemote(a: App, p: PhysicalPoint)
    ensures InExit(p, a.width, a.height) ==> PhysicalToRemote(p, a.width, a.height).None?
  {
    ExitBoundsOwnership(a.width, a.height, p);
    hide ExitBounds;
  }

  /** No input is both an Exit and a remote event. */
  lemma NeverBoth(size: (u16, u16), inputs: seq<Input>, n: nat)
    requires n < |inputs|
    ensures !(OutcomeAt(size, inputs, n).exit && OutcomeAt(size, inputs, n).remote.Some?)
  {
    RemoteCancelsExit(size, inputs, n);
    hide StateAt, InExit, PhysicalToRemote, CancelPoint;
  }

  predicate EmitsAt(size: (u16, u16), inputs: seq<Input>, n: nat)
    requires n < |inputs|
  {
    OutcomeAt(size, inputs, n).remote.Some?
  }

  /** The last remote event or reset among the first n inputs. */
  function LastEmission(size: (u16, u16), inputs: seq<Input>, n: nat): (r: Option<nat>)
    requires n <= |inputs|
    ensures r.Some? ==>
      r.value < n && (EmitsAt(size, inputs, r.value) || Resets(StateAt(size, inputs, r.value), inputs[r.value]))
    ensures forall m :: (if r.Some? then r.value + 1 else 0) <= m < n ==>
      !EmitsAt(size, inputs, m) && !Resets(StateAt(size, inputs, m), inputs[m])
  {
    if n == 0 then None
    else if EmitsAt(size, inputs, n - 1) || Resets(StateAt(size, inputs, n - 1), inputs[n - 1]) then Some(n - 1)
    else LastEmission(size, inputs, n - 1)
  }

  /** The remote stream owes its peer a release: its last word since any reset was a press. */
  predicate Owes(size: (u16, u16), inputs: seq<Input>, n: nat)
    requires n <= |inputs|
  {
    var last := LastEmission(size, inputs, n);
    last.Some? && EmitsAt(size, inputs, last.value) && OutcomeAt(size, inputs, last.value).remote.value.kind == Press
  }

  lemma ActiveStep(size: (u16, u16), inputs: seq<Input>, n: nat)
    requires n < |inputs|
    ensures StateAt(size, inputs, n + 1).remoteActive ==
            if EmitsAt(size, inputs, n) then OutcomeAt(size, inputs, n).remote.value.kind == Press
            else StateAt(size, inputs, n).remoteActive && !Resets(StateAt(size, inputs, n), inputs[n])
    ensures EmitsAt(size, inputs, n) ==> !Resets(StateAt(size, inputs, n), inputs[n])
  {
    hide SystemStep, PhysicalToRemote, CancelPoint;
  }

  lemma OwesStep(size: (u16, u16), inputs: seq<Input>, n: nat)
    requires n < |inputs|
    ensures Owes(size, inputs, n + 1) ==
            if EmitsAt(size, inputs, n) then OutcomeAt(size, inputs, n).remote.value.kind == Press
            else Owes(size, inputs, n) && !Resets(StateAt(size, inputs, n), inputs[n])
  {
    hide StateAt, EmitsAt, OutcomeAt;
    if Resets(StateAt(size, inputs, n), inputs[n]) {
      ActiveStep(size, inputs, n);
    }
    hide Resets;
  }

  lemma OwesAtStart(size: (u16, u16), inputs: seq<Input>)
    ensures !Owes(size, inputs, 0) && !StateAt(size, inputs, 0).remoteActive
  {
  }

  lemma {:induction false} ActiveIsOwing(size: (u16, u16), inputs: seq<Input>, n: nat)
    requires n <= |inputs|
    ensures StateAt(size, inputs, n).remoteActive <==> Owes(size, inputs, n)
    decreases n
  {
    hide StateAt, EmitsAt, OutcomeAt, Resets, Owes;
    if n == 0 {
      OwesAtStart(size, inputs);
    } else {
      ActiveIsOwing(size, inputs, n - 1);
      OwesStep(size, inputs, n - 1);
      ActiveStep(size, inputs, n - 1);
    }
  }

  /** Between resets, remote events alternate: a press exactly when none is owed a release. A press is inside
      the viewport; a release is inside it or at its exclusive corner. Every primary event yields one, save a
      press outside the viewport and a release with nothing to release. */
  lemma RemoteStream(size: (u16, u16), inputs: seq<Input>, n: nat)
    requires n < |inputs|
    ensures EmitsAt(size, inputs, n) <==>
            var a := StateAt(size, inputs, n);
            || (Owes(size, inputs, n) && (Primary(inputs[n], Press) || Primary(inputs[n], Release)))
            || (Primary(inputs[n], Press) && PhysicalToRemote(inputs[n].event.point, a.width, a.height).Some?)
    ensures EmitsAt(size, inputs, n) ==>
            var a, e := StateAt(size, inputs, n), OutcomeAt(size, inputs, n).remote.value;
            var viewport := RemoteViewportSize((a.width, a.height));
            && (e.kind == Press <==> !Owes(size, inputs, n))
            && (|| (e.point.x < viewport.0 && e.point.y < viewport.1
                    && PhysicalToRemote(inputs[n].event.point, a.width, a.height) == Some(e.point))
                || (e.kind == Release && e.point == RemotePoint(viewport.0, viewport.1)))
  {
    ActiveIsOwing(size, inputs, n);
    hide StateAt, Owes, SystemStep;
  }
}
