/** Host-owned contact tracking and hit testing (tools/paperspoon/src/application_input.rs). */
module HostInput {
  import opened Machine
  import opened WirePayload
  import opened ButtonGrid

  datatype Contact = Idle | Armed(id: byte) | Cancelled

  datatype Activation = Activation(buttonId: byte, actionId: string)

  /** The fields of `ApplicationInput`. */
  datatype Tracker = Tracker(viewport: Option<(u16, u16)>, contact: Contact)

  /** The actions, by button. */
  const ACTIONS: seq<string> := ["media.play_pause", "media.next", "media.previous", "terminal.new_window", "tmux.work",
                                 "zoom.toggle_mute", "stub.button_7", "stub.button_8", "stub.button_9"]

  function ActionForButton(id: byte): Option<string> {
    match id
    case 1 => Some("media.play_pause")
    case 2 => Some("media.next")
    case 3 => Some("media.previous")
    case 4 => Some("terminal.new_window")
    case 5 => Some("tmux.work")
    case 6 => Some("zoom.toggle_mute")
    case 7 => Some("stub.button_7")
    case 8 => Some("stub.button_8")
    case 9 => Some("stub.button_9")
    case _ => None
  }

  function WithViewport(v: Option<(u16, u16)>): Tracker {
    Tracker(if v.Some? && v.value.0 > 0 && v.value.1 > 0 then v else None, Idle)
  }

  function Hit(v: (u16, u16), p: Pointer): Option<byte> {
    ButtonAt(v.0, v.1, p.x, p.y)
  }

  function PointerStep(t: Tracker, p: Pointer): (Tracker, Option<Activation>) {
    if t.viewport.None? then (t.(contact := Idle), None)
    else
      var hit := Hit(t.viewport.value, p);
      match p.phase
      case Down =>
        (t.(contact := if t.contact == Idle && hit.Some? then Armed(hit.value) else Cancelled), None)
      case Up =>
        (t.(contact := Idle),
         if t.contact.Armed? && hit == Some(t.contact.id) && ActionForButton(t.contact.id).Some?
         then Some(Activation(t.contact.id, ActionForButton(t.contact.id).value)) else None)
  }

  class ApplicationInput {
    var viewport: Option<(u16, u16)>
    var contact: Contact

    ghost function View(): Tracker
      reads this
    {
      Tracker(viewport, contact)
    }

    constructor ()
      ensures View() == Tracker(None, Idle)
    {
      viewport, contact := None, Idle;
    }

    method SetViewport(v: Option<(u16, u16)>)
      modifies this
      ensures View() == WithViewport(v)
    {
      viewport := if v.Some? && v.value.0 > 0 && v.value.1 > 0 then v else None;
      contact := Idle;
    }

    method HandlePointer(p: Pointer) returns (activation: Option<Activation>)
      modifies this
      ensures (View(), activation) == PointerStep(old(View()), p)
    {
      if viewport.None? {
        contact := Idle;
        return None;
      }
      var (width, height) := viewport.value;
      var buttons := ButtonGridOf(width, height);
      var found := FirstHit(buttons, p.x, p.y);
      var hit: Option<byte> := if found.Some? then Some(buttons[found.value].id) else None;
      match p.phase {
        case Down =>
          contact := if contact == Idle && hit.Some? then Armed(hit.value) else Cancelled;
          activation := None;
        case Up =>
          activation := None;
          if contact.Armed? && hit == Some(contact.id) {
            var action := ActionForButton(contact.id);
            activation := if action.Some? then Some(Activation(contact.id, action.value)) else None;
          }
          contact := Idle;
      }
    }
  }

  // ---------- Traces ----------

  datatype Input = SetViewport(viewport: Option<(u16, u16)>) | Deliver(pointer: Pointer)

  function TrackerAt(inputs: seq<Input>, n: nat): Tracker
    requires n <= |inputs|
  {
    if n == 0 then Tracker(None, Idle) else Handle(TrackerAt(inputs, n - 1), inputs[n - 1])
  }

  function Handle(t: Tracker, i: Input): Tracker {
    match i
    case SetViewport(v) => WithViewport(v)
    case Deliver(p) => PointerStep(t, p).0
  }

  /** At most one more message. */
  lemma TrackerAppend(inputs: seq<Input>, i: Option<Input>)
    ensures var more := inputs + (if i.Some? then [i.value] else []);
            var t := TrackerAt(inputs, |inputs|);
            TrackerAt(more, |more|) == if i.Some? then Handle(t, i.value) else t
  {
    hide Handle;
    if i.Some? {
      TrackerPrefix(inputs, i.value, |inputs|);
    } else {
      assert inputs + [] == inputs;
    }
  }

  lemma {:induction false} TrackerPrefix(inputs: seq<Input>, i: Input, n: nat)
    requires n <= |inputs|
    ensures TrackerAt(inputs + [i], n) == TrackerAt(inputs, n)
    decreases n
  {
    hide Handle;
    if n > 0 {
      TrackerPrefix(inputs, i, n - 1);
    }
  }

  function ActivationAt(inputs: seq<Input>, n: nat): Option<Activation>
    requires n < |inputs|
  {
    match inputs[n]
    case SetViewport(_) => None
    case Deliver(p) => PointerStep(TrackerAt(inputs, n), p).1
  }

  predicate Delivers(i: Input, phase: Phase) {
    i.Deliver? && i.pointer.phase == phase
  }

  /** No contact is outstanding: the input before, if any, was not a Down. */
  predicate Quiescent(inputs: seq<Input>, n: nat)
    requires n <= |inputs|
  {
    n > 0 ==> !Delivers(inputs[n - 1], Down)
  }

  lemma {:induction false} ContactAt(inputs: seq<Input>, n: nat)
    requires n <= |inputs| && TrackerAt(inputs, n).viewport.Some?
    ensures TrackerAt(inputs, n).contact.Idle? <==> Quiescent(inputs, n)
    ensures forall id: byte :: TrackerAt(inputs, n).contact == Armed(id) <==>
              n > 0 && Delivers(inputs[n - 1], Down) && Quiescent(inputs, n - 1)
              && Hit(TrackerAt(inputs, n).viewport.value, inputs[n - 1].pointer) == Some(id)
  {
    hide Hit;
    if n > 0 && inputs[n - 1].Deliver? {
      ContactAt(inputs, n - 1);
    }
  }

  /** Every button of the grid has an action, and nothing else does. */
  lemma EveryButtonActs(v: (u16, u16), p: Pointer, id: byte)
    ensures ActionForButton(id).Some? <==> 1 <= id <= 9
    ensures 1 <= id <= 9 ==> ActionForButton(id) == Some(ACTIONS[id - 1])
    ensures Hit(v, p) == Some(id) ==> ActionForButton(id).Some?
  {
    OnlyHit(v.0, v.1, p.x, p.y, id);
    hide ButtonAt;
  }

  /** A button is activated exactly by an Up in it whose input before was a Down in it, itself not preceded by
      another Down. */
  lemma Activates(inputs: seq<Input>, n: nat, id: byte)
    requires n < |inputs|
    ensures ActivationAt(inputs, n).Some? && ActivationAt(inputs, n).value.buttonId == id <==>
            var t := TrackerAt(inputs, n);
            && t.viewport.Some? && n > 0
            && Delivers(inputs[n], Up) && Hit(t.viewport.value, inputs[n].pointer) == Some(id)
            && Delivers(inputs[n - 1], Down) && Hit(t.viewport.value, inputs[n - 1].pointer) == Some(id)
            && Quiescent(inputs, n - 1)
    ensures ActivationAt(inputs, n).Some? ==>
              ActionForButton(ActivationAt(inputs, n).value.buttonId) == Some(ActivationAt(inputs, n).value.actionId)
  {
    hide Hit, ActionForButton, TrackerAt, Quiescent;
    var t := TrackerAt(inputs, n);
    if t.viewport.Some? {
      ContactAt(inputs, n);
      if inputs[n].Deliver? {
        EveryButtonActs(t.viewport.value, inputs[n].pointer, id);
      }
    }
  }
}
