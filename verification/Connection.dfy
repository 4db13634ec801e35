/** The device's one connection slot (src/net/connection.rs). A stream is named by the token stamped on
    it when it is installed; tokens are never reused. */
module Connection {
  import opened Machine

  datatype Slot = Disconnected | Connected(token: nat)

  /** The slot, and the streams this process has shut down so far. */
  datatype Link = Link(slot: Slot, shut: set<nat>)

  function CurrentToken(l: Link): Option<nat> {
    match l.slot
    case Disconnected => None
    case Connected(token) => Some(token)
  }

  function Disconnect(l: Link): Link {
    match l.slot
    case Disconnected => l
    case Connected(token) => Link(Disconnected, l.shut + {token})
  }

  function DisconnectIfCurrent(l: Link, token: nat): Link {
    if l.slot == Connected(token) then Disconnect(l) else l
  }

  function Reconnect(l: Link, stream: nat): Link {
    Disconnect(l).(slot := Connected(stream))
  }

  /** The slot as the threads share it, every method one critical section. */
  class ConnectionState {
    var link: Link

    constructor ()
      ensures link == Link(Disconnected, {})
    {
      link := Link(Disconnected, {});
    }

    method TakeToken() returns (token: Option<nat>)
      ensures token == CurrentToken(link)
    {
      match link.slot {
        case Disconnected => token := None;
        case Connected(current) => token := Some(current);
      }
    }

    /** `clone_stream_for`: a handle to the stream, provided it is still the one the message was meant for. */
    method CloneStreamFor(candidate: nat) returns (stream: Option<nat>)
      ensures stream == if link.slot == Connected(candidate) then Some(candidate) else None
    {
      match link.slot {
        case Disconnected => stream := None;
        case Connected(current) => stream := if current == candidate then Some(current) else None;
      }
    }

    method Close()
      modifies this
      ensures link == Disconnect(old(link))
    {
      var previous := link.slot;
      link := link.(slot := Disconnected);
      if previous.Connected? {
        link := link.(shut := link.shut + {previous.token});
      }
    }

    method CloseIfCurrent(candidate: nat) returns (closed: bool)
      modifies this
      ensures link == DisconnectIfCurrent(old(link), candidate)
      ensures closed <==> old(link).slot == Connected(candidate)
    {
      if link.slot != Connected(candidate) {
        return false;
      }
      Close();
      closed := true;
    }

    method Replace(stream: nat)
      modifies this
      ensures link == Reconnect(old(link), stream)
    {
      Close();
      link := link.(slot := Connected(stream));
    }
  }
}
