/** The class RocHostController, proved against RocHosts. Its blocking calls run an event loop; here each is a method
    up to the point where it waits, and a method for what it does after its reply. */
module RocHostControllers {
  import opened Options
  import opened Pins
  import opened RocTargets
  import opened RocHosts

  /** All messages that are there, in order, unless one makes an assertion fail. */
  function ReceiveAll(h: Host, messages: seq<Reply>): Option<Host>
    decreases |messages|
  {
    if messages == [] then Some(h)
    else match Receive(h, messages[0])
      case None => None
      case Some(r) => ReceiveAll(r, messages[1..])
  }

  class RocHostController {
    var state: State
    var objects: map<nat, nat>
    var ids: map<nat, nat>
    var currentObject: Option<nat>
    var pinging: bool
    var unansweredPings: nat
    /** The socket: messages that were read but not processed, and messages that were sent. */
    var received: seq<Reply>
    var sent: seq<Command>
    /** The event loop: whether it runs, and whether it was told to end. */
    var call: Call
    var replied: bool

    ghost function H(): Host
      reads this
    {
      Host(state, objects, ids, currentObject, pinging, unansweredPings, call, replied)
    }

    constructor ()
      ensures H() == START && sent == [] && received == []
    {
      state, objects, ids, currentObject, pinging, unansweredPings := Disconnected, map[], map[], None, false, 0;
      received, sent, call, replied := [], [], Idle, false;
    }

    /** sendMessageBlocking, up to the event loop. */
    method SendMessageBlocking(c: Command, waiting: Call)
      requires Ask(H(), c, waiting).Some?
      modifies this`sent, this`call, this`replied
      ensures var r := Ask(old(H()), c, waiting).value; H() == r.0 && sent == old(sent) + r.1
    {
      sent := sent + [c];
      call, replied := waiting, false;
    }

    /** registerObject, up to its first request. */
    method RegisterObject(o: nat)
      requires call == Idle
      modifies this
      ensures Register(old(H()), o).Some?
      ensures var r := Register(old(H()), o).value; H() == r.0 && sent == old(sent) + r.1
    {
      if state == Disconnected {
        state := Standby;
      }
      if state == Standby {
        SendMessageBlocking(Connect, ConnectCall(o));
      } else {
        ConstructObject(o);
      }
    }

    /** The end of registerObject: the request for the object itself. */
    method ConstructObject(o: nat)
      requires AskConstruct(H(), o).Some?
      modifies this
      ensures var r := AskConstruct(old(H()), o).value; H() == r.0 && sent == old(sent) + r.1
    {
      currentObject := Some(o);
      SendMessageBlocking(Construct, ConstructCall(o));
    }

    /** unregisterObject, up to its request. */
    method UnregisterObject(o: nat)
      requires call == Idle && o in ids && Unregister(H(), o).Some?
      modifies this
      ensures var r := Unregister(old(H()), o).value; H() == r.0 && sent == old(sent) + r.1
    {
      SendMessageBlocking(Destruct(ids[o]), DestructCall(o, ids[o]));
    }

    /** sendToTarget of a host object. */
    method SendToTarget(o: nat, request: Request)
      requires call == Idle && SendUser(H(), o, request).Some?
      modifies this
      ensures var r := SendUser(old(H()), o, request).value; H() == r.0 && sent == old(sent) + r.1
    {
      SendMessageBlocking(User(ids[o], request), UserCall);
    }

    /** The event loop has ended: the call that waited goes on. */
    method Proceed()
      requires replied && Resume(H()).Some?
      modifies this
      ensures var r := Resume(old(H())).value; H() == r.0 && sent == old(sent) + r.1
    {
      match call {
        case ConnectCall(o) =>
          state := Connected;
          pinging := true;
          ConstructObject(o);
        case ConstructCall(_) =>
          call, replied := Idle, false;
        case DestructCall(o, id) =>
          objects := objects - {id};
          ids := ids - {o};
          if objects == map[] {
            pinging := false;
            state := Disconnected;
          }
          call, replied := Idle, false;
        case UserCall =>
          call, replied := Idle, false;
      }
    }

    /** Everything that the socket has. */
    method OnReadyRead()
      requires ReceiveAll(H(), received).Some?
      modifies this
      ensures Some(H()) == ReceiveAll(old(H()), old(received))
      ensures received == [] && sent == old(sent)
    {
      while received != []
        invariant sent == old(sent) && ReceiveAll(H(), received) == ReceiveAll(old(H()), old(received))
        decreases |received|
      {
        var message := received[0];
        received := received[1..];
        OnMessage(message);
      }
    }

    /** One message. */
    method OnMessage(message: Reply)
      requires Receive(H(), message).Some?
      modifies this`objects, this`ids, this`currentObject, this`unansweredPings, this`replied
      ensures Some(H()) == Receive(old(H()), message)
    {
      if call != Idle && Blocking(message) {
        replied := true;
      }
      match message {
        case ObjectId(id) =>
          objects := objects[id := currentObject.value];
          ids := ids[currentObject.value := id];
          currentObject := None;
        case StatusOk =>
        case Pong =>
          unansweredPings := unansweredPings - 1;
        case Changed(_, _) =>
      }
    }

    /** The program gives up when three pings are unanswered. */
    method OnPingTimerTick() returns (lost: bool)
      requires state == Connected
      modifies this
      ensures lost == (old(unansweredPings) > 2)
      ensures lost ==> H() == old(H()) && sent == old(sent)
      ensures !lost ==> Tick(old(H())).Some? && var r := Tick(old(H())).value; H() == r.0 && sent == old(sent) + r.1
    {
      if unansweredPings > 2 {
        return true;
      }
      unansweredPings := unansweredPings + 1;
      sent := sent + [Ping];
      return false;
    }
  }
}
