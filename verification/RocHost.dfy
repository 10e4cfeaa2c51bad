/** The host's half of ROC: registering and unregistering objects, waiting for replies, pinging. A blocking call is
    cut where it waits: it asks first and is resumed when its reply has come. */
module RocHosts {
  import opened Options
  import opened Pins
  import opened RocTargets

  datatype State = Disconnected | Standby | Connected

  /** Which blocking call waits in the event loop. */
  datatype Call = Idle | ConnectCall(owner: nat) | ConstructCall(owner: nat) | DestructCall(owner: nat, id: nat) | UserCall

  /** `objects` and `ids` are the two maps of the controller, `pinging` says that the ping timer runs, and `replied`
      that the event loop was told to end. */
  datatype Host = Host(
    state: State, objects: map<nat, nat>, ids: map<nat, nat>, currentObject: Option<nat>, pinging: bool,
    unansweredPings: nat, call: Call, replied: bool)

  const START: Host := Host(Disconnected, map[], map[], None, false, 0, Idle, false)

  /** A step of the host, with what it sends. There is no result if an assertion fails. */
  type Asking = Option<(Host, seq<Command>)>

  // ------------------------------------------------------------------- calls

  /** sendMessageBlocking, up to the event loop: it asserts that there is a connection. */
  function Ask(h: Host, c: Command, waiting: Call): Asking {
    if h.state == Disconnected then None else Some((h.(call := waiting, replied := false), [c]))
  }

  /** The second half of registerObject. */
  function AskConstruct(h: Host, o: nat): Asking {
    Ask(h.(currentObject := Some(o)), Construct, ConstructCall(o))
  }

  /** registerObject: connecting comes first if this is the first object. */
  function Register(h: Host, o: nat): Asking {
    var standby := if h.state == Disconnected then h.(state := Standby) else h;
    if standby.state == Standby then Ask(standby, Connect, ConnectCall(o)) else AskConstruct(standby, o)
  }

  /** unregisterObject asserts that the id is known. */
  function Unregister(h: Host, o: nat): Asking
    requires o in h.ids
  {
    if h.ids[o] !in h.objects then None else Ask(h, Destruct(h.ids[o]), DestructCall(o, h.ids[o]))
  }

  /** A request of an object; the object is asserted to be known. */
  function SendUser(h: Host, o: nat, request: Request): Asking {
    if o !in h.ids then None else Ask(h, User(h.ids[o], request), UserCall)
  }

  /** The call goes on after its reply. */
  function Resume(h: Host): Asking {
    match h.call
    case Idle => None
    case ConnectCall(o) => AskConstruct(h.(state := Connected, pinging := true), o)
    case ConstructCall(o) => if o in h.ids then Some((h.(call := Idle, replied := false), [])) else None
    case DestructCall(o, id) =>
      var r := h.(objects := h.objects - {id}, ids := h.ids - {o}, call := Idle, replied := false);
      Some((if r.objects == map[] then r.(state := Disconnected, pinging := false) else r, []))
    case UserCall => Some((h.(call := Idle, replied := false), []))
  }

  // ---------------------------------------------------------------- messages

  /** One message in onReadyRead. There is no result if an assertion fails or a null pointer is followed. */
  function Receive(h: Host, r: Reply): Option<Host> {
    var woken := if h.call != Idle && Blocking(r) then h.(replied := true) else h;
    match r
    case StatusOk => Some(woken)
    case ObjectId(id) =>
      if h.currentObject.None? then None
      else
        var o := h.currentObject.value;
        Some(woken.(objects := h.objects[id := o], ids := h.ids[o := id], currentObject := None))
    case Pong => if h.unansweredPings == 0 then None else Some(h.(unansweredPings := h.unansweredPings - 1))
    case Changed(id, _) => if id in h.objects then Some(h) else None
  }

  /** A tick of the ping timer asserts that there is a connection; with three unanswered pings the program gives up
      instead. */
  function Tick(h: Host): Asking
    requires h.unansweredPings <= 2
  {
    if h.state != Connected then None else Some((h.(unansweredPings := h.unansweredPings + 1), [Ping]))
  }

  /** The two maps are inverse. */
  ghost predicate Inverse(h: Host) {
    && (forall id {:trigger id in h.objects} | id in h.objects :: h.objects[id] in h.ids && h.ids[h.objects[id]] == id)
    && (forall o {:trigger o in h.ids} | o in h.ids :: h.ids[o] in h.objects && h.objects[h.ids[o]] == o)
  }
}
