/** Host and probe together, over two channels that lose and reorder nothing. */
module RocRuns {
  import opened Options
  import opened Pins
  import opened RocTargets
  import opened RocHosts

  /** `down` holds the messages on their way to the probe, `up` those on their way to the host. */
  datatype System = System(host: Host, target: Target, down: seq<Command>, up: seq<Reply>)

  /** An edge at a pin comes from an interrupt, which may be earlier than the replies that the main task is still about
      to send: its message is the one at position `at` then. */
  datatype Step =
    | Registers(owner: nat) | Unregisters(owner: nat) | Sends(owner: nat, request: Request) | Resumes
    | HostReceives | Ticks | ProbeReceives(address: nat, level: int) | PinEdge(ioid: nat, level: int, at: nat)

  const BEGIN: System := System(START, IDLE, [], [])

  /** A Destruct for the only object is not finished. */
  predicate LastDestruct(h: Host) {
    h.call.DestructCall? && h.objects.Keys == {h.call.id}
  }

  /** What the environment can do. One request is outstanding at a time; an object is registered, initialised with a
      free number and unregistered once; the allocator returns an address that is not in use. */
  predicate Enabled(s: System, step: Step) {
    match step
    case Registers(o) => s.host.call == Idle && o !in s.host.ids
    case Unregisters(o) => s.host.call == Idle && o in s.host.ids
    case Sends(o, request) => s.host.call == Idle && o in s.host.ids && Ready(s.target, s.host.ids[o], request)
    case Resumes => s.host.replied
    case HostReceives => s.up != []
    case Ticks => MayTick(s.host) && !LastDestruct(s.host)
    case ProbeReceives(address, _) =>
      && s.down != [] && address != 0 && address !in Live(s.target.probes)
      && (s.down[0] == Construct ==> |s.target.probes| < CAPACITY)
    case PinEdge(_, _, at) => at <= |s.up|
  }

  /** The ping timer runs, and does not give up. */
  predicate MayTick(h: Host) {
    h.pinging && h.unansweredPings <= 2
  }

  predicate Ready(t: Target, id: nat, request: Request) {
    Answerable(t.table, id, request) && (request.Init? ==> id !in t.table.instances.Values)
  }

  function Asks(s: System, r: (Host, seq<Command>)): System {
    s.(host := r.0, down := s.down + r.1)
  }

  function AsksIf(s: System, r: Asking): Option<System> {
    match r
    case None => None
    case Some(a) => Some(Asks(s, a))
  }

  function Answers(s: System, r: (Target, seq<Reply>)): System {
    s.(target := r.0, up := s.up + r.1)
  }

  /** The next state, unless host or probe fails. */
  function Next(s: System, step: Step): Option<System>
    requires Enabled(s, step)
  {
    match step
    case Registers(o) => AsksIf(s, Register(s.host, o))
    case Unregisters(o) => AsksIf(s, Unregister(s.host, o))
    case Sends(o, request) => AsksIf(s, SendUser(s.host, o, request))
    case Ticks => AsksIf(s, Tick(s.host))
    case Resumes => AsksIf(s, Resume(s.host))
    case HostReceives => NextReceive(s)
    case ProbeReceives(address, level) => NextProcess(s, address, level)
    case PinEdge(ioid, level, at) => NextEdge(s, ioid, level, at)
  }

  function NextReceive(s: System): Option<System>
    requires s.up != []
  {
    match Receive(s.host, s.up[0])
    case None => None
    case Some(h) => Some(s.(host := h, up := s.up[1..]))
  }

  function NextProcess(s: System, address: nat, level: int): Option<System>
    requires s.down != []
  {
    match Process(s.target, s.down[0], address, level)
    case None => None
    case Some(r) => Some(Answers(s.(down := s.down[1..]), r))
  }

  function NextEdge(s: System, ioid: nat, level: int, at: nat): Option<System>
    requires at <= |s.up|
  {
    match Edge(s.target.table, ioid, level)
    case None => None
    case Some(r) => Some(s.(target := s.target.(table := r.0), up := s.up[..at] + r.1 + s.up[at..]))
  }

  // ---------------------------------------------------------------- channels

  /** The requests among the messages, which the host waits for. */
  function Requests(down: seq<Command>): seq<Command> {
    if down == [] then [] else (if down[0] == Ping then [] else [down[0]]) + Requests(down[1..])
  }

  /** What follows the first request. */
  function AfterRequest(down: seq<Command>): seq<Command> {
    if down == [] then [] else if down[0] == Ping then AfterRequest(down[1..]) else down[1..]
  }

  function AfterReply(up: seq<Reply>): seq<Reply> {
    if up == [] then [] else if Blocking(up[0]) then up[1..] else AfterReply(up[1..])
  }

  function Pings(down: seq<Command>): nat {
    if down == [] then 0 else (if down[0] == Ping then 1 else 0) + Pings(down[1..])
  }

  function Pongs(up: seq<Reply>): nat {
    if up == [] then 0 else (if up[0] == Pong then 1 else 0) + Pongs(up[1..])
  }

  lemma Associate<X>(a: seq<X>, b: seq<X>, c: seq<X>)
    ensures (a + b) + c == a + (b + c) && [] + a == a == a + []
  {
  }

  lemma {:induction false} DownGrows(down: seq<Command>, more: seq<Command>)
    ensures Requests(down + more) == Requests(down) + Requests(more) && Pings(down + more) == Pings(down) + Pings(more)
    ensures AfterRequest(down + more) == if Requests(down) == [] then AfterRequest(more) else AfterRequest(down) + more
  {
    if down == [] {
      assert down + more == more;
    } else {
      assert (down + more)[0] == down[0] && (down + more)[1..] == down[1..] + more;
      DownGrows(down[1..], more);
      Associate(if down[0] == Ping then [] else [down[0]], Requests(down[1..]), Requests(more));
    }
  }

  lemma {:induction false} UpGrows(up: seq<Reply>, more: seq<Reply>)
    ensures Blockings(up + more) == Blockings(up) + Blockings(more) && Pongs(up + more) == Pongs(up) + Pongs(more)
    ensures AfterReply(up + more) == if Blockings(up) == [] then AfterReply(more) else AfterReply(up) + more
  {
    if up == [] {
      assert up + more == more;
    } else {
      assert (up + more)[0] == up[0] && (up + more)[1..] == up[1..] + more;
      UpGrows(up[1..], more);
      Associate(if Blocking(up[0]) then [up[0]] else [], Blockings(up[1..]), Blockings(more));
    }
  }

  // --------------------------------------------------------------- invariant

  ghost predicate Asked(s: System, c: Command) {
    !s.host.replied && Requests(s.down) == [c] && Blockings(s.up) == []
  }

  ghost predicate Answered(s: System) {
    !s.host.replied && Requests(s.down) == [] && |Blockings(s.up)| == 1
  }

  ghost predicate Quiet(s: System) {
    Requests(s.down) == [] && Blockings(s.up) == []
  }

  ghost predicate NoChange(id: nat, up: seq<Reply>) {
    forall r | r in up :: r.Changed? ==> r.id != id
  }

  ghost predicate Steady(s: System) {
    s.host.state == Connected && s.target.connected
  }

  /** Host and probe know the same objects. */
  ghost predicate Agreed(s: System) {
    s.host.currentObject == None && Live(s.target.probes) == s.host.objects.Keys
  }

  ghost predicate IdleStage(s: System) {
    && !s.host.replied && Quiet(s) && Agreed(s)
    && (s.host.objects == map[] ==>
         s.host.state == Disconnected && !s.target.connected && s.down == [] && s.up == [])
    && (s.host.objects != map[] ==> Steady(s))
  }

  ghost predicate ConnectStage(s: System, o: nat) {
    && s.host.state == Standby && s.host.objects == map[] && s.host.ids == map[] && Agreed(s)
    && (s.host.replied ==> s.down == [] && s.up == [] && s.target.connected)
    && (!s.host.replied ==>
         (s.down == [Connect] && s.up == []) || (s.down == [] && s.up == [StatusOk] && s.target.connected))
  }

  ghost predicate ConstructStage(s: System, o: nat) {
    && Steady(s)
    && (s.host.replied ==> Quiet(s) && Agreed(s) && o in s.host.ids)
    && (!s.host.replied ==>
         && o !in s.host.ids && s.host.currentObject == Some(o)
         && ((Asked(s, Construct) && Live(s.target.probes) == s.host.objects.Keys)
             || (Answered(s) && Constructed(s, Blockings(s.up)[0]))))
  }

  ghost predicate Constructed(s: System, r: Reply) {
    r.ObjectId? && r.id !in s.host.objects && Live(s.target.probes) == s.host.objects.Keys + {r.id}
  }

  ghost predicate DestructStage(s: System, o: nat, id: nat) {
    && s.host.state == Connected && s.host.currentObject == None && o in s.host.ids && s.host.ids[o] == id
    && (s.host.replied ==>
         && Quiet(s) && Destructed(s, id) && NoChange(id, s.up)
         && (LastDestruct(s.host) ==> s.down == [] && s.up == []))
    && (!s.host.replied ==> DestructAsked(s, id) || DestructAnswered(s, id))
  }

  ghost predicate DestructAsked(s: System, id: nat) {
    && Asked(s, Destruct(id)) && s.target.connected && Live(s.target.probes) == s.host.objects.Keys
    && (LastDestruct(s.host) ==> AfterRequest(s.down) == [])
  }

  ghost predicate DestructAnswered(s: System, id: nat) {
    && Answered(s) && Blockings(s.up)[0] == StatusOk && Destructed(s, id) && NoChange(id, AfterReply(s.up))
    && (LastDestruct(s.host) ==> s.down == [] && AfterReply(s.up) == [])
  }

  ghost predicate Destructed(s: System, id: nat) {
    && Live(s.target.probes) == s.host.objects.Keys - {id} && s.target.connected == (Live(s.target.probes) != {})
  }

  ghost predicate UserStage(s: System) {
    && Steady(s) && Agreed(s) && s.host.objects != map[]
    && (s.host.replied ==> Quiet(s))
    && (!s.host.replied ==>
         || (|Requests(s.down)| == 1 && UserAsked(s, Requests(s.down)[0]) && Blockings(s.up) == [])
         || (Answered(s) && Blockings(s.up)[0] == StatusOk))
  }

  ghost predicate UserAsked(s: System, c: Command) {
    c.User? && c.id in s.host.objects && Ready(s.target, c.id, c.request)
  }

  ghost predicate Stage(s: System) {
    match s.host.call
    case Idle => IdleStage(s)
    case ConnectCall(o) => ConnectStage(s, o)
    case ConstructCall(o) => ConstructStage(s, o)
    case DestructCall(o, id) => DestructStage(s, o, id)
    case UserCall => UserStage(s)
  }

  /** Unanswered pings are on their way, as pings or as pongs. */
  ghost predicate Counted(s: System) {
    s.host.unansweredPings == Pings(s.down) + Pongs(s.up) && s.host.unansweredPings <= 3
  }

  /** Messages and pins name registered objects only. */
  ghost predicate Known(s: System) {
    && (forall r | r in s.up :: r.Changed? ==> r.id in s.host.objects)
    && (forall k | k in s.target.table.instances :: s.target.table.instances[k] in s.host.objects)
  }

  ghost predicate Good(s: System) {
    (s.host.pinging <==> s.host.state == Connected) && Inverse(s.host) && Valid(s.target) && Counted(s) && Known(s) && Stage(s)
  }

  lemma BeginGood()
    ensures Good(BEGIN)
  {
    assert Live([]) == {};
  }

  // ------------------------------------------------------------------- steps

  lemma RegistersGood(s: System, o: nat)
    requires Good(s) && Enabled(s, Registers(o))
    ensures Next(s, Registers(o)).Some? && Good(Next(s, Registers(o)).value)
  {
    DownGrows(s.down, Register(s.host, o).value.1);
  }

  lemma UnregistersGood(s: System, o: nat)
    requires Good(s) && Enabled(s, Unregisters(o))
    ensures Next(s, Unregisters(o)).Some? && Good(Next(s, Unregisters(o)).value)
  {
    DownGrows(s.down, Unregister(s.host, o).value.1);
  }

  lemma SendsGood(s: System, o: nat, request: Request)
    requires Good(s) && Enabled(s, Sends(o, request))
    ensures Next(s, Sends(o, request)).Some? && Good(Next(s, Sends(o, request)).value)
  {
    DownGrows(s.down, SendUser(s.host, o, request).value.1);
  }

  /** One more ping on its way, and one more unanswered: that is all. */
  lemma TickStage(s: System, t: System)
    requires Stage(s) && MayTick(s.host) && s.host.state == Connected && !LastDestruct(s.host)
    requires t.host == s.host.(unansweredPings := t.host.unansweredPings) && t.target == s.target && t.up == s.up
    requires Requests(t.down) == Requests(s.down)
    ensures Stage(t)
  {
  }

  lemma TicksGood(s: System)
    requires Good(s) && Enabled(s, Ticks)
    ensures Next(s, Ticks).Some? && Good(Next(s, Ticks).value)
  {
    var t := Next(s, Ticks).value;
    DownGrows(s.down, [Ping]);
    assert Requests([Ping]) == [] && Pings([Ping]) == 1;
    Associate(Requests(s.down), [], []);
    TickStage(s, t);
  }

  lemma ResumeConnect(s: System, t: System)
    requires Good(s) && s.host.call.ConnectCall? && s.host.replied
    requires Resume(s.host).Some? && t == Asks(s, Resume(s.host).value)
    ensures Good(t)
  {
    assert s.down + [Construct] == [Construct];
    assert [Construct][1..] == [];
  }

  lemma ResumeDestruct(s: System, t: System)
    requires Good(s) && s.host.call.DestructCall? && s.host.replied
    requires Resume(s.host).Some? && t == Asks(s, Resume(s.host).value)
    ensures Good(t)
  {
    var id := s.host.call.id;
    assert t.down == s.down;
    assert t.host.objects == s.host.objects - {id} && t.host.objects.Keys == s.host.objects.Keys - {id};
    ForgetInverse(s.host, t.host, s.host.call.owner, id);
    assert s.host.objects.Keys == {id} <==> t.host.objects == map[];
    assert Quiet(t) && Agreed(t);
    KnownWithout(s, t, id);
  }

  lemma KnownWithout(s: System, t: System, id: nat)
    requires Known(s) && Valid(s.target) && t.target == s.target && t.up == s.up && NoChange(id, s.up)
    requires Live(s.target.probes) == s.host.objects.Keys - {id} == t.host.objects.Keys
    ensures Known(t)
  {
  }

  lemma ForgetInverse(h: Host, g: Host, o: nat, id: nat)
    requires Inverse(h) && o in h.ids && h.ids[o] == id && g.objects == h.objects - {id} && g.ids == h.ids - {o}
    ensures Inverse(g)
  {
  }

  lemma ResumeOther(s: System, t: System)
    requires Good(s) && (s.host.call.ConstructCall? || s.host.call.UserCall?) && s.host.replied
    requires Resume(s.host).Some? && t == Asks(s, Resume(s.host).value)
    ensures Good(t)
  {
    assert t.down == s.down;
  }

  lemma ResumesGood(s: System)
    requires Good(s) && Enabled(s, Resumes)
    ensures Next(s, Resumes).Some? && Good(Next(s, Resumes).value)
  {
    var t := Asks(s, Resume(s.host).value);
    match s.host.call
    case Idle =>
    case ConnectCall(_) => ResumeConnect(s, t);
    case DestructCall(_, _) => ResumeDestruct(s, t);
    case _ => ResumeOther(s, t);
  }

  // ---------------------------------------------------- messages to the host

  lemma ReceivesGood(s: System)
    requires Good(s) && Enabled(s, HostReceives)
    ensures Next(s, HostReceives).Some? && Good(Next(s, HostReceives).value)
  {
    match s.up[0]
    case StatusOk => ReceiveStatus(s);
    case ObjectId(_) => ReceiveObject(s);
    case Pong => ReceivePong(s);
    case Changed(_, _) => ReceiveChange(s);
  }

  lemma ReceiveStatus(s: System)
    requires Good(s) && s.up != [] && s.up[0].StatusOk?
    ensures NextReceive(s).Some? && Good(NextReceive(s).value)
  {
    StatusStage(s, NextReceive(s).value);
    StillKnown(s, NextReceive(s).value);
  }

  /** StatusOk ends the call that waits for it. */
  lemma StatusStage(s: System, t: System)
    requires Stage(s) && s.up != [] && s.up[0] == StatusOk && t.down == s.down && t.up == s.up[1..]
    requires t.target == s.target && t.host == if s.host.call != Idle then s.host.(replied := true) else s.host
    ensures Stage(t)
  {
    assert Blockings(s.up) == [s.up[0]] + Blockings(s.up[1..]);
    assert |Blockings(s.up)| >= 1 && Blockings(s.up)[0] == StatusOk && AfterReply(s.up) == s.up[1..];
  }

  /** The id of a new object comes while the host waits for it. */
  lemma ObjectAwaited(s: System)
    requires Stage(s) && s.up != [] && s.up[0].ObjectId?
    ensures s.host.call.ConstructCall? && s.host.currentObject == Some(s.host.call.owner)
    ensures s.host.call.owner !in s.host.ids && Steady(s) && Requests(s.down) == [] && Blockings(s.up[1..]) == []
    ensures s.up[0].id !in s.host.objects && Live(s.target.probes) == s.host.objects.Keys + {s.up[0].id}
  {
    assert Blockings(s.up) == [s.up[0]] + Blockings(s.up[1..]);
    assert Blockings(s.up)[0] == s.up[0];
  }

  lemma ReceiveObject(s: System)
    requires Good(s) && s.up != [] && s.up[0].ObjectId?
    ensures NextReceive(s).Some? && Good(NextReceive(s).value)
  {
    ObjectAwaited(s);
    var t := ObjectNext(s);
    ObjectReceived(s, t);
  }

  lemma ObjectNext(s: System) returns (t: System)
    requires s.up != [] && s.up[0].ObjectId? && s.host.call.ConstructCall?
    requires s.host.currentObject == Some(s.host.call.owner)
    ensures NextReceive(s) == Some(t) && Learned(s, t, s.host.call.owner, s.up[0].id)
  {
    t := NextReceive(s).value;
  }

  ghost predicate Learned(s: System, t: System, o: nat, id: nat) {
    && t.down == s.down && s.up != [] && t.up == s.up[1..] && t.target == s.target
    && t.host == s.host.(replied := true, objects := s.host.objects[id := o], ids := s.host.ids[o := id],
                         currentObject := None)
  }

  lemma ObjectReceived(s: System, t: System)
    requires (s.host.pinging <==> s.host.state == Connected) && Inverse(s.host) && Valid(s.target)
    requires Counted(s) && Known(s) && Steady(s)
    requires s.host.call.ConstructCall? && s.up != [] && s.up[0].ObjectId?
    requires Requests(s.down) == [] && Blockings(s.up[1..]) == []
    requires var o, id := s.host.call.owner, s.up[0].id;
             && o !in s.host.ids && id !in s.host.objects && Live(s.target.probes) == s.host.objects.Keys + {id}
             && Learned(s, t, o, id)
    ensures Good(t)
  {
    var o, id := s.host.call.owner, s.up[0].id;
    Extended(s.host, t.host, o, id);
    StillKnown(s, t);
    ObjectStage(s, t, o, id);
  }

  lemma ObjectStage(s: System, t: System, o: nat, id: nat)
    requires Learned(s, t, o, id) && Steady(s) && s.host.call == ConstructCall(o)
    requires Requests(s.down) == [] && Blockings(s.up[1..]) == []
    requires Live(s.target.probes) == s.host.objects.Keys + {id}
    ensures Stage(t)
  {
    assert t.host.objects.Keys == s.host.objects.Keys + {id};
  }

  lemma StillKnown(s: System, t: System)
    requires Known(s) && t.target == s.target && (forall r | r in t.up :: r in s.up)
    requires forall id | id in s.host.objects :: id in t.host.objects
    ensures Known(t)
  {
  }

  lemma Extended(h: Host, g: Host, o: nat, id: nat)
    requires Inverse(h) && o !in h.ids && id !in h.objects && g.objects == h.objects[id := o] && g.ids == h.ids[o := id]
    ensures Inverse(g)
  {
  }

  /** A message that does not end a call was taken: the stage is the same. */
  lemma TakenStage(s: System, t: System)
    requires Stage(s) && s.up != [] && !Blocking(s.up[0]) && t.up == s.up[1..]
    requires t.host == s.host.(unansweredPings := t.host.unansweredPings) && t.target == s.target && t.down == s.down
    ensures Stage(t)
  {
    assert Blockings(s.up) == Blockings(t.up) && AfterReply(s.up) == AfterReply(t.up);
  }

  lemma ReceivePong(s: System)
    requires Good(s) && s.up != [] && s.up[0].Pong?
    ensures NextReceive(s).Some? && Good(NextReceive(s).value)
  {
    assert Pongs(s.up) == 1 + Pongs(s.up[1..]);
    TakenStage(s, NextReceive(s).value);
  }

  lemma ReceiveChange(s: System)
    requires Good(s) && s.up != [] && s.up[0].Changed?
    ensures NextReceive(s).Some? && Good(NextReceive(s).value)
  {
    assert Pongs(s.up) == Pongs(s.up[1..]);
    TakenStage(s, NextReceive(s).value);
  }

  // --------------------------------------------------- messages to the probe

  lemma ProcessesGood(s: System, address: nat, level: int)
    requires Good(s) && Enabled(s, ProbeReceives(address, level))
    ensures Next(s, ProbeReceives(address, level)).Some? && Good(Next(s, ProbeReceives(address, level)).value)
  {
    match s.down[0]
    case Connect => ConnectGood(s, address, level);
    case Construct => ConstructGood(s, address, level);
    case Destruct(_) => DestructGood(s, address, level);
    case Ping => PingGood(s, address, level);
    case User(_, _) => UserGood(s, address, level);
  }

  /** A request at the head tells which call waits for it, and it is the only one. */
  lemma RequestOf(s: System)
    requires Stage(s) && s.down != [] && s.down[0] != Ping
    ensures Requests(s.down) == [s.down[0]] && Requests(s.down[1..]) == [] && AfterRequest(s.down) == s.down[1..]
    ensures !s.host.replied && Blockings(s.up) == []
    ensures match s.host.call
            case Idle => false
            case ConnectCall(_) => s.down == [Connect] && s.up == []
            case ConstructCall(_) => s.down[0] == Construct
            case DestructCall(_, id) => s.down[0] == Destruct(id) && DestructAsked(s, id)
            case UserCall => UserAsked(s, s.down[0])
  {
    assert Requests(s.down) == [s.down[0]] + Requests(s.down[1..]);
    assert |Requests(s.down)| >= 1;
  }

  lemma OneMore(up: seq<Reply>, r: Reply)
    ensures Blockings(up + [r]) == Blockings(up) + (if Blocking(r) then [r] else [])
    ensures Pongs(up + [r]) == Pongs(up) + if r == Pong then 1 else 0
    ensures AfterReply(up + [r]) == if Blockings(up) == [] then [] else AfterReply(up) + [r]
  {
    UpGrows(up, [r]);
    assert [r][1..] == [] && Blockings([]) == [];
    Associate(if Blocking(r) then [r] else [], [], []);
  }

  lemma ProcessConnect(s: System, t: System)
    requires Good(s) && s.down != [] && s.down[0] == Connect && t == Answers(s.(down := s.down[1..]), Connecting(s.target))
    ensures Good(t)
  {
    RequestOf(s);
    ConnectKeeps(s.target);
    assert t.down == [] && t.up == [StatusOk];
  }

  lemma ProcessConstruct(s: System, t: System, address: nat)
    requires Good(s) && s.down != [] && s.down[0] == Construct
    requires address != 0 && address !in Live(s.target.probes)
    requires t == Answers(s.(down := s.down[1..]), Constructing(s.target, address))
    ensures Good(t)
  {
    RequestOf(s);
    ConstructKeeps(s.target, address);
    OneMore(s.up, ObjectId(address));
  }

  lemma ProcessDestruct(s: System, t: System, id: nat)
    requires Good(s) && s.down != [] && s.down[0] == Destruct(id)
    requires t == Answers(s.(down := s.down[1..]), Destructing(s.target, id))
    ensures Good(t)
  {
    DestructsLive(s, id);
    DestructKeeps(s.target, id);
    DestructLeaves(s, t, id);
  }

  lemma DestructsLive(s: System, id: nat)
    requires Inverse(s.host) && Stage(s) && s.down != [] && s.down[0] == Destruct(id)
    ensures id in Live(s.target.probes)
  {
    RequestOf(s);
  }

  lemma DestructLeaves(s: System, t: System, id: nat)
    requires Good(s) && s.down != [] && s.down[0] == Destruct(id)
    requires t.host == s.host && t.down == s.down[1..] && t.up == s.up + [StatusOk] && Valid(t.target)
    requires Live(t.target.probes) == Live(s.target.probes) - {id}
    requires t.target.connected == (s.target.connected && Live(t.target.probes) != {})
    requires forall k | k in t.target.table.instances ::
      k in s.target.table.instances && t.target.table.instances[k] == s.target.table.instances[k]
    ensures Good(t)
  {
    RequestOf(s);
    OneMore(s.up, StatusOk);
    DestructedStage(s, t, id);
  }

  /** The object is gone on the probe, and the reply is on its way. */
  lemma DestructedStage(s: System, t: System, id: nat)
    requires s.down != [] && s.host.call.DestructCall? && s.host.call.id == id && DestructAsked(s, id)
    requires DestructStage(s, s.host.call.owner, id) && Requests(s.down[1..]) == []
    requires AfterRequest(s.down) == s.down[1..]
    requires t.host == s.host && t.down == s.down[1..] && t.up == s.up + [StatusOk]
    requires Live(t.target.probes) == Live(s.target.probes) - {id}
    requires t.target.connected == (s.target.connected && Live(t.target.probes) != {})
    ensures Stage(t)
  {
    OneMore(s.up, StatusOk);
  }

  lemma ProcessPing(s: System, t: System)
    requires Good(s) && s.down != [] && s.down[0] == Ping && t == Answers(s.(down := s.down[1..]), (s.target, [Pong]))
    ensures Good(t) && s.target.connected
  {
    OneMore(s.up, Pong);
    assert Pings(s.down) == 1 + Pings(s.down[1..]);
    PingStage(s, t);
  }

  /** A ping turned into a pong: the stage is the same. */
  lemma PingStage(s: System, t: System)
    requires Stage(s) && Inverse(s.host)
    requires s.down != [] && s.down[0] == Ping && t.down == s.down[1..] && t.up == s.up + [Pong]
    requires t.host == s.host && t.target == s.target
    ensures Stage(t) && s.target.connected
  {
    OneMore(s.up, Pong);
    assert Requests(s.down) == Requests(s.down[1..]) && AfterRequest(s.down) == AfterRequest(s.down[1..]);
    if s.host.call.DestructCall? {
      var id, keys := s.host.call.id, s.host.objects.Keys;
      assert keys - {id} == {} ==> keys == {id};
    }
  }

  /** The replies to a user request: StatusOk, and for an initialisation the value of the pin. */
  lemma UserReplies(s: System, id: nat, request: Request, level: int)
    requires Answerable(s.target.table, id, request)
    ensures var more := Parse(s.target.table, id, request, level).1;
            && Blockings(s.up + more) == Blockings(s.up) + [StatusOk] && Pongs(s.up + more) == Pongs(s.up)
            && forall r | r in s.up + more :: r in s.up || (r.Changed? ==> r.id == id)
  {
    AnswerIs(s.target.table, id, request, level);
    var more := Parse(s.target.table, id, request, level).1;
    UpGrows(s.up, more);
    if more == [StatusOk] {
      assert Blockings(more) == [StatusOk] + Blockings([]) == [StatusOk];
    } else {
      assert more[1..] == [more[1]] && more[1..][1..] == [];
      assert Blockings(more[1..]) == [] && Pongs(more[1..]) == 0;
      assert Blockings(more) == [StatusOk];
    }
  }

  lemma ProcessUser(s: System, t: System, id: nat, request: Request, level: int)
    requires Good(s) && s.down != [] && s.down[0] == User(id, request) && id in s.target.table.pins
    requires var r := Parse(s.target.table, id, request, level);
             t == Answers(s.(down := s.down[1..]), (s.target.(table := r.0), r.1))
    ensures Good(t)
  {
    RequestOf(s);
    UserKeeps(s.target, id, request, level);
    UserReplies(s, id, request, level);
    assert Pings(s.down) == Pings(t.down);
    assert Blockings(t.up) == [StatusOk];
    UserKnown(s, t, id);
  }

  lemma UserKnown(s: System, t: System, id: nat)
    requires Known(s) && id in s.host.objects && t.host == s.host
    requires forall r | r in t.up :: r in s.up || (r.Changed? ==> r.id == id)
    requires forall k | k in t.target.table.instances ::
      (k in s.target.table.instances && t.target.table.instances[k] == s.target.table.instances[k])
      || t.target.table.instances[k] == id
    ensures Known(t)
  {
  }

  lemma ConnectGood(s: System, address: nat, level: int)
    requires Good(s) && Enabled(s, ProbeReceives(address, level)) && s.down[0] == Connect
    ensures NextProcess(s, address, level).Some? && Good(NextProcess(s, address, level).value)
  {
    ProcessConnect(s, NextProcess(s, address, level).value);
  }

  lemma ConstructGood(s: System, address: nat, level: int)
    requires Good(s) && Enabled(s, ProbeReceives(address, level)) && s.down[0] == Construct
    ensures NextProcess(s, address, level).Some? && Good(NextProcess(s, address, level).value)
  {
    RequestOf(s);
    ProcessConstruct(s, NextProcess(s, address, level).value, address);
  }

  lemma DestructGood(s: System, address: nat, level: int)
    requires Good(s) && Enabled(s, ProbeReceives(address, level)) && s.down[0].Destruct?
    ensures NextProcess(s, address, level).Some? && Good(NextProcess(s, address, level).value)
  {
    RequestOf(s);
    ProcessDestruct(s, NextProcess(s, address, level).value, s.down[0].id);
  }

  lemma PingGood(s: System, address: nat, level: int)
    requires Good(s) && Enabled(s, ProbeReceives(address, level)) && s.down[0] == Ping
    ensures NextProcess(s, address, level).Some? && Good(NextProcess(s, address, level).value)
  {
    ProcessPing(s, Answers(s.(down := s.down[1..]), (s.target, [Pong])));
  }

  lemma UserGood(s: System, address: nat, level: int)
    requires Good(s) && Enabled(s, ProbeReceives(address, level)) && s.down[0].User?
    ensures NextProcess(s, address, level).Some? && Good(NextProcess(s, address, level).value)
  {
    RequestOf(s);
    ProcessUser(s, NextProcess(s, address, level).value, s.down[0].id, s.down[0].request, level);
  }

  /** One message that ends no call, somewhere among the others. */
  ghost predicate Inserted(up: seq<Reply>, r: Reply, at: nat, more: seq<Reply>) {
    at <= |up| && more == up[..at] + [r] + up[at..]
  }

  lemma {:induction false} InsertedCounts(up: seq<Reply>, r: Reply, at: nat, more: seq<Reply>)
    requires Inserted(up, r, at, more) && r.Changed?
    ensures Blockings(more) == Blockings(up) && Pongs(more) == Pongs(up)
    ensures forall x | x in more :: x in up || x == r
    ensures forall x | x in AfterReply(more) :: x in AfterReply(up) || x == r
    decreases |up|
  {
    if at == 0 {
      assert more[0] == r && more[1..] == up;
    } else {
      assert more[0] == up[0] && more[1..] == up[1..][..at - 1] + [r] + up[1..][at - 1..];
      InsertedCounts(up[1..], r, at - 1, more[1..]);
    }
  }

  /** An edge reports a known object that is not being deleted. */
  lemma EdgeStage(s: System, t: System, id: nat, value: int, at: nat)
    requires Stage(s) && t.host == s.host && t.down == s.down && Inserted(s.up, Changed(id, value), at, t.up)
    requires id in Live(s.target.probes) && t.target == s.target.(table := t.target.table)
    requires id in s.host.objects
    requires t.target.table.instances == s.target.table.instances && t.target.table.pins.Keys == s.target.table.pins.Keys
    requires forall x | x in s.target.table.pins :: t.target.table.pins[x].ioid == s.target.table.pins[x].ioid
    ensures Stage(t)
  {
    InsertedCounts(s.up, Changed(id, value), at, t.up);
    if s.host.call.DestructCall? {
      EdgeWhileDestructing(s, t, id, value, at);
    } else if s.host.call.UserCall? {
      assert Quiet(t) == Quiet(s);
    }
  }

  lemma EdgeWhileDestructing(s: System, t: System, id: nat, value: int, at: nat)
    requires s.host.call.DestructCall? && DestructStage(s, s.host.call.owner, s.host.call.id)
    requires t.host == s.host && t.down == s.down && Inserted(s.up, Changed(id, value), at, t.up)
    requires id in Live(s.target.probes) && t.target == s.target.(table := t.target.table)
    ensures DestructStage(t, s.host.call.owner, s.host.call.id)
  {
    InsertedCounts(s.up, Changed(id, value), at, t.up);
  }

  lemma EdgeKnown(s: System, t: System, id: nat, value: int, at: nat)
    requires Known(s) && id in s.host.objects && t.host == s.host && Inserted(s.up, Changed(id, value), at, t.up)
    requires t.target.table.instances == s.target.table.instances
    ensures Known(t)
  {
  }

  lemma EdgesGood(s: System, ioid: nat, level: int, at: nat)
    requires Good(s) && at <= |s.up|
    ensures NextEdge(s, ioid, level, at).Some? && Good(NextEdge(s, ioid, level, at).value)
  {
    EdgeCases(s.target.table, ioid, level);
    var t := NextEdge(s, ioid, level, at).value;
    var r := Edge(s.target.table, ioid, level).value;
    if r.1 == [] {
      EdgeUnseen(s, t, at);
    } else {
      var id := s.target.table.instances[ioid];
      ReportGood(s, t, id, r.1[0].value, at);
    }
  }

  /** An edge is reported or changes nothing. */
  lemma EdgeCases(t: Table, ioid: nat, level: int)
    requires Consistent(t)
    ensures var e := Edge(t, ioid, level);
            && e.Some?
            && (e.value.1 == [] ==> e.value.0 == t)
            && (e.value.1 != [] ==>
                  && ioid in t.instances
                  && var id := t.instances[ioid];
                     && |e.value.1| == 1 && e.value.1[0].Changed? && e.value.1[0].id == id && id in t.pins
                     && e.value.0 == SetPin(t, id, t.pins[id].(value := e.value.1[0].value)))
  {
  }

  lemma EdgeUnseen(s: System, t: System, at: nat)
    requires at <= |s.up| && t == s.(up := s.up[..at] + [] + s.up[at..])
    ensures t == s
  {
  }

  /** An edge that is reported changes the value of one object. */
  lemma ReportGood(s: System, t: System, id: nat, value: int, at: nat)
    requires Good(s) && id in s.target.table.pins && id in s.target.table.instances.Values
    requires t == s.(target := t.target, up := t.up) && Inserted(s.up, Changed(id, value), at, t.up)
    requires t.target == s.target.(table := SetPin(s.target.table, id, s.target.table.pins[id].(value := value)))
    ensures Good(t)
  {
    InsertedCounts(s.up, Changed(id, value), at, t.up);
    EdgeStage(s, t, id, value, at);
    EdgeKnown(s, t, id, value, at);
  }
}
