/** What becomes of a request: the probe takes exactly the requests that the host's steps ask for, in order, and a
    request to a pin has its effect when its call ends. */
module RocRequests {
  import opened Options
  import opened Pins
  import opened RocTargets
  import opened RocHosts
  import opened RocRuns
  import opened RocTheorems

  // ------------------------------------------------------------ conservation

  /** What a step is to ask of the probe, told by the step and the ids that the host was given. */
  function Wanted(s: System, step: Step): seq<Command> {
    match step
    case Registers(_) => [if s.host.state == Connected then Construct else Connect]
    case Resumes => if s.host.call.ConnectCall? then [Construct] else []
    case Unregisters(o) => if o in s.host.ids then [Destruct(s.host.ids[o])] else []
    case Sends(o, request) => if o in s.host.ids then [User(s.host.ids[o], request)] else []
    case _ => []
  }

  /** The request that the probe takes in a step. */
  function Taken(s: System, step: Step): seq<Command> {
    if step.ProbeReceives? && s.down != [] && s.down[0] != Ping then [s.down[0]] else []
  }

  function WantedIn(s: System, steps: seq<Step>): seq<Command>
    decreases |steps|
  {
    if steps == [] || !Enabled(s, steps[0]) then []
    else match Next(s, steps[0])
      case None => []
      case Some(n) => Wanted(s, steps[0]) + WantedIn(n, steps[1..])
  }

  function TakenIn(s: System, steps: seq<Step>): seq<Command>
    decreases |steps|
  {
    if steps == [] || !Enabled(s, steps[0]) then []
    else match Next(s, steps[0])
      case None => []
      case Some(n) => Taken(s, steps[0]) + TakenIn(n, steps[1..])
  }

  lemma OneRequestMore(down: seq<Command>, c: Command)
    ensures Requests(down + [c]) == Requests(down) + if c == Ping then [] else [c]
  {
    DownGrows(down, [c]);
    assert [c][1..] == [];
  }

  lemma RegistersWanted(s: System, o: nat, n: System)
    requires Good(s) && Enabled(s, Registers(o)) && Next(s, Registers(o)) == Some(n)
    ensures n.down == s.down + Wanted(s, Registers(o))
  {
  }

  lemma UnregistersWanted(s: System, o: nat, n: System)
    requires Enabled(s, Unregisters(o)) && Next(s, Unregisters(o)) == Some(n)
    ensures n.down == s.down + Wanted(s, Unregisters(o))
  {
  }

  lemma SendsWanted(s: System, o: nat, request: Request, n: System)
    requires Enabled(s, Sends(o, request)) && Next(s, Sends(o, request)) == Some(n)
    ensures n.down == s.down + Wanted(s, Sends(o, request))
  {
  }

  lemma ResumesWanted(s: System, n: System)
    requires Enabled(s, Resumes) && Next(s, Resumes) == Some(n)
    ensures n.down == s.down + Wanted(s, Resumes)
  {
  }

  lemma TicksWanted(s: System, n: System)
    requires Enabled(s, Ticks) && Next(s, Ticks) == Some(n)
    ensures n.down == s.down + [Ping]
  {
  }

  lemma WantedGrows(down: seq<Command>, more: seq<Command>)
    requires |more| <= 1 && Ping !in more
    ensures Requests(down + more) == Requests(down) + more
  {
    if more == [] {
      assert down + more == down;
    } else {
      OneRequestMore(down, more[0]);
      assert more == [more[0]];
    }
  }

  lemma AskedIsWanted(s: System, step: Step, n: System)
    requires Good(s) && Enabled(s, step) && Next(s, step) == Some(n)
    requires step.Registers? || step.Unregisters? || step.Sends? || step.Resumes? || step.Ticks?
    ensures Requests(n.down) == Requests(s.down) + Wanted(s, step)
  {
    WantedGrows(s.down, Wanted(s, step));
    match step
    case Registers(o) => RegistersWanted(s, o, n);
    case Unregisters(o) => UnregistersWanted(s, o, n);
    case Sends(o, request) => SendsWanted(s, o, request, n);
    case Resumes => ResumesWanted(s, n);
    case Ticks => TicksWanted(s, n); OneRequestMore(s.down, Ping);
  }

  lemma ReceivesTaken(s: System, address: nat, level: int, n: System)
    requires s.down != [] && NextProcess(s, address, level) == Some(n)
    ensures Requests(s.down) == Taken(s, ProbeReceives(address, level)) + Requests(n.down)
  {
    assert n.down == s.down[1..];
  }

  lemma StepConserves(s: System, step: Step, n: System)
    requires Good(s) && Enabled(s, step) && Next(s, step) == Some(n)
    ensures Requests(s.down) + Wanted(s, step) == Taken(s, step) + Requests(n.down)
  {
    if step.ProbeReceives? {
      ReceivesTaken(s, step.address, step.level, n);
    } else if step.HostReceives? || step.PinEdge? {
      assert n.down == s.down;
    } else {
      AskedIsWanted(s, step, n);
    }
  }

  lemma Joined<X>(a: seq<X>, b: seq<X>, c: seq<X>, d: seq<X>, e: seq<X>, f: seq<X>, g: seq<X>)
    requires a + b == c + d && d + e == f + g
    ensures a + (b + e) == (c + f) + g
  {
    assert a + (b + e) == (a + b) + e == c + (d + e) == (c + f) + g;
  }

  /** Requests are conserved: what was on its way and what the steps asked for is what the probe took and what is on
      its way now, one by one and in order. */
  lemma {:induction false} RequestsConserved(s: System, steps: seq<Step>, t: System)
    requires Good(s) && Leads(s, steps, t)
    ensures Requests(s.down) + WantedIn(s, steps) == TakenIn(s, steps) + Requests(t.down)
    decreases |steps|
  {
    if steps != [] {
      StepGood(s, steps[0]);
      var n := Next(s, steps[0]).value;
      StepConserves(s, steps[0], n);
      RequestsConserved(n, steps[1..], t);
      Joined(Requests(s.down), Wanted(s, steps[0]), Taken(s, steps[0]), Requests(n.down),
             WantedIn(n, steps[1..]), TakenIn(n, steps[1..]), Requests(t.down));
    }
  }

  // ------------------------------------------------------------ one request

  /** Only edges came in: they change the value of inputs. `still` says that none came in at the number of `id`. */
  ghost predicate OnlyEdges(t: Table, r: Table, id: nat, still: bool) {
    && r.instances == t.instances && r.pins.Keys == t.pins.Keys
    && forall x {:trigger SamePin(t, r, x, id, still)} | x in t.pins :: SamePin(t, r, x, id, still)
  }

  ghost predicate SamePin(t: Table, r: Table, x: nat, id: nat, still: bool) {
    && x in t.pins && x in r.pins && r.pins[x].ioid == t.pins[x].ioid && r.pins[x].output == t.pins[x].output
    && (t.pins[x].output || (still && x == id) ==> r.pins[x].value == t.pins[x].value)
  }

  /** The request had its effect, and nothing else but edges changed anything. */
  ghost predicate Settled(t: Table, id: nat, m: Request, still: bool, r: Table) {
    && r.pins.Keys == t.pins.Keys && id in t.pins
    && (forall x {:trigger SamePin(t, r, x, id, still)} | x in t.pins && x != id :: SamePin(t, r, x, id, still))
    && r.instances == (if m.Init? then t.instances[m.ioid := id] else t.instances)
    && var p, q := t.pins[id], r.pins[id];
       match m
       case Init(n, output, value) => q.ioid == n && q.output == output && (output ==> q.value == value)
       case ChangeIoid(_) => false
       case ChangeValue(value) => q.ioid == p.ioid && q.output == p.output && (p.output || still ==> q.value == value)
       case ChangePullMode => q.ioid == p.ioid && q.output == p.output && (p.output || still ==> q.value == p.value)
       case ChangeType(output) =>
         q.ioid == p.ioid && q.output == output && ((p.output && output) || still ==> q.value == p.value)
  }

  lemma EdgesThenEdges(t: Table, u: Table, r: Table, id: nat, still: bool)
    requires OnlyEdges(t, u, id, still) && OnlyEdges(u, r, id, still)
    ensures OnlyEdges(t, r, id, still)
  {
    forall x | x in t.pins ensures SamePin(t, r, x, id, still) {
      assert SamePin(t, u, x, id, still) && SamePin(u, r, x, id, still);
    }
  }

  lemma EdgesThenSettled(t: Table, u: Table, r: Table, id: nat, m: Request, still: bool)
    requires OnlyEdges(t, u, id, still) && Settled(u, id, m, still, r)
    ensures Settled(t, id, m, still, r)
  {
    forall x | x in t.pins && x != id ensures SamePin(t, r, x, id, still) {
      assert SamePin(t, u, x, id, still) && SamePin(u, r, x, id, still);
    }
    assert SamePin(t, u, id, id, still);
  }

  lemma SettledThenEdges(t: Table, u: Table, r: Table, id: nat, m: Request, still: bool)
    requires Settled(t, id, m, still, u) && OnlyEdges(u, r, id, still)
    ensures Settled(t, id, m, still, r)
  {
    forall x | x in t.pins && x != id ensures SamePin(t, r, x, id, still) {
      assert SamePin(t, u, x, id, still) && SamePin(u, r, x, id, still);
    }
    assert SamePin(u, r, id, id, still);
  }

  lemma LeftIsSettled(t: Table, id: nat, m: Request, level: int, still: bool, r: Table)
    requires id in t.pins && !m.ChangeIoid? && Leaves(t, id, m, level, r)
    ensures Settled(t, id, m, still, r)
  {
  }

  /** No edge at this number. */
  ghost predicate Still(steps: seq<Step>, ioid: nat) {
    forall s | s in steps && s.PinEdge? :: s.ioid != ioid
  }

  lemma EdgeOnly(t: Table, ioid: nat, level: int, id: nat, still: bool)
    requires Consistent(t) && (still && id in t.pins ==> t.pins[id].ioid != ioid)
    requires Edge(t, ioid, level).Some?
    ensures OnlyEdges(t, Edge(t, ioid, level).value.0, id, still)
  {
  }

  lemma SameTable(t: Table, id: nat, still: bool)
    ensures OnlyEdges(t, t, id, still)
  {
  }

  /** While a user call waits: its request is on its way or was taken. */
  ghost predicate Waiting(s: System, c: Command) {
    Good(s) && s.host.call == UserCall && (Requests(s.down) == [c] || Requests(s.down) == [])
  }

  /** How a step that does not end the call changes the table of the probe. */
  ghost predicate Works(s: System, c: Command, still: bool, n: System)
    requires c.User?
  {
    if Requests(s.down) == [c] && Requests(n.down) == [] then Settled(s.target.table, c.id, c.request, still, n.target.table)
    else OnlyEdges(s.target.table, n.target.table, c.id, still) && Requests(n.down) == Requests(s.down)
  }

  lemma HostWorks(s: System, step: Step, n: System, c: Command, still: bool)
    requires Waiting(s, c) && c.User? && Enabled(s, step) && Next(s, step) == Some(n)
    requires step.HostReceives? || step.Ticks?
    ensures n.host.call == UserCall && Works(s, c, still, n)
  {
    SameTable(s.target.table, c.id, still);
    if step.Ticks? {
      TicksWanted(s, n);
      OneRequestMore(s.down, Ping);
    }
  }

  lemma EdgeWorks(s: System, ioid: nat, level: int, at: nat, n: System, c: Command, still: bool)
    requires Waiting(s, c) && c.User? && at <= |s.up| && NextEdge(s, ioid, level, at) == Some(n)
    requires still && c.id in s.target.table.pins ==> s.target.table.pins[c.id].ioid != ioid
    ensures n.host.call == UserCall && Works(s, c, still, n)
  {
    EdgeOnly(s.target.table, ioid, level, c.id, still);
  }

  lemma PingWorks(s: System, address: nat, level: int, n: System, c: Command, still: bool)
    requires Waiting(s, c) && c.User? && s.down != [] && s.down[0] == Ping && NextProcess(s, address, level) == Some(n)
    ensures n.host.call == UserCall && Works(s, c, still, n)
  {
    SameTable(s.target.table, c.id, still);
  }

  lemma RequestTaken(s: System, address: nat, level: int, n: System, c: Command)
    requires Waiting(s, c) && c.User? && s.down != [] && s.down[0] != Ping && NextProcess(s, address, level) == Some(n)
    ensures s.down[0] == c && Requests(s.down) == [c] && Requests(n.down) == [] && n.host == s.host
    ensures c.id in s.target.table.pins && !c.request.ChangeIoid?
    ensures n.target.table == Parse(s.target.table, c.id, c.request, level).0
  {
    RequestOf(s);
  }

  /** The probe takes the request, and processes exactly that. */
  lemma RequestWorks(s: System, address: nat, level: int, n: System, c: Command, still: bool)
    requires Waiting(s, c) && c.User? && s.down != [] && s.down[0] != Ping && NextProcess(s, address, level) == Some(n)
    ensures n.host.call == UserCall && Works(s, c, still, n) && s.down[0] == c
  {
    RequestTaken(s, address, level, n, c);
    RequestLeaves(s.target.table, c.id, c.request, level);
    LeftIsSettled(s.target.table, c.id, c.request, level, still, n.target.table);
  }

  lemma StepWorks(s: System, step: Step, n: System, c: Command, still: bool)
    requires Waiting(s, c) && c.User? && Enabled(s, step) && Next(s, step) == Some(n) && !step.Resumes?
    requires still && step.PinEdge? && c.id in s.target.table.pins ==> s.target.table.pins[c.id].ioid != step.ioid
    ensures Waiting(n, c) && Works(s, c, still, n)
  {
    StepGood(s, step);
    match step
    case HostReceives => HostWorks(s, step, n, c, still);
    case Ticks => HostWorks(s, step, n, c, still);
    case PinEdge(ioid, level, at) => EdgeWorks(s, ioid, level, at, n, c, still);
    case ProbeReceives(address, level) =>
      if s.down[0] == Ping { PingWorks(s, address, level, n, c, still); }
      else { RequestWorks(s, address, level, n, c, still); }
    case _ =>
  }

  lemma WorksOn(s: System, n: System, t: System, c: Command, still: bool)
    requires c.User? && Requests(s.down) in {[c], []} && Requests(n.down) in {[c], []} && Requests(t.down) in {[c], []}
    requires Works(s, c, still, n) && Works(n, c, still, t)
    ensures Works(s, c, still, t)
  {
    var a, b, d := s.target.table, n.target.table, t.target.table;
    if Requests(s.down) == [c] && Requests(n.down) == [] {
      SettledThenEdges(a, b, d, c.id, c.request, still);
    } else if Requests(n.down) == [c] && Requests(t.down) == [] {
      EdgesThenSettled(a, b, d, c.id, c.request, still);
    } else {
      EdgesThenEdges(a, b, d, c.id, still);
    }
  }

  /** A change of anything but the number leaves the number. */
  lemma NumberStays(s: System, c: Command, still: bool, n: System)
    requires c.User? && !c.request.Init? && Works(s, c, still, n) && c.id in s.target.table.pins
    ensures c.id in n.target.table.pins && n.target.table.pins[c.id].ioid == s.target.table.pins[c.id].ioid
  {
    if !(Requests(s.down) == [c] && Requests(n.down) == []) {
      assert SamePin(s.target.table, n.target.table, c.id, c.id, still);
    }
  }

  lemma {:induction false} WaitWorks(s: System, steps: seq<Step>, t: System, c: Command, still: bool)
    requires Waiting(s, c) && c.User? && Leads(s, steps, t) && Resumes !in steps
    requires still ==> !c.request.Init? && c.id in s.target.table.pins && Still(steps, s.target.table.pins[c.id].ioid)
    ensures Waiting(t, c) && Works(s, c, still, t)
    decreases |steps|
  {
    if steps == [] {
      SameTable(s.target.table, c.id, still);
    } else {
      StepGood(s, steps[0]);
      var n := Next(s, steps[0]).value;
      assert steps[0] in steps && forall x | x in steps[1..] :: x in steps;
      StepWorks(s, steps[0], n, c, still);
      if still { NumberStays(s, c, still, n); }
      WaitWorks(n, steps[1..], t, c, still);
      WorksOn(s, n, t, c, still);
    }
  }

  /** While a user call waits, nothing else is asked for. */
  lemma {:induction false} NothingElseWanted(s: System, steps: seq<Step>, t: System, c: Command)
    requires Waiting(s, c) && c.User? && Leads(s, steps, t) && Resumes !in steps
    ensures WantedIn(s, steps) == []
    decreases |steps|
  {
    if steps != [] {
      StepGood(s, steps[0]);
      var n := Next(s, steps[0]).value;
      assert steps[0] in steps && forall x | x in steps[1..] :: x in steps;
      StepWorks(s, steps[0], n, c, false);
      NothingElseWanted(n, steps[1..], t, c);
    }
  }

  lemma CallBegins(s: System, o: nat, m: Request, n: System)
    requires Good(s) && Enabled(s, Sends(o, m)) && Next(s, Sends(o, m)) == Some(n)
    ensures Waiting(n, User(s.host.ids[o], m)) && Requests(n.down) == [User(s.host.ids[o], m)]
    ensures n.target == s.target && s.host.ids[o] in s.target.table.pins && !m.ChangeIoid?
  {
    StepGood(s, Sends(o, m));
    SendsWanted(s, o, m, n);
    OneRequestMore(s.down, User(s.host.ids[o], m));
  }

  /** From its call to the end of it, the request that was given is the only one: it is on its way or was taken by the
      probe, under the id that the object has. */
  lemma RequestIsTheOneGiven(before: seq<Step>, s: System, o: nat, m: Request, n: System, steps: seq<Step>, t: System)
    requires Leads(BEGIN, before, s) && Enabled(s, Sends(o, m)) && Next(s, Sends(o, m)) == Some(n)
    requires Leads(n, steps, t) && Resumes !in steps
    ensures TakenIn(n, steps) + Requests(t.down) == [User(s.host.ids[o], m)]
  {
    ReachableGood(before, s);
    CallBegins(s, o, m, n);
    RequestsConserved(n, steps, t);
    NothingElseWanted(n, steps, t, User(s.host.ids[o], m));
  }

  lemma CallSettles(s: System, o: nat, m: Request, n: System, steps: seq<Step>, t: System, still: bool)
    requires Good(s) && Enabled(s, Sends(o, m)) && Next(s, Sends(o, m)) == Some(n)
    requires Waiting(n, User(s.host.ids[o], m)) && Requests(n.down) == [User(s.host.ids[o], m)] && n.target == s.target
    requires Leads(n, steps, t) && Resumes !in steps && t.host.replied
    requires var id, pins := s.host.ids[o], s.target.table.pins;
             still ==> !m.Init? && id in pins && Still(steps, pins[id].ioid)
    ensures Settled(s.target.table, s.host.ids[o], m, still, t.target.table)
  {
    WaitWorks(n, steps, t, User(s.host.ids[o], m), still);
    RepliedIsTaken(t, User(s.host.ids[o], m));
  }

  lemma RepliedIsTaken(t: System, c: Command)
    requires Waiting(t, c) && t.host.replied
    ensures Requests(t.down) == []
  {
  }

  /** And when the reply has come, the request had its effect on that object, and nothing but edges at inputs changed
      anything else. */
  lemma CallTakesEffect(before: seq<Step>, s: System, o: nat, m: Request, n: System, steps: seq<Step>, t: System,
                        still: bool)
    requires Leads(BEGIN, before, s) && Enabled(s, Sends(o, m)) && Next(s, Sends(o, m)) == Some(n)
    requires Leads(n, steps, t) && Resumes !in steps && t.host.replied
    requires var id, pins := s.host.ids[o], s.target.table.pins;
             still ==> !m.Init? && id in pins && Still(steps, pins[id].ioid)
    ensures s.host.ids[o] in s.target.table.pins
    ensures Settled(s.target.table, s.host.ids[o], m, still, t.target.table)
  {
    ReachableGood(before, s);
    CallBegins(s, o, m, n);
    CallSettles(s, o, m, n, steps, t, still);
  }

  /** So a pin that was set holds the value when the call ends, if it is an output, or if no edge came in. */
  lemma ValueArrives(before: seq<Step>, s: System, o: nat, v: int, n: System, steps: seq<Step>, t: System)
    requires Leads(BEGIN, before, s) && Enabled(s, Sends(o, ChangeValue(v))) && Next(s, Sends(o, ChangeValue(v))) == Some(n)
    requires Leads(n, steps, t) && Resumes !in steps && t.host.replied
    ensures var id, pins := s.host.ids[o], s.target.table.pins;
            && id in pins && id in t.target.table.pins
            && (pins[id].output || Still(steps, pins[id].ioid) ==>
                  t.target.table.pins[id] == Pin(pins[id].ioid, v, pins[id].output))
  {
    var id, pins := s.host.ids[o], s.target.table.pins;
    CallTakesEffect(before, s, o, ChangeValue(v), n, steps, t, id in pins && Still(steps, pins[id].ioid));
  }
}
