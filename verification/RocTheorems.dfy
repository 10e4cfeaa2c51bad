/** What holds in every run of host and probe. */
module RocTheorems {
  import opened Options
  import opened Pins
  import opened RocTargets
  import opened RocHosts
  import opened RocRuns

  lemma StepGood(s: System, step: Step)
    requires Good(s) && Enabled(s, step)
    ensures Next(s, step).Some? && Good(Next(s, step).value)
  {
    match step
    case Registers(o) => RegistersGood(s, o);
    case Unregisters(o) => UnregistersGood(s, o);
    case Sends(o, request) => SendsGood(s, o, request);
    case Resumes => ResumesGood(s);
    case HostReceives => ReceivesGood(s);
    case Ticks => TicksGood(s);
    case ProbeReceives(address, level) => ProcessesGood(s, address, level);
    case PinEdge(ioid, level, at) => EdgesGood(s, ioid, level, at);
  }

  /** The steps can be taken one after the other, and lead from s to t. */
  ghost predicate Leads(s: System, steps: seq<Step>, t: System)
    decreases |steps|
  {
    if steps == [] then t == s
    else
      && Enabled(s, steps[0])
      && match Next(s, steps[0])
         case None => false
         case Some(n) => Leads(n, steps[1..], t)
  }

  lemma {:induction false} LeadsToGood(s: System, steps: seq<Step>, t: System)
    requires Good(s) && Leads(s, steps, t)
    ensures Good(t)
    decreases |steps|
  {
    if steps != [] {
      StepGood(s, steps[0]);
      LeadsToGood(Next(s, steps[0]).value, steps[1..], t);
    }
  }

  lemma ReachableGood(steps: seq<Step>, t: System)
    requires Leads(BEGIN, steps, t)
    ensures Good(t)
  {
    BeginGood();
    LeadsToGood(BEGIN, steps, t);
  }

  /** No run comes to a failed assertion, a null or dangling pointer, or a probe that spins: whatever the
      environment can do next, host and probe have an answer. */
  lemma NothingFails(steps: seq<Step>, t: System, step: Step)
    requires Leads(BEGIN, steps, t) && Enabled(t, step)
    ensures Next(t, step).Some?
  {
    ReachableGood(steps, t);
    StepGood(t, step);
  }

  /** Between two calls, host and probe agree on the objects and on whether they are connected. */
  lemma Agreement(steps: seq<Step>, t: System)
    requires Leads(BEGIN, steps, t) && t.host.call == Idle
    ensures Inverse(t.host) && t.host.objects.Keys == Live(t.target.probes) && t.target.probeCount == |t.host.objects|
    ensures t.host.state == Connected <==> t.target.connected
    ensures t.target.connected <==> t.host.objects != map[]
    ensures t.host.state == Connected || t.host.state == Disconnected
  {
    ReachableGood(steps, t);
    assert |t.host.objects| == |t.host.objects.Keys|;
  }

  /** While a call waits, exactly one of these is true: its request is on its way, its reply is, or the reply has
      come. Between two calls none is. So no reply can end a later call. */
  lemma OneReplyPerCall(steps: seq<Step>, t: System)
    requires Leads(BEGIN, steps, t)
    ensures |Requests(t.down)| + |Blockings(t.up)| + (if t.host.replied then 1 else 0)
            == if t.host.call == Idle then 0 else 1
  {
    ReachableGood(steps, t);
    if t.host.call.ConnectCall? && !t.host.replied && t.down == [Connect] {
      assert Requests([Connect]) == [Connect] + Requests([Connect][1..]);
      assert [Connect][1..] == [] && Blockings(t.up) == [];
    } else if t.host.call.ConnectCall? && !t.host.replied {
      assert Blockings([StatusOk]) == [StatusOk] + Blockings([StatusOk][1..]);
      assert [StatusOk][1..] == [] && Requests(t.down) == [];
    }
  }

  /** Pings are conserved: every unanswered one is on its way to the probe or back, there are never more than
      three, a pong never comes unexpectedly, and none is left when the host disconnects. */
  lemma PingsConserved(steps: seq<Step>, t: System)
    requires Leads(BEGIN, steps, t)
    ensures t.host.unansweredPings == Pings(t.down) + Pongs(t.up) && t.host.unansweredPings <= 3
    ensures Pong in t.up ==> t.host.unansweredPings > 0
    ensures t.host.state == Disconnected ==> t.host.unansweredPings == 0 && t.down == [] && t.up == []
  {
    ReachableGood(steps, t);
    if Pong in t.up { PongCounts(t.up); }
  }

  lemma {:induction false} PongCounts(up: seq<Reply>)
    requires Pong in up
    ensures Pongs(up) > 0
  {
    if up[0] != Pong {
      PongCounts(up[1..]);
    }
  }

  /** A message from an object reaches the host while it still knows the object. */
  lemma MessagesFindTheirObject(steps: seq<Step>, t: System, r: Reply)
    requires Leads(BEGIN, steps, t) && r in t.up && r.Changed?
    ensures r.id in t.host.objects && t.host.objects[r.id] in t.host.ids && t.host.ids[t.host.objects[r.id]] == r.id
  {
    ReachableGood(steps, t);
  }

  // --------------------------------------------------------- the ping guard

  /** Where new objects are allocated. */
  ghost predicate Allocates(pick: Target -> nat) {
    forall t :: pick(t) != 0 && pick(t) !in Live(t.probes)
  }

  /** The probe gets through all messages. */
  predicate Survives(t: Target, down: seq<Command>, pick: Target -> nat, level: int)
    decreases |down|
  {
    down == [] ||
      match Process(t, down[0], pick(t), level)
      case None => false
      case Some(r) => Survives(r.0, down[1..], pick, level)
  }

  /** One object more still fits, or none is coming. */
  predicate Room(s: System) {
    |s.target.probes| < CAPACITY || (Construct !in s.down && !s.host.call.ConnectCall?)
  }

  lemma RoomStays(s: System, address: nat, level: int)
    requires Good(s) && Enabled(s, ProbeReceives(address, level)) && Room(s)
    ensures NextProcess(s, address, level).Some? ==> Room(NextProcess(s, address, level).value)
  {
    if s.down[0] != Ping { RequestOf(s); }
    if s.down[0] == Construct { NoRequests(s.down[1..], Construct); }
  }

  lemma {:induction false} NoRequests(down: seq<Command>, c: Command)
    requires Requests(down) == [] && c != Ping
    ensures c !in down
  {
    if down != [] {
      NoRequests(down[1..], c);
    }
  }

  lemma {:induction false} GoodSurvives(s: System, pick: Target -> nat, level: int)
    requires Good(s) && Allocates(pick) && Room(s)
    ensures Survives(s.target, s.down, pick, level)
    decreases |s.down|
  {
    if s.down != [] {
      var step := ProbeReceives(pick(s.target), level);
      assert Enabled(s, step);
      StepGood(s, step);
      RoomStays(s, pick(s.target), level);
      GoodSurvives(Next(s, step).value, pick, level);
    }
  }

  lemma LastDestructGoesOn(s: System, address: nat, level: int)
    requires Good(s) && LastDestruct(s.host) && s.down != [] && address != 0 && address !in Live(s.target.probes)
    ensures var step := ProbeReceives(address, level);
            Enabled(s, step) && Next(s, step).Some? && Good(Next(s, step).value) && Next(s, step).value.host == s.host
  {
    if s.down[0] != Ping { RequestOf(s); }
    StepGood(s, ProbeReceives(address, level));
  }

  lemma LastDestructDone(s: System)
    requires Good(s) && LastDestruct(s.host) && s.down == []
    ensures !s.target.connected
  {
    assert s.host.objects.Keys - {s.host.call.id} == {};
  }

  /** A step of the probe, seen from the messages. */
  lemma SurvivesStep(s: System, more: seq<Command>, pick: Target -> nat, level: int)
    requires s.down != [] && NextProcess(s, pick(s.target), level).Some?
    ensures var n := NextProcess(s, pick(s.target), level).value;
            Survives(s.target, s.down + more, pick, level) == Survives(n.target, n.down + more, pick, level)
  {
    var down := s.down + more;
    assert down[0] == s.down[0] && down[1..] == s.down[1..] + more;
  }

  lemma {:induction false} LastDestructStrands(s: System, pick: Target -> nat, level: int)
    requires Good(s) && LastDestruct(s.host) && Allocates(pick)
    ensures !Survives(s.target, s.down + [Ping], pick, level)
    decreases |s.down|
  {
    var down := s.down + [Ping];
    if s.down == [] {
      LastDestructDone(s);
    } else {
      var step := ProbeReceives(pick(s.target), level);
      LastDestructGoesOn(s, pick(s.target), level);
      SurvivesStep(s, [Ping], pick, level);
      LastDestructStrands(Next(s, step).value, pick, level);
    }
  }

  /** A tick of the ping timer is harmless exactly if no Destruct for the only object is unfinished: otherwise the
      probe, which disconnects when it deletes its last object, finds the ping and spins for ever. */
  lemma TickIsHarmless(steps: seq<Step>, t: System, pick: Target -> nat, level: int)
    requires Leads(BEGIN, steps, t) && MayTick(t.host) && Allocates(pick) && Room(t)
    ensures Survives(t.target, t.down + [Ping], pick, level) <==> !LastDestruct(t.host)
  {
    ReachableGood(steps, t);
    if LastDestruct(t.host) {
      LastDestructStrands(t, pick, level);
    } else {
      StepGood(t, Ticks);
      var n := Next(t, Ticks).value;
      assert Room(n);
      GoodSurvives(n, pick, level);
    }
  }

  /** Such a tick can come in a run: one object is registered and unregistered, and the timer runs meanwhile. */
  lemma TickCanStrand(o: nat) returns (steps: seq<Step>, t: System)
    ensures Leads(BEGIN, steps, t) && MayTick(t.host) && LastDestruct(t.host)
  {
    var connected := RunConnect(o);
    var registered := RunConstruct(o, connected);
    t := Next(registered, Unregisters(o)).value;
    Follow(registered, Unregisters(o), [], t);
    var connect := [Registers(o), ProbeReceives(1, 0), HostReceives, Resumes];
    var construct := [ProbeReceives(1, 0), HostReceives, Resumes];
    LeadsOn(connected, construct, registered, [Unregisters(o)], t);
    LeadsOn(BEGIN, connect, connected, construct + [Unregisters(o)], t);
    steps := connect + (construct + [Unregisters(o)]);
  }

  lemma Follow(s: System, step: Step, more: seq<Step>, t: System)
    requires Enabled(s, step) && Next(s, step).Some? && Leads(Next(s, step).value, more, t)
    ensures Leads(s, [step] + more, t)
  {
    assert ([step] + more)[1..] == more;
  }

  lemma {:induction false} LeadsOn(s: System, a: seq<Step>, m: System, b: seq<Step>, t: System)
    requires Leads(s, a, m) && Leads(m, b, t)
    ensures Leads(s, a + b, t)
    decreases |a|
  {
    if a == [] {
      assert a + b == b;
    } else {
      assert (a + b)[0] == a[0] && (a + b)[1..] == a[1..] + b;
      LeadsOn(Next(s, a[0]).value, a[1..], m, b, t);
    }
  }

  /** From the beginning to the request for the first object. */
  lemma RunConnect(o: nat) returns (t: System)
    ensures Leads(BEGIN, [Registers(o), ProbeReceives(1, 0), HostReceives, Resumes], t)
    ensures t.host == Host(Connected, map[], map[], Some(o), true, 0, ConstructCall(o), false)
    ensures t.target == Target([], 0, true, Table(map[], map[])) && t.down == [Construct] && t.up == []
  {
    var s := RunAnswer(o);
    t := RunResume(o, s);
    assert [Registers(o), ProbeReceives(1, 0)] + [HostReceives, Resumes] ==
           [Registers(o), ProbeReceives(1, 0), HostReceives, Resumes];
    LeadsOn(BEGIN, [Registers(o), ProbeReceives(1, 0)], s, [HostReceives, Resumes], t);
  }

  lemma RunAnswer(o: nat) returns (t: System)
    ensures Leads(BEGIN, [Registers(o), ProbeReceives(1, 0)], t)
    ensures t.host == Host(Standby, map[], map[], None, false, 0, ConnectCall(o), false)
    ensures t.target == Target([], 0, true, Table(map[], map[])) && t.down == [] && t.up == [StatusOk]
  {
    var s := Next(BEGIN, Registers(o)).value;
    assert Live([]) == {} && s.down == [Connect] && DestroyAll(Table(map[], map[]), []) == Table(map[], map[]);
    t := Next(s, ProbeReceives(1, 0)).value;
    assert t.down == [] && t.up == [StatusOk];
    Follow(s, ProbeReceives(1, 0), [], t);
    Follow(BEGIN, Registers(o), [ProbeReceives(1, 0)], t);
    assert [Registers(o)] + [ProbeReceives(1, 0)] == [Registers(o), ProbeReceives(1, 0)];
  }

  lemma RunResume(o: nat, s: System) returns (t: System)
    requires s.host == Host(Standby, map[], map[], None, false, 0, ConnectCall(o), false)
    requires s.down == [] && s.up == [StatusOk]
    ensures Leads(s, [HostReceives, Resumes], t) && t.target == s.target
    ensures t.host == Host(Connected, map[], map[], Some(o), true, 0, ConstructCall(o), false)
    ensures t.down == [Construct] && t.up == []
  {
    var r := Next(s, HostReceives).value;
    t := Next(r, Resumes).value;
    assert r.up == [] && t.down == [Construct];
    Follow(r, Resumes, [], t);
    Follow(s, HostReceives, [Resumes], t);
    assert [HostReceives] + [Resumes] == [HostReceives, Resumes];
  }

  /** To the end of the registration. */
  lemma RunConstruct(o: nat, s: System) returns (t: System)
    requires s.host == Host(Connected, map[], map[], Some(o), true, 0, ConstructCall(o), false)
    requires s.target == Target([], 0, true, Table(map[], map[])) && s.down == [Construct] && s.up == []
    ensures Leads(s, [ProbeReceives(1, 0), HostReceives, Resumes], t)
    ensures t.host == Host(Connected, map[1 := o], map[o := 1], None, true, 0, Idle, false) && t.down == [] && t.up == []
  {
    assert Live([]) == {};
    var s1 := Next(s, ProbeReceives(1, 0)).value;
    assert s1.down == [] && s1.up == [ObjectId(1)];
    var s2 := Next(s1, HostReceives).value;
    assert s2.up == [];
    t := Next(s2, Resumes).value;
    Follow(s2, Resumes, [], t);
    Follow(s1, HostReceives, [Resumes], t);
    Follow(s, ProbeReceives(1, 0), [HostReceives, Resumes], t);
    assert [HostReceives] + [Resumes] == [HostReceives, Resumes];
    assert [ProbeReceives(1, 0)] + [HostReceives, Resumes] == [ProbeReceives(1, 0), HostReceives, Resumes];
  }

  // -------------------------------------------------------------- progress

  function Rank(s: System): nat {
    if s.host.call.ConnectCall? then 1 else 0
  }

  /** The next delivery while a call waits. */
  ghost function Delivery(s: System, pick: Target -> nat, level: int): Step {
    if s.up != [] then HostReceives else if s.down != [] then ProbeReceives(pick(s.target), level) else Resumes
  }

  /** The call ends: from any reachable state, delivering what is on its way, with nothing else going on, brings the
      host back to where it can make the next call. There is no deadlock. */
  lemma {:induction false} CallEnds(s: System, pick: Target -> nat, level: int) returns (steps: seq<Step>, t: System)
    requires Good(s) && Allocates(pick) && Room(s)
    ensures Leads(s, steps, t) && t.host.call == Idle
    decreases Rank(s), Work(s), if s.host.call == Idle then 0 else 1
  {
    if s.host.call == Idle {
      return [], s;
    }
    var step := Delivery(s, pick, level);
    DeliveryPossible(s, pick, level);
    StepGood(s, step);
    var n := Next(s, step).value;
    DeliveryProgress(s, n, pick, level);
    var more;
    more, t := CallEnds(n, pick, level);
    steps := [step] + more;
    assert steps[1..] == more;
  }

  lemma DeliveryPossible(s: System, pick: Target -> nat, level: int)
    requires Good(s) && Allocates(pick) && Room(s) && s.host.call != Idle
    ensures Enabled(s, Delivery(s, pick, level))
  {
  }

  function Work(s: System): nat {
    3 * |s.down| + |s.up|
  }

  ghost predicate Nearer(s: System, n: System) {
    && Rank(n) <= Rank(s)
    && (Rank(n) < Rank(s) || Work(n) < Work(s) || (Work(n) == 0 && n.host.call == Idle))
  }

  lemma DeliveryProgress(s: System, n: System, pick: Target -> nat, level: int)
    requires Good(s) && Allocates(pick) && Room(s) && s.host.call != Idle
    requires var step := Delivery(s, pick, level); Enabled(s, step) && Next(s, step) == Some(n)
    ensures Room(n) && Nearer(s, n)
  {
    if s.up != [] {
      ReceiveProgress(s, n);
    } else if s.down != [] {
      RoomStays(s, pick(s.target), level);
      ProcessProgress(s, n, pick(s.target), level);
    } else {
      ResumeProgress(s, n);
    }
  }

  lemma ReceiveProgress(s: System, n: System)
    requires s.up != [] && NextReceive(s) == Some(n) && Room(s)
    ensures Room(n) && Nearer(s, n)
  {
    assert n.down == s.down && n.target == s.target && n.host.call == s.host.call;
  }

  /** A message to the probe is answered by at most two. */
  lemma ProcessProgress(s: System, n: System, address: nat, level: int)
    requires Stage(s) && s.down != [] && NextProcess(s, address, level) == Some(n)
    ensures Nearer(s, n)
  {
    if s.down[0].User? {
      RequestOf(s);
      AnswerIs(s.target.table, s.down[0].id, s.down[0].request, level);
    }
    assert n.host == s.host;
  }

  lemma ResumeProgress(s: System, n: System)
    requires s.up == [] && s.down == [] && AsksIf(s, Resume(s.host)) == Some(n) && Room(s) && s.host.call != Idle
    ensures Room(n) && Nearer(s, n)
  {
    if s.host.call.ConnectCall? {
      assert n.host.call.ConstructCall?;
    }
  }
}
