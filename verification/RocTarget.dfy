/** The probe's half of ROC: which objects live, and how a message from the host is answered. */
module RocTargets {
  import opened Options
  import opened Pins

  /** Messages from the host. All but Ping carry the blocking mark. */
  datatype Command = Connect | Construct | Destruct(id: nat) | Ping | User(id: nat, request: Request)

  const CAPACITY: nat := 32

  /** The globals of the controller: the list of probes keeps a hole where one was deleted. */
  datatype Target = Target(probes: seq<Option<nat>>, probeCount: int, connected: bool, table: Table)

  const IDLE: Target := Target([], 0, false, Table(map[], map[]))

  function Live(probes: seq<Option<nat>>): set<nat> {
    set p | p in probes && p.Some? :: p.value
  }

  predicate Distinct(probes: seq<Option<nat>>) {
    forall i, j | 0 <= i < j < |probes| && probes[i].Some? :: probes[i] != probes[j]
  }

  /** The list without the object: its entries become null. */
  function Without(probes: seq<Option<nat>>, id: nat): (r: seq<Option<nat>>)
    ensures |r| == |probes|
  {
    seq(|probes|, i requires 0 <= i < |probes| => if probes[i] == Some(id) then None else probes[i])
  }

  /** How often the object is listed. */
  function Times(probes: seq<Option<nat>>, id: nat): nat {
    if probes == [] then 0
    else Times(probes[..|probes| - 1], id) + if probes[|probes| - 1] == Some(id) then 1 else 0
  }

  /** delete for every listed object. */
  function DestroyAll(t: Table, probes: seq<Option<nat>>): Table {
    if probes == [] then t
    else
      var r := DestroyAll(t, probes[..|probes| - 1]);
      DestroyEntry(r, probes[|probes| - 1])
  }

  function DestroyEntry(t: Table, p: Option<nat>): Table {
    if p.Some? && p.value in t.pins then Destroy(t, p.value) else t
  }

  /** The state is consistent: count and table agree with the list. */
  ghost predicate Valid(t: Target) {
    && Consistent(t.table) && Distinct(t.probes) && 0 !in Live(t.probes)
    && t.table.pins.Keys == Live(t.probes) && t.probeCount == |Live(t.probes)|
  }

  // ---------------------------------------------------------------- messages

  function Connecting(t: Target): (Target, seq<Reply>) {
    (Target([], 0, true, DestroyAll(t.table, t.probes)), [StatusOk])
  }

  /** new PinTargetObject at a fresh address. */
  function Constructing(t: Target, address: nat): (Target, seq<Reply>) {
    (t.(probes := t.probes + [Some(address)], probeCount := t.probeCount + 1, table := SetPin(t.table, address, UNUSED)),
     [ObjectId(address)])
  }

  function Destructing(t: Target, id: nat): (Target, seq<Reply>) {
    var n := Times(t.probes, id);
    var table := if n > 0 then DestroyEntry(t.table, Some(id)) else t.table;
    var count := t.probeCount - n;
    var r := t.(probes := Without(t.probes, id), probeCount := count, table := table);
    (if count == 0 then r.(probes := [], connected := false) else r, [StatusOk])
  }

  /** processMessage. There is no result when the probe does not get on: it spins on anything but Connect before a
      connection, runs out of room, or follows an address where no object is. */
  function Process(t: Target, c: Command, address: nat, level: int): Option<(Target, seq<Reply>)> {
    if !t.connected && c != Connect then None
    else match c
      case Connect => Some(Connecting(t))
      case Construct => if |t.probes| >= CAPACITY then None else Some(Constructing(t, address))
      case Destruct(id) => Some(Destructing(t, id))
      case Ping => Some((t, [Pong]))
      case User(id, request) =>
        if id == 0 || id !in t.table.pins then None
        else
          var r := Parse(t.table, id, request, level);
          Some((t.(table := r.0), r.1))
  }

  // -------------------------------------------------------------- properties

  lemma LiveGrows(probes: seq<Option<nat>>, id: nat)
    ensures Live(probes + [Some(id)]) == Live(probes) + {id}
  {
    assert forall p | p in probes :: p in probes + [Some(id)];
    assert (probes + [Some(id)])[|probes|] == Some(id);
  }

  lemma LiveShrinks(probes: seq<Option<nat>>, id: nat)
    ensures Live(Without(probes, id)) == Live(probes) - {id}
  {
    var r := Without(probes, id);
    forall x | x in Live(probes) - {id} ensures x in Live(r) {
      var i :| 0 <= i < |probes| && probes[i] == Some(x);
      assert r[i] == Some(x);
    }
    forall x | x in Live(r) ensures x in Live(probes) - {id} {
      var i :| 0 <= i < |r| && r[i] == Some(x);
      assert probes[i] == Some(x);
    }
  }

  lemma {:induction false} TimesOnce(probes: seq<Option<nat>>, id: nat)
    requires Distinct(probes)
    ensures Times(probes, id) == if Some(id) in probes then 1 else 0
  {
    if probes != [] {
      var n := |probes| - 1;
      TimesOnce(probes[..n], id);
      assert probes == probes[..n] + [probes[n]];
    }
  }

  lemma ConstructKeeps(t: Target, address: nat)
    requires Valid(t) && address != 0 && address !in Live(t.probes)
    ensures var r := Constructing(t, address).0;
            Valid(r) && Live(r.probes) == Live(t.probes) + {address} && r.connected == t.connected
            && r.table.instances == t.table.instances
            && r.table.pins == t.table.pins[address := Pin(0, 0, false)]
  {
    LiveGrows(t.probes, address);
  }

  /** Exactly one entry goes if the object is listed, and the probe disconnects when none is left. */
  lemma DestructKeeps(t: Target, id: nat)
    requires Valid(t) && id in Live(t.probes)
    ensures var r := Destructing(t, id).0;
            && Valid(r) && Live(r.probes) == Live(t.probes) - {id} && id !in r.table.instances.Values
            && (forall k | k in r.table.instances :: k in t.table.instances && r.table.instances[k] == t.table.instances[k])
            && r.connected == (t.connected && Live(r.probes) != {})
  {
    TimesOnce(t.probes, id);
    LiveShrinks(t.probes, id);
    DestroyKeeps(t.table, id);
    var left := Without(t.probes, id);
    assert Some(id) in t.probes;
    assert |Live(left)| == |Live(t.probes)| - 1;
    assert Live([]) == {};
    assert |Live(left)| == 0 <==> Live(left) == {};
    forall i, j | 0 <= i < j < |left| && left[i].Some? ensures left[i] != left[j] {
      assert t.probes[i] != t.probes[j];
    }
  }

  lemma {:induction false} AllDestroyed(t: Table, probes: seq<Option<nat>>)
    requires Consistent(t)
    ensures var r := DestroyAll(t, probes); Consistent(r) && r.pins.Keys == t.pins.Keys - Live(probes)
  {
    if probes == [] {
      assert Live(probes) == {};
    } else {
      var n := |probes| - 1;
      AllDestroyed(t, probes[..n]);
      var r := DestroyAll(t, probes[..n]);
      assert probes == probes[..n] + [probes[n]];
      if probes[n].Some? {
        LiveGrows(probes[..n], probes[n].value);
        if probes[n].value in r.pins { DestroyKeeps(r, probes[n].value); }
      } else {
        assert Live(probes) == Live(probes[..n]) by {
          forall p | p in probes && p.Some? ensures p in probes[..n] {}
        }
      }
    }
  }

  /** Whatever lived before, nothing does after Connect. */
  lemma ConnectKeeps(t: Target)
    requires Valid(t)
    ensures var r := Connecting(t).0;
            Valid(r) && r.connected && Live(r.probes) == {} && r.table == Table(map[], map[])
  {
    AllDestroyed(t.table, t.probes);
    assert Live([]) == {};
    var r := DestroyAll(t.table, t.probes);
    assert r.pins == map[];
    assert r.instances == map[];
  }

  /** A request that the host may wait for changes no other object, and is answered once. */
  lemma UserKeeps(t: Target, id: nat, m: Request, level: int)
    requires Valid(t) && Answerable(t.table, id, m) && (m.Init? ==> id !in t.table.instances.Values)
    ensures var r := t.(table := Parse(t.table, id, m, level).0);
            && Valid(r) && (forall k | k in r.table.instances ::
                 (k in t.table.instances && r.table.instances[k] == t.table.instances[k]) || r.table.instances[k] == id)
  {
    ParseKeeps(t.table, id, m, level);
    AnswerIs(t.table, id, m, level);
  }
}
