/** The pin objects of the probe: what a request changes, and which replies it causes. */
module Pins {
  import opened Options

  /** What a probe sends to the host. StatusOk and ObjectId carry the blocking mark. */
  datatype Reply = StatusOk | ObjectId(id: nat) | Pong | Changed(id: nat, value: int)

  predicate Blocking(r: Reply) {
    r.StatusOk? || r.ObjectId?
  }

  /** The blocking replies among these. */
  function Blockings(replies: seq<Reply>): seq<Reply> {
    if replies == [] then []
    else (if Blocking(replies[0]) then [replies[0]] else []) + Blockings(replies[1..])
  }

  datatype Request =
    | Init(ioid: nat, output: bool, value: int)
    | ChangeIoid(ioid: nat) | ChangeValue(value: int) | ChangePullMode | ChangeType(output: bool)

  /** The fields of a PinTargetObject, and whether the driver has its pin as an output. */
  datatype Pin = Pin(ioid: nat, value: int, output: bool)

  const UNUSED: Pin := Pin(0, 0, false)

  /** The objects by address, and the static table of the pin that handles each input or output. */
  datatype Table = Table(pins: map<nat, Pin>, instances: map<nat, nat>)

  /** Every entry of the static table is an object, under that object's own number. */
  ghost predicate Consistent(t: Table) {
    forall k | k in t.instances :: t.instances[k] in t.pins && t.pins[t.instances[k]].ioid == k
  }

  // ------------------------------------------------------------- operations

  /** Whether isEnabled() holds: some object has the number, not necessarily this one. */
  predicate IsEnabled(t: Table, id: nat)
    requires id in t.pins
  {
    t.pins[id].ioid in t.instances
  }

  function SetEnabled(t: Table, id: nat, enabled: bool): Table
    requires id in t.pins
  {
    t.(instances := if enabled then t.instances[t.pins[id].ioid := id] else t.instances - {t.pins[id].ioid})
  }

  /** How every setter but setIoid ends. */
  function Acknowledge(t: Table, id: nat): seq<Reply>
    requires id in t.pins
  {
    if IsEnabled(t, id) then [StatusOk] else []
  }

  function SetPin(t: Table, id: nat, p: Pin): Table {
    t.(pins := t.pins[id := p])
  }

  /** setIoid answers nothing. */
  function SetIoid(t: Table, id: nat, ioid: nat): Table
    requires id in t.pins
  {
    var was := IsEnabled(t, id);
    var t1 := if was then SetEnabled(t, id, false) else t;
    var t2 := SetPin(t1, id, t1.pins[id].(ioid := ioid));
    if was then SetEnabled(t2, id, true) else t2
  }

  /** The first half of init: the setters answer too if the number is taken. */
  function Configure(t: Table, id: nat, ioid: nat, output: bool, value: int): (r: (Table, seq<Reply>))
    requires id in t.pins
    ensures id in r.0.pins && r.0.pins[id] == Pin(ioid, value, output)
  {
    var t1 := SetPin(t, id, t.pins[id].(ioid := ioid));
    var t2 := SetPin(t1, id, t1.pins[id].(output := output));
    var t3 := SetPin(t2, id, t2.pins[id].(value := value));
    (t3, Acknowledge(t1, id) + Acknowledge(t2, id) + Acknowledge(t3, id))
  }

  /** init. The value of an input is read from the pin. */
  function Initialise(t: Table, id: nat, ioid: nat, output: bool, value: int, level: int): (Table, seq<Reply>)
    requires id in t.pins
  {
    var c := Configure(t, id, ioid, output, value);
    var t4 := SetEnabled(c.0, id, true);
    var t5 := if output then t4 else SetPin(t4, id, t4.pins[id].(value := level));
    (t5, c.1 + [StatusOk, Changed(id, t5.pins[id].value)])
  }

  /** parseMessage; `level` is what the pin driver would read. */
  function Parse(t: Table, id: nat, m: Request, level: int): (Table, seq<Reply>)
    requires id in t.pins
  {
    match m
    case Init(ioid, output, value) => Initialise(t, id, ioid, output, value, level)
    case ChangeIoid(ioid) => (SetIoid(t, id, ioid), [])
    case ChangeValue(value) =>
      var r := SetPin(t, id, t.pins[id].(value := value));
      (r, Acknowledge(r, id))
    case ChangePullMode => (t, Acknowledge(t, id))
    case ChangeType(output) =>
      var r := SetPin(t, id, t.pins[id].(output := output));
      (r, Acknowledge(r, id))
  }

  /** The destructor frees the number of the object, whoever has it. */
  function Destroy(t: Table, id: nat): Table
    requires id in t.pins
  {
    var r := SetEnabled(t, id, false);
    r.(pins := r.pins - {id})
  }

  /** An edge at a pin: the object in the table reports it unless the pin is an output. There is no result if the
      table leads to an object that does not exist. */
  function Edge(t: Table, ioid: nat, level: int): Option<(Table, seq<Reply>)> {
    if ioid !in t.instances then Some((t, []))
    else
      var id := t.instances[ioid];
      if id !in t.pins then None
      else if t.pins[id].output then Some((t, []))
      else
        var value := if level == 1 then 1 else 0;
        Some((SetPin(t, id, t.pins[id].(value := value)), [Changed(id, value)]))
  }

  // -------------------------------------------------------------- properties

  /** A request that the host may wait for. */
  predicate Answerable(t: Table, id: nat, m: Request) {
    && id in t.pins
    && match m
       case Init(ioid, _, _) => ioid !in t.instances
       case ChangeIoid(_) => false
       case _ => t.pins[id].ioid in t.instances
  }

  /** Exactly then the host, which waits for every request, gets exactly one blocking reply: for a change if the
      pin's number is in use, for an initialisation if it is not, and never for a change of the number. */
  lemma OneReply(t: Table, id: nat, m: Request, level: int)
    requires id in t.pins
    ensures |Blockings(Parse(t, id, m, level).1)| == 1 <==> Answerable(t, id, m)
  {
    var replies := Parse(t, id, m, level).1;
    if m.Init? {
      var last := replies[|replies| - 1];
      if m.ioid in t.instances {
        assert replies == [StatusOk, StatusOk, StatusOk, StatusOk, last];
        assert replies[1..] == [StatusOk, StatusOk, StatusOk, last];
        assert replies[1..][1..] == [StatusOk, StatusOk, last];
      } else {
        assert replies == [StatusOk, last];
        assert replies[1..] == [last];
        assert Blockings([last]) == [];
      }
    }
  }

  /** A change of the number is one that the host waits for in vain, whatever the object. */
  lemma NumberChangeUnanswered(t: Table, id: nat, ioid: nat, level: int)
    requires id in t.pins
    ensures Parse(t, id, ChangeIoid(ioid), level).1 == [] && !Answerable(t, id, ChangeIoid(ioid))
  {
  }

  /** So is any change of an object that was constructed and not yet initialised, while its number 0 is free. */
  lemma ChangeBeforeInitUnanswered(id: nat, value: int, level: int)
    ensures var t := Table(map[id := UNUSED], map[]);
            Consistent(t) && Parse(t, id, ChangeValue(value), level).1 == []
  {
  }

  /** What else a request with one reply does: the reply is StatusOk and comes first, the rest names the object,
      and no other object is touched. */
  lemma AnswerIs(t: Table, id: nat, m: Request, level: int)
    requires Answerable(t, id, m)
    ensures var (r, replies) := Parse(t, id, m, level);
            && (replies == [StatusOk] || (m.Init? && replies == [StatusOk, Changed(id, r.pins[id].value)]))
            && r.pins.Keys == t.pins.Keys && (forall x | x in t.pins && x != id :: r.pins[x] == t.pins[x])
            && (forall k | k in r.instances :: 
                 (k in t.instances && r.instances[k] == t.instances[k]) || (m.Init? && r.instances[k] == id))
  {
  }

  /** What the host is told is what the object holds: an input reports what was read, an output what it was set to,
      and an edge is reported for inputs only. */
  lemma ReportsAreTrue(t: Table, id: nat, m: Request, ioid: nat, level: int)
    requires Consistent(t) && Answerable(t, id, m)
    ensures var r := Parse(t, id, m, level);
            forall c | c in r.1 && c.Changed? ::
              m.Init? && c.id == id && c.value == r.0.pins[id].value == if m.output then m.value else level
    ensures var e := Edge(t, ioid, level);
            && e.Some? && e.value.0.instances == t.instances && e.value.0.pins.Keys == t.pins.Keys
            && (e.value.1 == [] <==> ioid !in t.instances || t.pins[t.instances[ioid]].output)
            && forall c | c in e.value.1 ::
                 c == Changed(t.instances[ioid], if level == 1 then 1 else 0) && e.value.0.pins[c.id].value == c.value
  {
    var r := Parse(t, id, m, level);
    if m.Init? {
      assert r.1 == [StatusOk, Changed(id, r.0.pins[id].value)];
    }
  }

  /** What a request leaves behind, whether it is answered or not: of its own object exactly the field that was asked
      for, of the static table the number of the object if it has changed. */
  ghost predicate Leaves(t: Table, id: nat, m: Request, level: int, r: Table)
    requires id in t.pins
  {
    var p := t.pins[id];
    && r.pins.Keys == t.pins.Keys && (forall x | x in t.pins && x != id :: r.pins[x] == t.pins[x])
    && match m
       case Init(n, output, value) =>
         r.pins[id] == Pin(n, if output then value else level, output) && r.instances == t.instances[n := id]
       case ChangeIoid(n) => r.pins[id] == Pin(n, p.value, p.output) && NumberMoved(t, id, p.ioid, n, r)
       case ChangeValue(value) => r.pins[id] == Pin(p.ioid, value, p.output) && r.instances == t.instances
       case ChangePullMode => r.pins[id] == p && r.instances == t.instances
       case ChangeType(output) => r.pins[id] == Pin(p.ioid, p.value, output) && r.instances == t.instances
  }

  /** Edges at the new number reach the object, and none at the old one, if the old one was in use. */
  ghost predicate NumberMoved(t: Table, id: nat, from: nat, to: nat, r: Table) {
    forall k: nat {:trigger k in r.instances} ::
      if from in t.instances && k == to then k in r.instances && r.instances[k] == id
      else if from in t.instances && k == from then k !in r.instances
      else (k in r.instances <==> k in t.instances) && (k in t.instances ==> r.instances[k] == t.instances[k])
  }

  lemma RequestLeaves(t: Table, id: nat, m: Request, level: int)
    requires id in t.pins
    ensures Leaves(t, id, m, level, Parse(t, id, m, level).0)
  {
  }

  /** A change of the direction decides about edges: the object reports them exactly as an input. */
  lemma TypeDecidesEdges(t: Table, id: nat, output: bool, level: int, now: int)
    requires id in t.pins && t.pins[id].ioid in t.instances && t.instances[t.pins[id].ioid] == id
    ensures var e := Edge(Parse(t, id, ChangeType(output), level).0, t.pins[id].ioid, now);
            e.Some? && e.value.1 == if output then [] else [Changed(id, if now == 1 then 1 else 0)]
  {
  }

  /** The table stays consistent: an object is initialised once, and with a number of its own. */
  lemma ParseKeeps(t: Table, id: nat, m: Request, level: int)
    requires Consistent(t) && Answerable(t, id, m)
    requires m.Init? ==> id !in t.instances.Values
    ensures Consistent(Parse(t, id, m, level).0)
  {
  }

  /** A deleted object is out of the table, so that no edge reaches it any more. */
  lemma DestroyKeeps(t: Table, id: nat)
    requires Consistent(t) && id in t.pins
    ensures var r := Destroy(t, id);
            && Consistent(r) && r.pins.Keys == t.pins.Keys - {id} && id !in r.instances.Values
            && (forall k | k in r.instances :: k in t.instances && r.instances[k] == t.instances[k])
  {
  }

  /** Deleting an object takes another one's number exactly if they have the same: in a consistent table, if the
      deleted one was never initialised and number 0 is in use. */
  lemma DestroyDisables(t: Table, id: nat, other: nat)
    requires Consistent(t) && id in t.pins && other in t.pins && other != id && other in t.instances.Values
    ensures other !in Destroy(t, id).instances.Values <==> t.pins[id].ioid == t.pins[other].ioid
  {
    var k :| k in t.instances && t.instances[k] == other;
    assert k == t.pins[other].ioid;
    var r := Destroy(t, id);
    if t.pins[id].ioid != k {
      assert k in r.instances && r.instances[k] == other;
    }
  }

  /** Two objects, one initialised with number 0 and one never: deleting the second disables the first, which is then
      not answered any more and reports no edge. */
  lemma DestroyDisablesAnother(level: int)
    ensures var t := Table(map[1 := Pin(0, 0, false), 2 := UNUSED], map[0 := 1]);
            var r := Destroy(t, 2);
            && Consistent(t) && 1 in t.instances.Values && 1 !in r.instances.Values && 1 in r.pins
            && Parse(r, 1, ChangeValue(1), level).1 == [] && Edge(r, 0, level) == Some((r, []))
  {
    var t := Table(map[1 := Pin(0, 0, false), 2 := UNUSED], map[0 := 1]);
    assert t.instances[0] == 1;
    assert Destroy(t, 2).instances == map[];
  }
}
