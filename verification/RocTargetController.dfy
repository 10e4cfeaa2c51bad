/** The controller of the probe, proved against RocTargets: its list of objects is a fixed array that is changed in
    place. */
module RocTargetControllers {
  import opened Options
  import opened Pins
  import opened RocTargets

  class RocTargetController {
    const data: array<Option<nat>>
    var length: nat
    var probeCount: int
    var connected: bool
    /** The pin objects and their static table. */
    var table: Table
    /** What was sent to the host. */
    var sent: seq<Reply>

    ghost predicate Valid()
      reads this
    {
      data.Length == CAPACITY && length <= CAPACITY
    }

    ghost function T(): Target
      requires Valid()
      reads this, data
    {
      Target(data[..length], probeCount, connected, table)
    }

    constructor ()
      ensures fresh(data) && Valid() && T() == IDLE && sent == []
    {
      data := new Option<nat>[CAPACITY](i => None);
      length, probeCount, connected, table, sent := 0, 0, false, Table(map[], map[]), [];
    }

    /** processMessage, for the messages that the probe gets on with. */
    method ProcessMessage(c: Command, address: nat, level: int)
      requires Valid() && Process(T(), c, address, level).Some?
      modifies this, data
      ensures Valid() && old(sent) <= sent
      ensures Process(old(T()), c, address, level) == Some((T(), sent[|old(sent)|..]))
    {
      match c {
        case Connect => Reconnect();
        case Construct => ConstructObject(address);
        case Destruct(id) => DestructObject(id);
        case Ping => sent := sent + [Pong];
        case User(id, request) =>
          var r := Parse(table, id, request, level);
          table := r.0;
          sent := sent + r.1;
      }
    }

    /** Whatever objects there are from an earlier connection are deleted. */
    method Reconnect()
      requires Valid()
      modifies this, data
      ensures Valid() && var r := Connecting(old(T())); T() == r.0 && sent == old(sent) + r.1
    {
      for i := 0 to length
        invariant Valid() && length == old(length) && data[..] == old(data[..]) && sent == old(sent)
        invariant table == DestroyAll(old(table), data[..i])
      {
        assert data[..i + 1][..i] == data[..i];
        if data[i].Some? && data[i].value in table.pins {
          table := Destroy(table, data[i].value);
        }
      }
      length := 0;
      probeCount := 0;
      sent := sent + [StatusOk];
      connected := true;
    }

    method ConstructObject(address: nat)
      requires Valid() && length < CAPACITY
      modifies this, data
      ensures Valid() && var r := Constructing(old(T()), address); T() == r.0 && sent == old(sent) + r.1
    {
      table := SetPin(table, address, UNUSED);
      sent := sent + [ObjectId(address)];
      data[length] := Some(address);
      length := length + 1;
      probeCount := probeCount + 1;
    }

    /** Every entry of the object becomes null; without objects the probe is not connected any more. */
    method DestructObject(id: nat)
      requires Valid()
      modifies this, data
      ensures Valid() && var r := Destructing(old(T()), id); T() == r.0 && sent == old(sent) + r.1
    {
      ghost var was := data[..length];
      for i := 0 to length
        invariant Valid() && length == old(length) && sent == old(sent) && connected == old(connected)
        invariant forall k | 0 <= k < i :: data[k] == Without(was, id)[k]
        invariant forall k | i <= k < length :: data[k] == was[k]
        invariant probeCount == old(probeCount) - Times(was[..i], id)
        invariant table == if Times(was[..i], id) > 0 then DestroyEntry(old(table), Some(id)) else old(table)
      {
        assert was[..i + 1][..i] == was[..i];
        if data[i] == Some(id) {
          if id in table.pins {
            table := Destroy(table, id);
          }
          data[i] := None;
          probeCount := probeCount - 1;
        }
      }
      assert data[..length] == Without(was, id) && was[..length] == was;
      if probeCount == 0 {
        length := 0;
        connected := false;
      }
      sent := sent + [StatusOk];
    }
  }
}
