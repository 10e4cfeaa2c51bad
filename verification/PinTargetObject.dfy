/** The class PinTargetObject with its static table, proved against Pins. */
module PinTargetObjects {
  import opened Pins

  const IOIDS: nat := 32

  /** What the pin objects share: the static table, and the way to the host. */
  class Board {
    const instances: array<PinTargetObject?>
    var sent: seq<Reply>
    /** The live objects, by address. */
    ghost var objects: map<nat, PinTargetObject>

    ghost predicate Valid()
      reads this, instances, objects.Values
    {
      && instances.Length == IOIDS
      && (forall id {:trigger objects[id]} | id in objects ::
            objects[id].id == id && objects[id].board == this && objects[id].ioid < IOIDS)
      && forall k {:trigger instances[k]} | 0 <= k < IOIDS && instances[k] != null ::
           instances[k].id in objects && objects[instances[k].id] == instances[k]
    }

    ghost function T(): Table
      requires Valid()
      reads this, instances, objects.Values
    {
      Table(map id | id in objects :: objects[id].P(),
            map k: nat | k < IOIDS && instances[k] != null :: instances[k].id)
    }

    constructor ()
      ensures fresh(instances) && Valid() && T() == Table(map[], map[]) && sent == []
    {
      instances := new PinTargetObject?[IOIDS](k => null);
      sent, objects := [], map[];
    }
  }

  class PinTargetObject {
    const id: nat
    const board: Board
    var ioid: nat
    var value: int
    /** The driver's configuration of the pin. */
    var output: bool

    ghost function P(): Pin
      reads this
    {
      Pin(ioid, value, output)
    }

    ghost predicate Valid()
      reads this, board, board.instances, board.objects.Values
    {
      board.Valid() && id in board.objects && board.objects[id] == this
    }

    /** A fresh object has number 0, and is not in the table. */
    constructor (board: Board, address: nat)
      requires board.Valid() && address !in board.objects
      modifies board`objects
      ensures Valid() && this.board == board && id == address
      ensures board.T() == SetPin(old(board.T()), address, UNUSED)
    {
      this.id, this.board := address, board;
      ioid, value, output := 0, 0, false;
      new;
      board.objects := board.objects[address := this];
    }

    method SetEnabled(enabled: bool)
      requires Valid()
      modifies board.instances
      ensures Valid() && board.T() == Pins.SetEnabled(old(board.T()), id, enabled)
    {
      board.instances[ioid] := if enabled then this else null;
    }

    /** Whether some object has the number. */
    function IsEnabled(): bool
      requires Valid()
      reads this, board, board.instances, board.objects.Values
    {
      board.instances[ioid] != null
    }

    /** sendToHost. */
    method Send(r: Reply)
      requires Valid()
      modifies board`sent
      ensures Valid() && board.T() == old(board.T()) && board.sent == old(board.sent) + [r]
    {
      board.sent := board.sent + [r];
    }

    method Acknowledge()
      requires Valid()
      modifies board`sent
      ensures Valid() && board.T() == old(board.T())
      ensures board.sent == old(board.sent) + Pins.Acknowledge(old(board.T()), id)
    {
      if IsEnabled() {
        Send(StatusOk);
      }
    }

    /** Other objects keep their fields when this one changes. */
    lemma Updated(was: Table, p: Pin)
      requires Valid() && id in was.pins && P() == p
      requires was.pins.Keys == board.T().pins.Keys && was.instances == board.T().instances
      requires forall x | x in was.pins && x != id :: was.pins[x] == board.T().pins[x]
      ensures board.T() == SetPin(was, id, p)
    {
    }

    method SetNumber(number: nat)
      requires Valid() && number < IOIDS
      modifies this`ioid
      ensures Valid() && board.T() == SetPin(old(board.T()), id, old(P()).(ioid := number))
    {
      ghost var was := board.T();
      ioid := number;
      Updated(was, P());
    }

    method SetLevel(level: int)
      requires Valid()
      modifies this`value
      ensures Valid() && board.T() == SetPin(old(board.T()), id, old(P()).(value := level))
      ensures value == level
    {
      ghost var was := board.T();
      value := level;
      Updated(was, P());
    }

    method SetDirection(output: bool)
      requires Valid()
      modifies this`output
      ensures Valid() && board.T() == SetPin(old(board.T()), id, old(P()).(output := output))
    {
      ghost var was := board.T();
      this.output := output;
      Updated(was, P());
    }

    // ----------------------------------------------------------------- setters

    method SetPullMode()
      requires Valid()
      modifies board`sent
      ensures Valid() && board.T() == old(board.T())
      ensures board.sent == old(board.sent) + Pins.Acknowledge(board.T(), id)
    {
      Acknowledge();
    }

    method SetType(output: bool)
      requires Valid()
      modifies this`output, board`sent
      ensures Valid() && board.T() == SetPin(old(board.T()), id, old(P()).(output := output))
      ensures board.sent == old(board.sent) + Pins.Acknowledge(board.T(), id)
    {
      SetDirection(output);
      Acknowledge();
    }

    method SetValue(value: int)
      requires Valid()
      modifies this`value, board`sent
      ensures Valid() && board.T() == SetPin(old(board.T()), id, old(P()).(value := value))
      ensures board.sent == old(board.sent) + Pins.Acknowledge(board.T(), id)
    {
      SetLevel(value);
      Acknowledge();
    }

    method SetIoid(number: nat)
      requires Valid() && number < IOIDS
      modifies this`ioid, board.instances
      ensures Valid() && board.T() == Pins.SetIoid(old(board.T()), id, number)
    {
      var wasEnabled := IsEnabled();
      if wasEnabled {
        SetEnabled(false);
      }
      SetNumber(number);
      if wasEnabled {
        SetEnabled(true);
      }
    }

    method Configure(number: nat, output: bool, value: int)
      requires Valid() && number < IOIDS
      modifies this, board`sent
      ensures Valid()
      ensures var r := Pins.Configure(old(board.T()), id, number, output, value);
              board.T() == r.0 && board.sent == old(board.sent) + r.1
    {
      ghost var t := board.T();
      SetNumber(number);
      SetPullMode();
      SetType(output);
      SetValue(value);
      assert board.T() == Pins.Configure(t, id, number, output, value).0;
    }

    method Init(number: nat, output: bool, value: int, level: int)
      requires Valid() && number < IOIDS
      modifies this, board`sent, board.instances
      ensures Valid()
      ensures var r := Initialise(old(board.T()), id, number, output, value, level);
              board.T() == r.0 && board.sent == old(board.sent) + r.1
    {
      SetUp(number, output, value, level);
      Report();
    }

    /** Everything in init but its reply. */
    method SetUp(number: nat, output: bool, value: int, level: int)
      requires Valid() && number < IOIDS
      modifies this, board`sent, board.instances
      ensures Valid()
      ensures var r := Initialise(old(board.T()), id, number, output, value, level);
              board.T() == r.0 && board.sent + [StatusOk, Changed(id, this.value)] == old(board.sent) + r.1
    {
      ghost var t, was := board.T(), board.sent;
      Configure(number, output, value);
      Activate(output, level);
      InitialiseEnds(t, board.T(), was, board.sent, number, output, value, level);
    }

    lemma InitialiseEnds(t: Table, r: Table, was: seq<Reply>, sent: seq<Reply>, number: nat, output: bool, value: int,
                         level: int)
      requires id in t.pins
      requires var c := Pins.Configure(t, id, number, output, value);
               var t4 := Pins.SetEnabled(c.0, id, true);
               && r == (if output then t4 else SetPin(t4, id, t4.pins[id].(value := level)))
               && id in r.pins && this.value == r.pins[id].value && sent == was + c.1
      ensures var i := Initialise(t, id, number, output, value, level);
              r == i.0 && sent + [StatusOk, Changed(id, this.value)] == was + i.1
    {
    }

    /** The reply that the host waits for, and the value of the pin. */
    method Report()
      requires Valid()
      modifies board`sent
      ensures Valid() && board.T() == old(board.T()) && board.sent == old(board.sent) + [StatusOk, Changed(id, value)]
    {
      Send(StatusOk);
      Send(Changed(id, value));
    }

    /** The object enters the table, and an input reads its pin. */
    method Activate(output: bool, level: int)
      requires Valid()
      modifies this`value, board.instances
      ensures Valid() && value == board.T().pins[id].value
      ensures var t4 := Pins.SetEnabled(old(board.T()), id, true);
              board.T() == if output then t4 else SetPin(t4, id, t4.pins[id].(value := level))
    {
      SetEnabled(true);
      if !output {
        SetLevel(level);
      }
    }

    /** parseMessage; numbers are those of real pins. */
    method ParseMessage(m: Request, level: int)
      requires Valid() && (m.Init? || m.ChangeIoid? ==> m.ioid < IOIDS)
      modifies this, board`sent, board.instances
      ensures Valid()
      ensures var r := Parse(old(board.T()), id, m, level);
              board.T() == r.0 && board.sent == old(board.sent) + r.1
    {
      match m {
        case Init(number, output, value) => Init(number, output, value, level);
        case ChangeIoid(number) => SetIoid(number);
        case ChangeValue(value) => SetValue(value);
        case ChangePullMode => SetPullMode();
        case ChangeType(output) => SetType(output);
      }
    }

    /** In a consistent table only the entry of its own number leads to the object. */
    lemma OwnEntryOnly()
      requires Valid() && Consistent(board.T())
      ensures forall k | 0 <= k < IOIDS && board.instances[k] == this :: k == ioid
    {
      forall k: nat | k < IOIDS && board.instances[k] == this ensures k == ioid {
        assert k in board.T().instances && board.T().instances[k] == id;
      }
    }

    /** The destructor. */
    method Destruct()
      requires Valid() && Consistent(board.T())
      modifies board`objects, board.instances
      ensures board.Valid() && board.T() == Destroy(old(board.T()), id)
    {
      SetEnabled(false);
      OwnEntryOnly();
      assert ioid !in board.T().instances;
      board.objects := board.objects - {id};
    }

    /** The pin changed. */
    method OnValueChanged(level: int)
      requires Valid()
      modifies this`value, board`sent
      ensures Valid()
      ensures output ==> board.T() == old(board.T()) && board.sent == old(board.sent)
      ensures !output ==>
        var v := if level == 1 then 1 else 0;
        board.T() == SetPin(old(board.T()), id, old(P()).(value := v)) && board.sent == old(board.sent) + [Changed(id, v)]
    {
      if output {
        return;
      }
      SetLevel(if level == 1 then 1 else 0);
      Send(Changed(id, value));
    }
  }

  /** onPinEvent. */
  method OnPinEvent(board: Board, pin: nat, level: int)
    requires board.Valid() && pin < IOIDS
    modifies board.objects.Values, board`sent
    ensures board.Valid() && Edge(old(board.T()), pin, level).Some?
    ensures var r := Edge(old(board.T()), pin, level).value;
            board.T() == r.0 && board.sent == old(board.sent) + r.1
  {
    var instance := board.instances[pin];
    if instance != null {
      instance.OnValueChanged(level);
    }
  }
}
