/** Reference counts of the firmware's message buffers. SharedPointer keeps the count inside the buffer; some
    references are not held by a SharedPointer: a buffer in the transmit queue or in the mailbox, or a raw pointer on
    its way from one to the other. */
module BufferPools {
  import opened Frames

  /** The SharedPointer variables of the firmware: two globals, those of the interrupt handlers, those of the main task. */
  datatype Var = RxBuffer | TxBuffer | Temporary | IsrMessage | IsrCopy | RxMessage | TxMessage | TaskCopy

  datatype Buffer = Buffer(refCount: nat, data: bytes)

  /** `memory` holds the live buffers by address, `pointers` the SharedPointers that are not null, `loose` the
      references that were counted by hand and are neither queued nor posted. Addresses below `next` were handed out;
      `freed` lists the deleted ones. */
  datatype Pool = Pool(
    memory: map<nat, Buffer>, next: nat, freed: seq<nat>, pointers: map<Var, nat>, loose: multiset<nat>,
    txQueue: seq<nat>, mailbox: seq<nat>)

  /** The SharedPointers that hold b. */
  function Holders(pointers: map<Var, nat>, b: nat): set<Var> {
    set v | v in pointers && pointers[v] == b
  }

  /** All references to b. */
  function References(p: Pool, b: nat): nat {
    |Holders(p.pointers, b)| + p.loose[b] + multiset(p.txQueue)[b] + multiset(p.mailbox)[b]
  }

  /** The count of a live buffer is the number of its references; a buffer that is not live has none. */
  ghost predicate CountRight(p: Pool, b: nat) {
    && (if b in p.memory then b < p.next && p.memory[b].refCount == References(p, b) else References(p, b) == 0)
    && multiset(p.freed)[b] == if b < p.next && b !in p.memory then 1 else 0
  }

  ghost predicate Counted(p: Pool) {
    forall b: nat {:trigger CountRight(p, b)} :: CountRight(p, b)
  }

  /** No live buffer without a reference. */
  ghost predicate NoLeak(p: Pool) {
    forall b | b in p.memory :: p.memory[b].refCount > 0
  }

  /** What conservation says about one buffer: live means referenced, and it was deleted at most once. */
  lemma LiveMeansReferenced(p: Pool, b: nat)
    requires Counted(p) && NoLeak(p)
    ensures b in p.memory <==> References(p, b) > 0
    ensures multiset(p.freed)[b] <= 1
    ensures b in p.freed ==> b !in p.txQueue && b !in p.mailbox && b !in p.loose && b !in p.pointers.Values
  {
    assert CountRight(p, b);
    if v :| v in p.pointers && p.pointers[v] == b { PointerHolds(p.pointers, v); }
  }

  lemma PointerHolds(pointers: map<Var, nat>, v: Var)
    requires v in pointers
    ensures |Holders(pointers, pointers[v])| > 0
  {
    assert v in Holders(pointers, pointers[v]);
  }

  lemma Rebound(pointers: map<Var, nat>, v: Var, b: nat, x: nat)
    requires v !in pointers
    ensures |Holders(pointers[v := b], x)| == |Holders(pointers, x)| + if x == b then 1 else 0
  {
    assert Holders(pointers[v := b], x) == Holders(pointers, x) + if x == b then {v} else {};
  }

  lemma Unbound(pointers: map<Var, nat>, v: Var, x: nat)
    requires v in pointers
    ensures |Holders(pointers - {v}, x)| + (if x == pointers[v] then 1 else 0) == |Holders(pointers, x)|
  {
    assert (pointers - {v})[v := pointers[v]] == pointers;
    Rebound(pointers - {v}, v, pointers[v], x);
  }

  /** Buffers that stay live keep their bytes. */
  ghost predicate SameData(p: Pool, r: Pool) {
    forall b {:trigger r.memory[b]} | b in r.memory && b in p.memory :: r.memory[b].data == p.memory[b].data
  }

  // -------------------------------------------------- operations on counts

  /** new MessageBuffer. */
  function New(p: Pool, data: bytes): (r: Pool)
    requires Counted(p)
    ensures Counted(r) && p.next in r.memory
    ensures NoLeak(p) ==> forall b | b in r.memory && b != p.next :: r.memory[b].refCount > 0
    ensures SameData(p, r)
  {
    var r := p.(memory := p.memory[p.next := Buffer(0, data)], next := p.next + 1);
    assert CountRight(p, p.next);
    assert Counted(r) by {
      forall b: nat ensures CountRight(r, b) { assert CountRight(p, b); }
    }
    r
  }

  function Counting(p: Pool, b: nat): Pool
    requires b in p.memory
  {
    p.(memory := p.memory[b := p.memory[b].(refCount := p.memory[b].refCount + 1)])
  }

  /** The effect of decrementRefCount on the buffer: deletion at zero. */
  function Uncounting(p: Pool, b: nat): Pool
    requires b in p.memory && p.memory[b].refCount > 0
  {
    if p.memory[b].refCount == 1 then p.(memory := p.memory - {b}, freed := p.freed + [b])
    else p.(memory := p.memory[b := p.memory[b].(refCount := p.memory[b].refCount - 1)])
  }

  /** A SharedPointer is constructed or assigned. */
  function Bind(p: Pool, v: Var, b: nat): (r: Pool)
    requires Counted(p) && v !in p.pointers && b in p.memory
    ensures Counted(r) && (NoLeak(p) ==> NoLeak(r))
    ensures (forall x | x in p.memory && x != b :: p.memory[x].refCount > 0) ==> NoLeak(r)
    ensures SameData(p, r)
  {
    var r := Counting(p, b).(pointers := p.pointers[v := b]);
    assert Counted(r) by {
      forall x: nat ensures CountRight(r, x) { assert CountRight(p, x); Rebound(p.pointers, v, b, x); }
    }
    r
  }

  lemma BoundIsLive(p: Pool, v: Var)
    requires Counted(p) && v in p.pointers
    ensures p.pointers[v] in p.memory && p.memory[p.pointers[v]].refCount > 0
  {
    assert CountRight(p, p.pointers[v]);
    PointerHolds(p.pointers, v);
  }

  /** A SharedPointer is destroyed or reset: decrementRefCount, then the pointer is gone. */
  function Unbind(p: Pool, v: Var): (r: Pool)
    requires Counted(p) && v in p.pointers
    ensures Counted(r) && (NoLeak(p) ==> NoLeak(r))
    ensures SameData(p, r)
  {
    BoundIsLive(p, v);
    var b := p.pointers[v];
    var r := Uncounting(p, b).(pointers := p.pointers - {v});
    assert Counted(r) by {
      forall x: nat ensures CountRight(r, x) { assert CountRight(p, x); Unbound(p.pointers, v, x); }
    }
    r
  }

  /** incrementRefCount by hand. */
  function Increment(p: Pool, v: Var): (r: Pool)
    requires Counted(p) && v in p.pointers
    ensures Counted(r) && (NoLeak(p) ==> NoLeak(r)) && r.loose == p.loose + multiset{p.pointers[v]}
    ensures SameData(p, r)
  {
    BoundIsLive(p, v);
    var b := p.pointers[v];
    var r := Counting(p, b).(loose := p.loose + multiset{b});
    assert Counted(r) by {
      forall x: nat ensures CountRight(r, x) { assert CountRight(p, x); }
    }
    r
  }

  /** decrementRefCount by hand, giving up a loose reference; the pointer itself keeps the buffer alive. */
  function Decrement(p: Pool, v: Var): (r: Pool)
    requires Counted(p) && v in p.pointers && p.pointers[v] in p.loose
    ensures Counted(r) && (NoLeak(p) ==> NoLeak(r)) && p.pointers[v] in r.memory
    ensures SameData(p, r)
  {
    BoundIsLive(p, v);
    var b := p.pointers[v];
    assert CountRight(p, b);
    PointerHolds(p.pointers, v);
    var r := Uncounting(p, b).(loose := p.loose - multiset{b});
    assert Counted(r) by {
      forall x: nat ensures CountRight(r, x) { assert CountRight(p, x); }
    }
    r
  }

  // A reference moves between a raw pointer and one of the two queues.

  function Enqueue(p: Pool, b: nat): (r: Pool)
    requires Counted(p) && b in p.loose
    ensures Counted(r) && (NoLeak(p) ==> NoLeak(r))
  {
    var r := p.(txQueue := p.txQueue + [b], loose := p.loose - multiset{b});
    assert Counted(r) by {
      forall x: nat ensures CountRight(r, x) { assert CountRight(p, x); }
    }
    r
  }

  function Dequeue(p: Pool): (r: Pool)
    requires Counted(p) && p.txQueue != []
    ensures Counted(r) && (NoLeak(p) ==> NoLeak(r))
  {
    var b := p.txQueue[0];
    var r := p.(txQueue := p.txQueue[1..], loose := p.loose + multiset{b});
    assert p.txQueue == [b] + p.txQueue[1..];
    assert Counted(r) by {
      forall x: nat ensures CountRight(r, x) { assert CountRight(p, x); }
    }
    r
  }

  function Post(p: Pool, b: nat): (r: Pool)
    requires Counted(p) && b in p.loose
    ensures Counted(r) && (NoLeak(p) ==> NoLeak(r))
  {
    var r := p.(mailbox := p.mailbox + [b], loose := p.loose - multiset{b});
    assert Counted(r) by {
      forall x: nat ensures CountRight(r, x) { assert CountRight(p, x); }
    }
    r
  }

  function Pend(p: Pool): (r: Pool)
    requires Counted(p) && p.mailbox != []
    ensures Counted(r) && (NoLeak(p) ==> NoLeak(r))
  {
    var b := p.mailbox[0];
    var r := p.(mailbox := p.mailbox[1..], loose := p.loose + multiset{b});
    assert p.mailbox == [b] + p.mailbox[1..];
    assert Counted(r) by {
      forall x: nat ensures CountRight(r, x) { assert CountRight(p, x); }
    }
    r
  }

  /** Writing into a buffer. */
  function Fill(p: Pool, b: nat, data: bytes): (r: Pool)
    requires Counted(p) && b in p.memory
    ensures Counted(r) && (NoLeak(p) ==> NoLeak(r))
  {
    var r := p.(memory := p.memory[b := p.memory[b].(data := data)]);
    assert Counted(r) by {
      forall x: nat ensures CountRight(r, x) { assert CountRight(p, x); }
    }
    r
  }
}
