/** SharedPointer and the two queues, on a mutable heap of message buffers. */
module SharedPointers {
  import opened Frames
  import opened BufferPools
  import opened Firmwares

  class Heap {
    var memory: map<nat, Buffer>
    var next: nat
    var pointers: map<Var, nat>
    var txQueue: seq<nat>
    var mailbox: seq<nat>
    /** What is not stored anywhere: references counted by hand, and deletions. */
    ghost var loose: multiset<nat>
    ghost var freed: seq<nat>

    ghost function P(): Pool
      reads this
    {
      Pool(memory, next, freed, pointers, loose, txQueue, mailbox)
    }

    constructor ()
      ensures P() == Pool(map[], 0, [], map[], multiset{}, [], [])
    {
      memory, next, pointers, txQueue, mailbox, loose, freed := map[], 0, map[], [], [], multiset{}, [];
    }

    // -------------------------------------------------------- SharedPointer

    method IncrementRefCount(v: Var)
      requires v in pointers && pointers[v] in memory
      modifies this`memory
      ensures P() == Counting(old(P()), old(pointers)[v])
    {
      var b := pointers[v];
      memory := memory[b := memory[b].(refCount := memory[b].refCount + 1)];
    }

    /** The pointer that gives up the last reference deletes the buffer and is null afterwards. */
    method DecrementRefCount(v: Var)
      requires v in pointers && pointers[v] in memory && memory[pointers[v]].refCount > 0
      modifies this`memory, this`pointers, this`freed
      ensures var q := Uncounting(old(P()), old(pointers)[v]);
              P() == if old(memory)[old(pointers)[v]].refCount == 1 then q.(pointers := q.pointers - {v}) else q
    {
      var b := pointers[v];
      memory := memory[b := memory[b].(refCount := memory[b].refCount - 1)];
      if memory[b].refCount == 0 {
        memory := memory - {b};
        freed := freed + [b];
        pointers := pointers - {v};
      }
    }

    /** The constructor with a buffer, and the copy constructor. */
    method Construct(v: Var, b: nat)
      requires Counted(P()) && v !in pointers && b in memory
      modifies this`memory, this`pointers
      ensures P() == Bind(old(P()), v, b)
    {
      pointers := pointers[v := b];
      IncrementRefCount(v);
    }

    /** The destructor. */
    method Destruct(v: Var)
      requires Counted(P()) && v in pointers
      modifies this`memory, this`pointers, this`freed
      ensures P() == Unbind(old(P()), v)
    {
      BoundIsLive(P(), v);
      DecrementRefCount(v);
      assert old(pointers) - {v} - {v} == old(pointers) - {v};
      pointers := pointers - {v};
    }

    /** reset() without a buffer. */
    method Reset(v: Var)
      requires Counted(P()) && v in pointers
      modifies this`memory, this`pointers, this`freed
      ensures P() == Unbind(old(P()), v)
    {
      Destruct(v);
    }

    /** Assignment of a temporary SharedPointer: reset to its buffer. */
    method AssignBuffer(v: Var, b: nat)
      requires Counted(P()) && Temporary !in pointers && v != Temporary && b in memory
      requires forall x | x in memory && x != b :: memory[x].refCount > 0
      modifies this`memory, this`pointers, this`freed
      ensures P() == Assign(old(P()), v, b)
    {
      Construct(Temporary, b);
      if v in pointers {
        Reset(v);
      }
      BoundIsLive(P(), Temporary);
      Construct(v, b);
      Destruct(Temporary);
    }

    /** Queue_dequeue. */
    method Dequeued() returns (data: nat)
      requires Counted(P()) && NoLeak(P()) && txQueue != []
      modifies this`loose, this`txQueue
      ensures data == old(txQueue)[0] && P() == Dequeue(old(P())) && data in memory
    {
      data := txQueue[0];
      QueuedIsLive(P(), data);
      txQueue := txQueue[1..];
      loose := loose + multiset{data};
    }

    /** decrementRefCount for a reference that no SharedPointer holds. */
    method HandDecrement(v: Var)
      requires Counted(P()) && v in pointers && pointers[v] in loose
      modifies this`memory, this`pointers, this`freed, this`loose
      ensures P() == Decrement(old(P()), v)
    {
      BoundIsLive(P(), v);
      ghost var b := pointers[v];
      assert CountRight(P(), b);
      PointerHolds(pointers, v);
      DecrementRefCount(v);
      loose := loose - multiset{b};
    }

    /** incrementRefCount for a reference that no SharedPointer will hold. */
    method HandIncrement(v: Var)
      requires Counted(P()) && v in pointers
      modifies this`memory, this`loose
      ensures P() == Increment(old(P()), v)
    {
      BoundIsLive(P(), v);
      IncrementRefCount(v);
      loose := loose + multiset{pointers[v]};
    }

    /** new MessageBuffer. */
    method Allocate(data: bytes) returns (b: nat)
      requires Counted(P())
      modifies this`memory, this`next
      ensures b == old(next) && P() == New(old(P()), data)
    {
      b := next;
      memory := memory[b := Buffer(0, data)];
      next := next + 1;
    }

    /** Writing into the buffer of v. */
    method SetData(v: Var, data: bytes)
      requires Counted(P()) && v in pointers && pointers[v] in memory
      modifies this`memory
      ensures P() == Fill(old(P()), pointers[v], data)
    {
      memory := memory[pointers[v] := memory[pointers[v]].(data := data)];
    }

    /** Queue_enqueue. */
    method Append(b: nat)
      requires Counted(P()) && b in loose
      modifies this`txQueue, this`loose
      ensures P() == Enqueue(old(P()), b)
    {
      txQueue := txQueue + [b];
      loose := loose - multiset{b};
    }

    /** The queue's own reference, and the buffer of v in the queue. */
    method CountAndAppend(v: Var)
      requires Counted(P()) && v in pointers
      modifies this`memory, this`txQueue, this`loose
      ensures P() == Enqueue(Increment(old(P()), v), old(pointers)[v])
    {
      HandIncrement(v);
      Append(pointers[v]);
    }

    /** Mailbox_post. */
    method PostMessage(b: nat)
      requires Counted(P()) && b in loose
      modifies this`mailbox, this`loose
      ensures P() == Post(old(P()), b)
    {
      mailbox := mailbox + [b];
      loose := loose - multiset{b};
    }

    /** Mailbox_pend. */
    method PendMessage() returns (data: nat)
      requires Counted(P()) && mailbox != []
      modifies this`mailbox, this`loose
      ensures data == old(mailbox)[0] && P() == Pend(old(P()))
    {
      data := mailbox[0];
      mailbox := mailbox[1..];
      loose := loose + multiset{data};
    }

    /** The head of the queue becomes txBuffer. */
    method SendHead()
      requires Counted(P()) && NoLeak(P()) && Temporary !in pointers && txQueue != []
      modifies this`memory, this`pointers, this`freed, this`loose, this`txQueue
      ensures P() == HandOver(old(P()))
      ensures TxBuffer in pointers && pointers[TxBuffer] == old(txQueue)[0]
      ensures pointers[TxBuffer] in memory && pointers[TxBuffer] in old(memory)
      ensures memory[pointers[TxBuffer]].data == old(memory)[pointers[TxBuffer]].data
    {
      ghost var p := P();
      var data := Dequeued();
      AssignBuffer(TxBuffer, data);
      HandDecrement(TxBuffer);
      assert P() == HandOver(p);
      BoundIsLive(P(), TxBuffer);
      QueuedIsLive(p, data);
      assert P().memory[data].data == p.memory[data].data;
    }

    /** A SharedPointer to a new message. */
    method NewMessage(v: Var, data: bytes) returns (b: nat)
      requires Counted(P()) && NoLeak(P()) && v !in pointers
      modifies this`memory, this`next, this`pointers
      ensures b == old(next) && P() == Firmwares.Allocate(old(P()), v, data)
    {
      b := Allocate(data);
      Construct(v, b);
    }

    /** Assignment of a new, empty message. */
    method FreshBuffer(v: Var)
      requires Counted(P()) && NoLeak(P()) && Temporary !in pointers && v == RxBuffer
      modifies this`memory, this`next, this`pointers, this`freed
      ensures P() == FreshRxBuffer(old(P()))
    {
      var b := Allocate([]);
      AssignBuffer(v, b);
    }

    /** incrementRefCount, Mailbox_post and reset. */
    method PostAndReset(v: Var)
      requires Counted(P()) && NoLeak(P()) && v in pointers && v == RxBuffer
      modifies this`memory, this`pointers, this`freed, this`mailbox, this`loose
      ensures P() == PostBuffer(old(P()))
    {
      HandIncrement(v);
      PostMessage(pointers[v]);
      Reset(v);
    }
  }
}
