/** The serial interface of the probe: interrupt handlers and the main task share buffers through a transmit queue
    and a mailbox. Every function below is one atomic step; interrupts come between any two of them. */
module Firmwares {
  import opened Options
  import opened Frames
  import opened BufferPools
  import T = StpTargets

  /** The main loop: waiting, with a raw pointer from the mailbox, while a SharedPointer holds the message and the
      mailbox's reference is still counted, and after that reference was given up. */
  datatype Task = Waiting | Pended(data: nat) | Processing | Released

  /** sendToHost and write in the main task: the steps between building a message and dropping the last pointer. */
  datatype Send = NotSending | Built | Copied | Framed | Queued | Dropped

  /** `enqueued` and `handed` list the buffers that entered the transmit queue and that were handed to the UART,
      `frames` and `wire` their bytes; `posted` and `taken` the messages that entered and left the mailbox. */
  datatype Firmware = Firmware(
    pool: Pool, txActive: bool, rx: T.Receiver, task: Task, send: Send,
    enqueued: seq<nat>, handed: seq<nat>, frames: seq<bytes>, wire: seq<bytes>,
    posted: seq<bytes>, taken: seq<bytes>)

  function DataOf(p: Pool, ids: seq<nat>): (r: seq<bytes>)
    ensures |r| == |ids|
  {
    seq(|ids|, i requires 0 <= i < |ids| => if ids[i] in p.memory then p.memory[ids[i]].data else [])
  }

  /** Which SharedPointers are set, and which raw reference is around, is known from where the program stands. */
  ghost predicate Placed(f: Firmware) {
    var ps := f.pool.pointers;
    && Temporary !in ps && IsrMessage !in ps && IsrCopy !in ps
    && (TxBuffer in ps <==> f.txActive)
    && (RxBuffer in ps <==> f.rx.state == T.RxPayload)
    && (RxMessage in ps <==> f.task == Processing || f.task == Released)
    && (TxMessage in ps <==> f.send != NotSending)
    && (TaskCopy in ps <==> f.send == Copied || f.send == Framed || f.send == Queued)
    && (TaskCopy in ps ==> TxMessage in ps && ps[TaskCopy] == ps[TxMessage])
    && (f.send != NotSending ==> f.task == Processing)
    && f.pool.loose == Raw(f)
  }

  /** The reference that the main loop still has to give up. */
  function Raw(f: Firmware): multiset<nat> {
    match f.task
    case Pended(data) => multiset{data}
    case Processing => if RxMessage in f.pool.pointers then multiset{f.pool.pointers[RxMessage]} else multiset{}
    case _ => multiset{}
  }

  /** Nothing but the pointers v and w refers to the buffer of v. */
  ghost predicate Unshared(p: Pool, v: Var, w: Var) {
    && v in p.pointers
    && p.pointers[v] !in p.txQueue && p.pointers[v] !in p.mailbox && p.pointers[v] !in p.loose
    && forall u | u in p.pointers && u != v && u != w :: p.pointers[u] != p.pointers[v]
  }

  /** The message under construction and the message being received are not shared yet. */
  ghost predicate Private(f: Firmware) {
    && (f.send == Built || f.send == Copied || f.send == Framed ==> Unshared(f.pool, TxMessage, TaskCopy))
    && (f.rx.state == T.RxPayload ==> Unshared(f.pool, RxBuffer, RxBuffer))
  }

  /** The transmit path: first in, first out, and a write is in flight exactly while txActive. */
  ghost predicate Ordered(f: Firmware) {
    && f.handed + f.pool.txQueue == f.enqueued
    && f.wire + DataOf(f.pool, f.pool.txQueue) == f.frames
    && (f.pool.txQueue != [] ==> f.txActive)
    && (f.txActive ==> f.handed != [] && TxBuffer in f.pool.pointers &&
                       f.pool.pointers[TxBuffer] == f.handed[|f.handed| - 1])
    && f.taken + DataOf(f.pool, f.pool.mailbox) == f.posted
  }

  /** What holds even while an interrupt handler or a gated section is at work. */
  ghost predicate Core(f: Firmware) {
    && Counted(f.pool) && NoLeak(f.pool) && Ordered(f)
    && Temporary !in f.pool.pointers && (TxBuffer in f.pool.pointers <==> f.txActive)
  }

  ghost predicate Inv(f: Firmware) {
    && Core(f) && T.Valid(f.rx)
    && (f.send != NotSending ==> TxMessage in f.pool.pointers)
    && (f.task == Processing ==> RxMessage in f.pool.pointers)
    && Placed(f) && Private(f)
  }

  /** After init and startRx. */
  function Boot(header: bytes): Firmware
    requires |header| == HEADER_SIZE
  {
    Firmware(Pool(map[], 0, [], map[], multiset{}, [], []), false, T.Start(header), Waiting, NotSending,
             [], [], [], [], [], [])
  }

  lemma BootInv(header: bytes)
    requires |header| == HEADER_SIZE
    ensures Inv(Boot(header))
  {
    var p := Boot(header).pool;
    forall b: nat ensures CountRight(p, b) {
      assert Holders(p.pointers, b) == {};
    }
  }

  /** The bytes of the message that sendToHost is building. */
  function DraftOf(p: Pool): Option<bytes> {
    if TxMessage in p.pointers && p.pointers[TxMessage] in p.memory
    then Some(p.memory[p.pointers[TxMessage]].data) else None
  }

  lemma KeepsDraft(p: Pool, r: Pool)
    requires Counted(p) && Counted(r) && SameData(p, r) && Agree(p.pointers, r.pointers, TxMessage)
    ensures DraftOf(r) == DraftOf(p)
  {
    if TxMessage in p.pointers {
      BoundIsLive(p, TxMessage);
      BoundIsLive(r, TxMessage);
      assert r.memory[r.pointers[TxMessage]].data == p.memory[p.pointers[TxMessage]].data;
    }
  }

  /** A step that receives nothing, posts nothing and submits nothing. */
  ghost predicate Silent(f: Firmware, r: Firmware) {
    r.rx == f.rx && r.posted == f.posted && r.frames == f.frames
  }

  /** The writes that the driver has reported as done, told by what it was given and what is in flight. */
  function Reported(f: Firmware): int {
    |f.handed| - if f.txActive then 1 else 0
  }

  /** A step of the main task between two uses of the mailbox. */
  ghost predicate SameMail(f: Firmware, g: Firmware) {
    g.pool.mailbox == f.pool.mailbox && g.posted == f.posted && g.taken == f.taken && g.task == f.task
  }

  // ------------------------------------------------------- transmit path

  /** Queued and posted buffers are live. */
  lemma QueuedIsLive(p: Pool, b: nat)
    requires Counted(p) && (b in p.txQueue || b in p.mailbox || b in p.loose)
    ensures b in p.memory
  {
    assert CountRight(p, b);
  }

  lemma SameBytes(p: Pool, r: Pool, ids: seq<nat>)
    requires SameData(p, r) && forall b | b in ids :: b in p.memory && b in r.memory
    ensures DataOf(r, ids) == DataOf(p, ids)
  {
    forall i | 0 <= i < |ids| ensures DataOf(r, ids)[i] == DataOf(p, ids)[i] {
      assert ids[i] in ids && ids[i] in r.memory && ids[i] in p.memory;
      assert r.memory[ids[i]].data == p.memory[ids[i]].data;
    }
  }

  lemma MovedOver(ps: map<Var, nat>, v: Var, b: nat)
    requires Temporary !in ps && v != Temporary
    ensures (ps[Temporary := b] - {v})[v := b] - {Temporary} == ps[v := b]
    ensures ps[Temporary := b][v := b] - {Temporary} == ps[v := b]
  {
  }

  /** SharedPointer::operator= with a temporary: the old buffer is given up, then the new one is taken. */
  function Assign(p: Pool, v: Var, b: nat): (r: Pool)
    requires Counted(p) && Temporary !in p.pointers && v != Temporary && b in p.memory
    requires forall x | x in p.memory && x != b :: p.memory[x].refCount > 0
    ensures Counted(r) && NoLeak(r) && SameData(p, r) && b in r.memory
    ensures r.pointers == p.pointers[v := b] && r.loose == p.loose && r.txQueue == p.txQueue && r.mailbox == p.mailbox
  {
    MovedOver(p.pointers, v, b);
    var p1 := Bind(p, Temporary, b);
    var p2 := if v in p1.pointers then Unbind(p1, v) else p1;
    BoundIsLive(p2, Temporary);
    var p3 := Bind(p2, v, b);
    var p4 := Unbind(p3, Temporary);
    BoundIsLive(p4, v);
    p4
  }

  /** The pool after the head of the queue was handed to the UART. */
  function HandOver(p: Pool): (r: Pool)
    requires Counted(p) && NoLeak(p) && Temporary !in p.pointers && p.txQueue != []
    ensures Counted(r) && NoLeak(r) && SameData(p, r)
    ensures r.pointers == p.pointers[TxBuffer := p.txQueue[0]] && r.loose == p.loose
    ensures r.txQueue == p.txQueue[1..] && r.mailbox == p.mailbox && p.txQueue[0] in p.memory
  {
    var b := p.txQueue[0];
    QueuedIsLive(p, b);
    var p1 := Dequeue(p);
    var p2 := Assign(p1, TxBuffer, b);
    var p3 := Decrement(p2, TxBuffer);
    p3
  }

  /** Queued and posted bytes are untouched by anything that only moves references. */
  lemma KeepsQueues(p: Pool, r: Pool)
    requires Counted(p) && Counted(r) && SameData(p, r)
    requires (forall b | b in r.txQueue :: b in p.txQueue) && (forall b | b in r.mailbox :: b in p.mailbox)
    ensures DataOf(r, r.txQueue) == DataOf(p, r.txQueue) && DataOf(r, r.mailbox) == DataOf(p, r.mailbox)
  {
    forall b | b in r.txQueue || b in r.mailbox ensures b in p.memory && b in r.memory {
      QueuedIsLive(p, b);
      QueuedIsLive(r, b);
    }
    SameBytes(p, r, r.txQueue);
    SameBytes(p, r, r.mailbox);
  }

  lemma Shift<T>(a: seq<T>, q: seq<T>)
    requires q != []
    ensures (a + [q[0]]) + q[1..] == a + q
  {
  }

  /** onUartBytesWritten with a queued buffer: it goes to the UART. */
  function Transmit(f: Firmware): (r: Firmware)
    requires Counted(f.pool) && NoLeak(f.pool) && Temporary !in f.pool.pointers && f.pool.txQueue != []
    requires f.handed + f.pool.txQueue == f.enqueued && f.wire + DataOf(f.pool, f.pool.txQueue) == f.frames
    requires f.taken + DataOf(f.pool, f.pool.mailbox) == f.posted
    requires f.txActive
    ensures Core(r) && SameData(f.pool, r.pool)
    ensures r.pool.pointers == f.pool.pointers[TxBuffer := f.pool.txQueue[0]] && r.pool.loose == f.pool.loose
    ensures r.pool.txQueue == f.pool.txQueue[1..] && r.pool.mailbox == f.pool.mailbox
    ensures r == f.(pool := r.pool, handed := r.handed, wire := r.wire) && OnlyTransmitter(f, r)
    ensures |r.handed| == |f.handed| + 1
    ensures DraftOf(r.pool) == DraftOf(f.pool)
  {
    var q := f.pool.txQueue;
    var pool := HandOver(f.pool);
    var r := f.(pool := pool, handed := f.handed + [q[0]], wire := f.wire + [f.pool.memory[q[0]].data]);
    KeepsQueues(f.pool, pool);
    KeepsDraft(f.pool, pool);
    Shift(f.handed, q);
    Shift(f.wire, DataOf(f.pool, q));
    assert DataOf(f.pool, q)[1..] == DataOf(f.pool, q[1..]);
    r
  }

  /** onUartBytesWritten with an empty queue: the transmitter becomes idle. */
  function Idle(f: Firmware): (r: Firmware)
    requires Core(f) && f.txActive && f.pool.txQueue == []
    ensures Core(r) && r.pool.pointers == f.pool.pointers - {TxBuffer} && r == f.(pool := r.pool, txActive := false)
    ensures OnlyTransmitter(f, r)
    ensures DraftOf(r.pool) == DraftOf(f.pool)
  {
    var pool := Unbind(f.pool, TxBuffer);
    KeepsQueues(f.pool, pool);
    KeepsDraft(f.pool, pool);
    f.(pool := pool, txActive := false)
  }

  /** The transmitter moved on: nothing else changed. */
  ghost predicate OnlyTransmitter(f: Firmware, r: Firmware) {
    && r.rx == f.rx && r.task == f.task && r.send == f.send
    && (forall v {:trigger Agree(f.pool.pointers, r.pool.pointers, v)} | v != TxBuffer ::
          Agree(f.pool.pointers, r.pool.pointers, v))
    && (TxBuffer in r.pool.pointers ==> r.pool.pointers[TxBuffer] in f.pool.txQueue)
    && r.pool.loose == f.pool.loose && r.pool.mailbox == f.pool.mailbox
    && forall b | b in r.pool.txQueue :: b in f.pool.txQueue
  }

  ghost predicate Agree(ps: map<Var, nat>, qs: map<Var, nat>, v: Var) {
    (v in ps <==> v in qs) && (v in ps ==> ps[v] == qs[v])
  }

  lemma TransmitterKeepsPlaced(f: Firmware, r: Firmware)
    requires Inv(f) && Core(r) && OnlyTransmitter(f, r)
    ensures Inv(r)
  {
    var ps, qs := f.pool.pointers, r.pool.pointers;
    assert Agree(ps, qs, RxBuffer) && Agree(ps, qs, IsrMessage) && Agree(ps, qs, IsrCopy);
    assert Agree(ps, qs, RxMessage) && Agree(ps, qs, TxMessage) && Agree(ps, qs, TaskCopy);
    if f.send == Built || f.send == Copied || f.send == Framed { StillUnshared(f, r, TxMessage, TaskCopy); }
    if f.rx.state == T.RxPayload { StillUnshared(f, r, RxBuffer, RxBuffer); }
  }

  lemma StillUnshared(f: Firmware, r: Firmware, v: Var, w: Var)
    requires OnlyTransmitter(f, r) && Unshared(f.pool, v, w) && v != TxBuffer
    ensures Unshared(r.pool, v, w)
  {
    assert Agree(f.pool.pointers, r.pool.pointers, v);
    forall u | u in r.pool.pointers && u != v && u != w ensures r.pool.pointers[u] != r.pool.pointers[v] {
      assert u != TxBuffer ==> Agree(f.pool.pointers, r.pool.pointers, u);
    }
  }

  /** The interrupt after a completed write. */
  function Written(f: Firmware): (r: Firmware)
    requires Inv(f) && f.txActive
    ensures Inv(r) && r.send == f.send && Silent(f, r)
    ensures if f.pool.txQueue == [] then !r.txActive && r.pool.txQueue == []
            else r.txActive && r.pool.txQueue == f.pool.txQueue[1..]
    ensures DraftOf(r.pool) == DraftOf(f.pool)
    ensures Reported(r) == Reported(f) + 1
  {
    if f.pool.txQueue == [] then
      var r := Idle(f);
      TransmitterKeepsPlaced(f, r);
      r
    else
      var r := Transmit(f);
      TransmitterKeepsPlaced(f, r);
      r
  }

  /** The gated section of write: the buffer of v enters the queue, and an idle transmitter is started. */
  function Submit(f: Firmware, v: Var): (r: Firmware)
    requires Core(f) && v in f.pool.pointers && v != TxBuffer
    ensures Core(r) && SameData(f.pool, r.pool) && Submitted(f, r, f.pool.pointers[v])
    ensures r == f.(pool := r.pool, txActive := true, enqueued := f.enqueued + [f.pool.pointers[v]],
                    frames := f.frames + DataOf(f.pool, [f.pool.pointers[v]]), handed := r.handed, wire := r.wire)
    ensures DraftOf(r.pool) == DraftOf(f.pool)
    ensures Reported(r) == Reported(f)
  {
    var g := Entered(f, v);
    if f.txActive then g else Transmit(g.(txActive := true))
  }

  /** The first half of the gated section: the queue counts and holds the buffer. */
  function Entered(f: Firmware, v: Var): (g: Firmware)
    requires Core(f) && v in f.pool.pointers && v != TxBuffer
    ensures Counted(g.pool) && NoLeak(g.pool) && SameData(f.pool, g.pool)
    ensures g.pool.pointers == f.pool.pointers && g.pool.loose == f.pool.loose && g.pool.mailbox == f.pool.mailbox
    ensures g.pool.txQueue == f.pool.txQueue + [f.pool.pointers[v]] && DraftOf(g.pool) == DraftOf(f.pool)
    ensures g == f.(pool := g.pool, enqueued := f.enqueued + [f.pool.pointers[v]],
                    frames := f.frames + DataOf(f.pool, [f.pool.pointers[v]]))
    ensures g.handed + g.pool.txQueue == g.enqueued && g.wire + DataOf(g.pool, g.pool.txQueue) == g.frames
    ensures g.taken + DataOf(g.pool, g.pool.mailbox) == g.posted
  {
    var b := f.pool.pointers[v];
    BoundIsLive(f.pool, v);
    var p := Enqueue(Increment(f.pool, v), b);
    assert p.loose == f.pool.loose;
    KeepsDraft(f.pool, p);
    var g := f.(pool := p, enqueued := f.enqueued + [b], frames := f.frames + DataOf(f.pool, [b]));
    QueueGrows(f, g, b);
    g
  }

  /** The buffer b joined the queue; apart from that, only the transmitter moved. */
  ghost predicate Submitted(f: Firmware, r: Firmware, b: nat) {
    && (forall v {:trigger Agree(f.pool.pointers, r.pool.pointers, v)} | v != TxBuffer ::
          Agree(f.pool.pointers, r.pool.pointers, v))
    && (TxBuffer in r.pool.pointers ==>
          r.pool.pointers[TxBuffer] == b ||
          (TxBuffer in f.pool.pointers && r.pool.pointers[TxBuffer] == f.pool.pointers[TxBuffer]))
    && r.pool.loose == f.pool.loose && r.pool.mailbox == f.pool.mailbox
    && forall x | x in r.pool.txQueue :: x in f.pool.txQueue || x == b
  }

  lemma QueueGrows(f: Firmware, g: Firmware, b: nat)
    requires Core(f) && b in f.pool.memory && Counted(g.pool) && SameData(f.pool, g.pool)
    requires g.pool.txQueue == f.pool.txQueue + [b] && g.pool.mailbox == f.pool.mailbox
    requires g.enqueued == f.enqueued + [b] && g.frames == f.frames + DataOf(f.pool, [b])
    requires g.handed == f.handed && g.wire == f.wire && g.taken == f.taken && g.posted == f.posted
    ensures g.handed + g.pool.txQueue == g.enqueued
    ensures g.wire + DataOf(g.pool, g.pool.txQueue) == g.frames
    ensures g.taken + DataOf(g.pool, g.pool.mailbox) == g.posted
  {
    forall x | x in g.pool.txQueue || x in g.pool.mailbox ensures x in f.pool.memory && x in g.pool.memory {
      QueuedIsLive(g.pool, x);
      if x != b { QueuedIsLive(f.pool, x); }
    }
    SameBytes(f.pool, g.pool, g.pool.txQueue);
    SameBytes(f.pool, g.pool, g.pool.mailbox);
    assert DataOf(f.pool, f.pool.txQueue + [b]) == DataOf(f.pool, f.pool.txQueue) + DataOf(f.pool, [b]);
  }

  /** A step that leaves queues, their bytes and the transmitter alone. */
  lemma CoreFrame(f: Firmware, pool: Pool)
    requires Core(f) && Counted(pool) && NoLeak(pool) && Temporary !in pool.pointers
    requires Agree(f.pool.pointers, pool.pointers, TxBuffer)
    requires pool.txQueue == f.pool.txQueue && pool.mailbox == f.pool.mailbox
    requires forall b | b in f.pool.txQueue || b in f.pool.mailbox ::
               b in pool.memory && b in f.pool.memory ==> pool.memory[b].data == f.pool.memory[b].data
    ensures Core(f.(pool := pool))
  {
    forall b | b in f.pool.txQueue || b in f.pool.mailbox ensures b in pool.memory && b in f.pool.memory {
      QueuedIsLive(pool, b);
      QueuedIsLive(f.pool, b);
    }
    assert DataOf(pool, pool.txQueue) == DataOf(f.pool, f.pool.txQueue);
    assert DataOf(pool, pool.mailbox) == DataOf(f.pool, f.pool.mailbox);
  }

  lemma TwoSteps(p: Pool, q: Pool, r: Pool)
    requires Counted(q) && SameData(p, q) && SameData(q, r) && q.txQueue == r.txQueue && q.mailbox == r.mailbox
    ensures forall b | b in r.txQueue || b in r.mailbox ::
              b in r.memory && b in p.memory ==> r.memory[b].data == p.memory[b].data
  {
    forall b | (b in r.txQueue || b in r.mailbox) && b in r.memory && b in p.memory
      ensures r.memory[b].data == p.memory[b].data
    {
      QueuedIsLive(q, b);
      assert q.memory[b].data == p.memory[b].data;
    }
  }

  /** A fresh address is not referred to. */
  lemma FreshAddress(p: Pool)
    requires Counted(p)
    ensures p.next !in p.memory && p.next !in p.txQueue && p.next !in p.mailbox && p.next !in p.loose
    ensures forall v | v in p.pointers :: p.pointers[v] != p.next
  {
    assert CountRight(p, p.next);
    forall v | v in p.pointers ensures p.pointers[v] != p.next {
      BoundIsLive(p, v);
      assert CountRight(p, p.pointers[v]);
    }
  }

  /** A new message with one SharedPointer. */
  function Allocate(p: Pool, v: Var, data: bytes): (r: Pool)
    requires Counted(p) && NoLeak(p) && v !in p.pointers
    ensures Counted(r) && NoLeak(r) && SameData(p, r)
    ensures r.pointers == p.pointers[v := p.next] && r.loose == p.loose && r.txQueue == p.txQueue && r.mailbox == p.mailbox
    ensures p.next in r.memory && r.memory[p.next].data == data && Unshared(r, v, v)
  {
    FreshAddress(p);
    Bind(New(p, data), v, p.next)
  }

  // ---------------------------------------------------- interrupt handlers

  /** The message and the copy of its pointer, before the gated section. */
  function Prepare(f: Firmware, data: bytes): (g: Firmware)
    requires Core(f) && IsrMessage !in f.pool.pointers && IsrCopy !in f.pool.pointers
    ensures Core(g) && g == f.(pool := g.pool)
    ensures g.pool.pointers == f.pool.pointers[IsrMessage := f.pool.next][IsrCopy := f.pool.next]
    ensures g.pool.loose == f.pool.loose && g.pool.txQueue == f.pool.txQueue && g.pool.mailbox == f.pool.mailbox
    ensures DataOf(g.pool, [f.pool.next]) == [data]
    ensures DraftOf(g.pool) == DraftOf(f.pool)
    ensures Reported(g) == Reported(f)
  {
    var p1 := Allocate(f.pool, IsrMessage, data);
    var p2 := Bind(p1, IsrCopy, f.pool.next);
    FreshAddress(f.pool);
    KeepsDraft(f.pool, p1);
    KeepsDraft(p1, p2);
    TwoSteps(f.pool, p1, p2);
    CoreFrame(f, p2);
    f.(pool := p2)
  }

  /** Both pointers go out of scope. */
  function Forget(h: Firmware): (r: Firmware)
    requires Core(h) && IsrMessage in h.pool.pointers && IsrCopy in h.pool.pointers
    ensures Core(r) && r == h.(pool := r.pool)
    ensures r.pool.pointers == h.pool.pointers - {IsrCopy} - {IsrMessage}
    ensures r.pool.loose == h.pool.loose && r.pool.txQueue == h.pool.txQueue && r.pool.mailbox == h.pool.mailbox
    ensures DraftOf(r.pool) == DraftOf(h.pool)
    ensures Reported(r) == Reported(h)
  {
    var p1 := Unbind(h.pool, IsrCopy);
    var p2 := Unbind(p1, IsrMessage);
    KeepsDraft(h.pool, p1);
    KeepsDraft(p1, p2);
    TwoSteps(h.pool, p1, p2);
    CoreFrame(h, p2);
    h.(pool := p2)
  }

  /** A message that an interrupt handler builds, submits and forgets: a reset reply, or a pin event. */
  function SendFromInterrupt(f: Firmware, data: bytes): (r: Firmware)
    requires Core(f) && IsrMessage !in f.pool.pointers && IsrCopy !in f.pool.pointers
    ensures Core(r) && Submitted(f, r, f.pool.next)
    ensures r == f.(pool := r.pool, txActive := true, enqueued := f.enqueued + [f.pool.next],
                    frames := f.frames + [data], handed := r.handed, wire := r.wire)
    ensures DraftOf(r.pool) == DraftOf(f.pool)
    ensures Reported(r) == Reported(f)
  {
    var g := Prepare(f, data);
    var h := Submit(g, IsrCopy);
    assert Agree(g.pool.pointers, h.pool.pointers, IsrMessage) && Agree(g.pool.pointers, h.pool.pointers, IsrCopy);
    var r := Forget(h);
    InAndOut(f, g, h, r);
    r
  }

  lemma InAndOut(f: Firmware, g: Firmware, h: Firmware, r: Firmware)
    requires IsrMessage !in f.pool.pointers && IsrCopy !in f.pool.pointers
    requires g.pool.pointers == f.pool.pointers[IsrMessage := f.pool.next][IsrCopy := f.pool.next]
    requires g.pool.loose == f.pool.loose && g.pool.txQueue == f.pool.txQueue && g.pool.mailbox == f.pool.mailbox
    requires Submitted(g, h, f.pool.next)
    requires r.pool.pointers == h.pool.pointers - {IsrCopy} - {IsrMessage}
    requires r.pool.loose == h.pool.loose && r.pool.txQueue == h.pool.txQueue && r.pool.mailbox == h.pool.mailbox
    ensures Submitted(f, r, f.pool.next)
  {
    forall v | v != TxBuffer ensures Agree(f.pool.pointers, r.pool.pointers, v) {
      assert Agree(g.pool.pointers, h.pool.pointers, v);
    }
  }

  /** A pin changed: the handler of its object sends a message to the host. */
  function PinEvent(f: Firmware, message: bytes): (r: Firmware)
    requires Inv(f)
    ensures Inv(r) && r.rx == f.rx && r.send == f.send && r.posted == f.posted
    ensures r.frames == f.frames + [Encode(ROC_MESSAGE, message)]
    ensures DraftOf(r.pool) == DraftOf(f.pool)
    ensures Reported(r) == Reported(f)
  {
    var r := SendFromInterrupt(f, Encode(ROC_MESSAGE, message));
    FreshAddress(f.pool);
    SubmittedKeepsInv(f, r, f.pool.next);
    r
  }

  /** A buffer that neither the main task's draft nor the receiver refers to was submitted. */
  lemma SubmittedKeepsInv(f: Firmware, r: Firmware, b: nat)
    requires Inv(f) && Core(r) && Submitted(f, r, b) && T.Valid(r.rx)
    requires r.task == f.task && r.send == f.send && (r.rx.state == T.RxPayload <==> f.rx.state == T.RxPayload)
    requires TxMessage in f.pool.pointers ==> f.pool.pointers[TxMessage] != b
    requires RxBuffer in f.pool.pointers ==> f.pool.pointers[RxBuffer] != b
    ensures Inv(r)
  {
    PlacedAfterSubmit(f, r, b);
    if f.rx.state == T.RxPayload { UnsharedAfterSubmit(f, r, b, RxBuffer, RxBuffer); }
    if f.send == Built || f.send == Copied || f.send == Framed { UnsharedAfterSubmit(f, r, b, TxMessage, TaskCopy); }
  }

  lemma PlacedAfterSubmit(f: Firmware, r: Firmware, b: nat)
    requires Inv(f) && Core(r) && Submitted(f, r, b) && T.Valid(r.rx)
    requires r.task == f.task && r.send == f.send && (r.rx.state == T.RxPayload <==> f.rx.state == T.RxPayload)
    ensures Placed(r)
    ensures r.send != NotSending ==> TxMessage in r.pool.pointers
    ensures r.task == Processing ==> RxMessage in r.pool.pointers
  {
    var ps, qs := f.pool.pointers, r.pool.pointers;
    assert Agree(ps, qs, RxBuffer) && Agree(ps, qs, IsrMessage) && Agree(ps, qs, IsrCopy);
    assert Agree(ps, qs, RxMessage) && Agree(ps, qs, TxMessage) && Agree(ps, qs, TaskCopy);
  }

  lemma UnsharedAfterSubmit(f: Firmware, r: Firmware, b: nat, v: Var, w: Var)
    requires Submitted(f, r, b) && Unshared(f.pool, v, w) && v != TxBuffer && w != TxBuffer && f.pool.pointers[v] != b
    ensures Unshared(r.pool, v, w)
  {
    assert Agree(f.pool.pointers, r.pool.pointers, v);
    forall u | u in r.pool.pointers && u != v && u != w ensures r.pool.pointers[u] != r.pool.pointers[v] {
      assert u != TxBuffer ==> Agree(f.pool.pointers, r.pool.pointers, u);
    }
  }

  /** onUartBytesReceived. */
  function Received(f: Firmware, chunk: bytes): (r: Firmware)
    requires Inv(f) && f.rx.state != T.Stopped && |chunk| == f.rx.needed
    ensures Inv(r) && r.send == f.send && r.rx == T.Take(f.rx, chunk).0
    ensures Handled(f, r, T.Take(f.rx, chunk).1)
    ensures DraftOf(r.pool) == DraftOf(f.pool)
    ensures Reported(r) == Reported(f)
  {
    T.TakeCases(f.rx, chunk);
    Deliver(f, chunk, T.Take(f.rx, chunk).0, T.Take(f.rx, chunk).1)
  }

  /** The buffers, after the receiver took its step. */
  function Deliver(f: Firmware, chunk: bytes, rx: T.Receiver, events: seq<T.Event>): (r: Firmware)
    requires Inv(f) && T.Valid(rx)
    requires rx.state == T.RxPayload ==> f.rx.state != T.RxPayload && events == []
    requires f.rx.state == T.RxPayload ==> events == [] || events == [T.Posted(chunk)]
    requires f.rx.state != T.RxPayload ==> events == [] || events == [T.ResetReply]
    ensures Inv(r) && r.send == f.send && r.rx == rx && Handled(f, r, events)
    ensures DraftOf(r.pool) == DraftOf(f.pool)
    ensures Reported(r) == Reported(f)
  {
    if rx.state == T.RxPayload then NewMessage(f, rx)
    else if f.rx.state == T.RxPayload then
      if events == [] then Reject(f, rx, chunk) else Accept(f, rx, chunk)
    else if events != [] then Reply(Advance(f, rx))
    else Advance(f, rx)
  }

  /** The receiver goes on without a buffer. */
  function Advance(f: Firmware, rx: T.Receiver): (r: Firmware)
    requires Inv(f) && T.Valid(rx) && f.rx.state != T.RxPayload && rx.state != T.RxPayload
    ensures Inv(r) && r == f.(rx := rx)
    ensures DraftOf(r.pool) == DraftOf(f.pool)
    ensures Reported(r) == Reported(f)
  {
    f.(rx := rx)
  }

  /** The answer to a reset request. */
  function Reply(f: Firmware): (r: Firmware)
    requires Inv(f) && f.rx.state != T.RxPayload
    ensures Inv(r) && r.send == f.send && r.rx == f.rx && r.posted == f.posted
    ensures r.frames == f.frames + [Encode(RESET_CONNECTION, [])]
    ensures DraftOf(r.pool) == DraftOf(f.pool)
    ensures Reported(r) == Reported(f)
  {
    var r := SendFromInterrupt(f, Encode(RESET_CONNECTION, []));
    FreshAddress(f.pool);
    SubmittedKeepsInv(f, r, f.pool.next);
    r
  }

  /** A posted message enters the mailbox, a reset reply the transmit queue, and nothing else does. */
  ghost predicate Handled(f: Firmware, r: Firmware, events: seq<T.Event>) {
    if events == [] then r.posted == f.posted && r.frames == f.frames
    else match events[0]
      case Posted(message) => r.posted == f.posted + [message] && r.frames == f.frames
      case ResetReply => r.posted == f.posted && r.frames == f.frames + [Encode(RESET_CONNECTION, [])]
  }

  /** Only the receiver's pointer moved; its old buffer may be in the mailbox now. */
  ghost predicate OnlyReceiver(f: Firmware, r: Firmware) {
    && r.task == f.task && r.send == f.send && T.Valid(r.rx) && r.txActive == f.txActive
    && (forall v {:trigger Agree(f.pool.pointers, r.pool.pointers, v)} | v != RxBuffer ::
          Agree(f.pool.pointers, r.pool.pointers, v))
    && (RxBuffer in r.pool.pointers <==> r.rx.state == T.RxPayload)
    && (RxBuffer in r.pool.pointers ==> Unshared(r.pool, RxBuffer, RxBuffer))
    && r.pool.loose == f.pool.loose && r.pool.txQueue == f.pool.txQueue
    && forall b | b in r.pool.mailbox ::
         b in f.pool.mailbox || (RxBuffer in f.pool.pointers && b == f.pool.pointers[RxBuffer])
  }

  lemma ReceiverKeepsInv(f: Firmware, r: Firmware)
    requires Inv(f) && Core(r) && OnlyReceiver(f, r)
    ensures Inv(r)
  {
    var ps, qs := f.pool.pointers, r.pool.pointers;
    assert Agree(ps, qs, TxBuffer) && Agree(ps, qs, IsrMessage) && Agree(ps, qs, IsrCopy) && Agree(ps, qs, Temporary);
    assert Agree(ps, qs, RxMessage) && Agree(ps, qs, TxMessage) && Agree(ps, qs, TaskCopy);
    if f.send == Built || f.send == Copied || f.send == Framed {
      forall u | u in qs && u != TxMessage && u != TaskCopy ensures qs[u] != qs[TxMessage] {
        assert u != RxBuffer ==> Agree(ps, qs, u);
      }
    }
  }

  /** rxBuffer = SharedPointer(new MessageBuffer). */
  function FreshRxBuffer(p: Pool): (r: Pool)
    requires Counted(p) && NoLeak(p) && Temporary !in p.pointers
    ensures Counted(r) && NoLeak(r) && r.pointers == p.pointers[RxBuffer := p.next] && r.loose == p.loose
    ensures r.txQueue == p.txQueue && r.mailbox == p.mailbox && DraftOf(r) == DraftOf(p)
    ensures forall b | b in r.txQueue || b in r.mailbox ::
              b in r.memory && b in p.memory ==> r.memory[b].data == p.memory[b].data
  {
    var p1 := New(p, []);
    var p2 := Assign(p1, RxBuffer, p.next);
    KeepsDraft(p, p1);
    KeepsDraft(p1, p2);
    TwoSteps(p, p1, p2);
    p2
  }

  /** The header announced a message: rxBuffer becomes a new buffer. */
  function NewMessage(f: Firmware, rx: T.Receiver): (r: Firmware)
    requires Inv(f) && f.rx.state != T.RxPayload && T.Valid(rx) && rx.state == T.RxPayload
    ensures Inv(r) && r.send == f.send && r.rx == rx && r.posted == f.posted && r.frames == f.frames
    ensures DraftOf(r.pool) == DraftOf(f.pool)
    ensures Reported(r) == Reported(f)
  {
    var pool := FreshRxBuffer(f.pool);
    KeepsInvWithBuffer(f, pool, rx);
    f.(pool := pool, rx := rx)
  }

  lemma KeepsInvWithBuffer(f: Firmware, pool: Pool, rx: T.Receiver)
    requires Inv(f) && f.rx.state != T.RxPayload && T.Valid(rx) && rx.state == T.RxPayload
    requires Counted(pool) && NoLeak(pool) && pool.pointers == f.pool.pointers[RxBuffer := f.pool.next]
    requires pool.loose == f.pool.loose && pool.txQueue == f.pool.txQueue && pool.mailbox == f.pool.mailbox
    requires forall b | b in pool.txQueue || b in pool.mailbox ::
               b in pool.memory && b in f.pool.memory ==> pool.memory[b].data == f.pool.memory[b].data
    ensures Inv(f.(pool := pool, rx := rx))
  {
    FreshAddress(f.pool);
    CoreFrame(f, pool);
    ReceiverKeepsInv(f, f.(pool := pool, rx := rx));
  }

  /** The driver wrote the message into rxBuffer. */
  function Store(f: Firmware, chunk: bytes): (g: Firmware)
    requires Inv(f) && f.rx.state == T.RxPayload
    ensures Inv(g) && g == f.(pool := g.pool) && g.pool.pointers == f.pool.pointers && g.pool.loose == f.pool.loose
    ensures g.pool.txQueue == f.pool.txQueue && g.pool.mailbox == f.pool.mailbox
    ensures DataOf(g.pool, [f.pool.pointers[RxBuffer]]) == [chunk]
    ensures DraftOf(g.pool) == DraftOf(f.pool)
  {
    BoundIsLive(f.pool, RxBuffer);
    var pool := Fill(f.pool, f.pool.pointers[RxBuffer], chunk);
    CoreFrame(f, pool);
    f.(pool := pool)
  }

  /** A wrong checksum: rxBuffer.reset(). */
  function Reject(f: Firmware, rx: T.Receiver, chunk: bytes): (r: Firmware)
    requires Inv(f) && f.rx.state == T.RxPayload && T.Valid(rx) && rx.state != T.RxPayload
    ensures Inv(r) && r.send == f.send && r.rx == rx && r.posted == f.posted && r.frames == f.frames
    ensures DraftOf(r.pool) == DraftOf(f.pool)
    ensures Reported(r) == Reported(f)
  {
    var g := Store(f, chunk);
    var pool := Unbind(g.pool, RxBuffer);
    KeepsDraft(g.pool, pool);
    CoreFrame(g, pool);
    var r := g.(pool := pool, rx := rx);
    ReceiverLetsGo(g, r);
    r
  }

  /** incrementRefCount, Mailbox_post, rxBuffer.reset(). */
  function Accept(f: Firmware, rx: T.Receiver, chunk: bytes): (r: Firmware)
    requires Inv(f) && f.rx.state == T.RxPayload && T.Valid(rx) && rx.state != T.RxPayload
    ensures Inv(r) && r.send == f.send && r.rx == rx && r.posted == f.posted + [chunk] && r.frames == f.frames
    ensures DraftOf(r.pool) == DraftOf(f.pool)
    ensures Reported(r) == Reported(f)
  {
    var g := Store(f, chunk);
    var b := g.pool.pointers[RxBuffer];
    BoundIsLive(g.pool, RxBuffer);
    var pool := PostBuffer(g.pool);
    KeepsDraft(g.pool, pool);
    MailboxGrows(g, pool, b);
    var r := g.(pool := pool, rx := rx, posted := g.posted + [chunk]);
    ReceiverLetsGo(g, r);
    r
  }

  function PostBuffer(p: Pool): (r: Pool)
    requires Counted(p) && NoLeak(p) && RxBuffer in p.pointers
    ensures Counted(r) && NoLeak(r) && SameData(p, r)
    ensures r.pointers == p.pointers - {RxBuffer} && r.loose == p.loose && r.txQueue == p.txQueue
    ensures r.mailbox == p.mailbox + [p.pointers[RxBuffer]]
  {
    var b := p.pointers[RxBuffer];
    var p1 := Increment(p, RxBuffer);
    var p2 := Post(p1, b);
    var p3 := Unbind(p2, RxBuffer);
    assert p3.loose == p.loose;
    p3
  }

  /** rxBuffer is null again; its buffer is gone or in the mailbox. */
  lemma ReceiverLetsGo(f: Firmware, r: Firmware)
    requires Inv(f) && Core(r) && RxBuffer in f.pool.pointers && r.pool.pointers == f.pool.pointers - {RxBuffer}
    requires r.task == f.task && r.send == f.send && T.Valid(r.rx) && r.rx.state != T.RxPayload
    requires r.pool.loose == f.pool.loose && r.pool.txQueue == f.pool.txQueue && r.txActive == f.txActive
    requires r.pool.mailbox == f.pool.mailbox || r.pool.mailbox == f.pool.mailbox + [f.pool.pointers[RxBuffer]]
    ensures Inv(r)
  {
    forall v | v != RxBuffer ensures Agree(f.pool.pointers, r.pool.pointers, v) {}
    ReceiverKeepsInv(f, r);
  }

  lemma MailboxGrows(g: Firmware, pool: Pool, b: nat)
    requires Core(g) && b in g.pool.memory && Counted(pool) && NoLeak(pool) && SameData(g.pool, pool)
    requires pool.mailbox == g.pool.mailbox + [b] && pool.txQueue == g.pool.txQueue && Temporary !in pool.pointers
    requires Agree(g.pool.pointers, pool.pointers, TxBuffer)
    ensures Core(g.(pool := pool, posted := g.posted + DataOf(g.pool, [b])))
  {
    forall x | x in pool.txQueue || x in pool.mailbox ensures x in g.pool.memory && x in pool.memory {
      QueuedIsLive(pool, x);
      if x != b { QueuedIsLive(g.pool, x); }
    }
    SameBytes(g.pool, pool, pool.txQueue);
    SameBytes(g.pool, pool, pool.mailbox);
    assert DataOf(g.pool, g.pool.mailbox + [b]) == DataOf(g.pool, g.pool.mailbox) + DataOf(g.pool, [b]);
  }

  // ------------------------------------------------------------- main task

  /** A step of the main task left interrupt handlers, receiver and transmitter alone. */
  ghost predicate OnlyTask(f: Firmware, r: Firmware) {
    && r.rx == f.rx && r.txActive == f.txActive
    && Agree(f.pool.pointers, r.pool.pointers, TxBuffer) && Agree(f.pool.pointers, r.pool.pointers, RxBuffer)
    && Agree(f.pool.pointers, r.pool.pointers, IsrMessage) && Agree(f.pool.pointers, r.pool.pointers, IsrCopy)
    && Agree(f.pool.pointers, r.pool.pointers, Temporary)
    && r.pool.txQueue == f.pool.txQueue && forall b | b in r.pool.mailbox :: b in f.pool.mailbox
  }

  lemma TaskKeepsInv(f: Firmware, r: Firmware)
    requires Inv(f) && Core(r) && OnlyTask(f, r)
    requires RxMessage in r.pool.pointers <==> r.task == Processing || r.task == Released
    requires TxMessage in r.pool.pointers <==> r.send != NotSending
    requires TaskCopy in r.pool.pointers <==> r.send == Copied || r.send == Framed || r.send == Queued
    requires TaskCopy in r.pool.pointers ==>
               TxMessage in r.pool.pointers && r.pool.pointers[TaskCopy] == r.pool.pointers[TxMessage]
    requires r.send != NotSending ==> r.task == Processing
    requires r.pool.loose == Raw(r)
    requires f.rx.state == T.RxPayload ==> NotReceiving(f, r)
    requires r.send == Built || r.send == Copied || r.send == Framed ==> Unshared(r.pool, TxMessage, TaskCopy)
    ensures Inv(r)
  {
  }

  /** The main task does not refer to the buffer being received. */
  ghost predicate NotReceiving(f: Firmware, r: Firmware) {
    RxBuffer in f.pool.pointers && RxBuffer in r.pool.pointers && Unshared(r.pool, RxBuffer, RxBuffer)
  }

  lemma StillReceiving(p: Pool, r: Pool, v: Var)
    requires Unshared(p, RxBuffer, RxBuffer) && v != RxBuffer && r.pointers == p.pointers - {v}
    requires r.txQueue == p.txQueue && r.mailbox == p.mailbox && r.loose == p.loose
    ensures Unshared(r, RxBuffer, RxBuffer)
  {
  }

  /** Mailbox_pend. */
  function TaskPend(f: Firmware): (r: Firmware)
    requires Inv(f) && f.task == Waiting && f.pool.mailbox != []
    ensures Inv(r) && r.task.Pended? && r.send == f.send && Silent(f, r)
    ensures |r.taken| == |f.taken| + 1 && r.taken <= r.posted
    ensures DraftOf(r.pool) == DraftOf(f.pool)
    ensures Reported(r) == Reported(f)
  {
    var box := f.pool.mailbox;
    var pool := Pend(f.pool);
    QueuedIsLive(f.pool, box[0]);
    var r := f.(pool := pool, task := Pended(box[0]), taken := f.taken + [f.pool.memory[box[0]].data]);
    KeepsQueues(f.pool, pool);
    KeepsDraft(f.pool, pool);
    Shift(f.taken, DataOf(f.pool, box));
    assert DataOf(f.pool, box)[1..] == DataOf(f.pool, box[1..]);
    assert box[0] in box;
    TaskKeepsInv(f, r);
    r
  }

  /** SharedPointer rxMessageBuffer(data). */
  function TaskWrap(f: Firmware): (r: Firmware)
    requires Inv(f) && f.task.Pended?
    ensures Inv(r) && r.task == Processing && r.send == f.send && Silent(f, r) && r.taken == f.taken
    ensures DraftOf(r.pool) == DraftOf(f.pool)
    ensures Reported(r) == Reported(f)
  {
    assert f.task.data in f.pool.loose;
    QueuedIsLive(f.pool, f.task.data);
    var pool := Bind(f.pool, RxMessage, f.task.data);
    KeepsDraft(f.pool, pool);
    CoreFrame(f, pool);
    var r := f.(pool := pool, task := Processing);
    TaskKeepsInv(f, r);
    r
  }

  /** sendToHost: the message without its STP header. */
  function TaskBuild(f: Firmware, message: bytes): (r: Firmware)
    requires Inv(f) && f.task == Processing && f.send == NotSending
    ensures Inv(r) && r.send == Built && Silent(f, r) && SameMail(f, r)
    ensures DraftOf(r.pool) == Some(message)
    ensures Reported(r) == Reported(f)
  {
    FreshAddress(f.pool);
    var pool := Allocate(f.pool, TxMessage, message);
    CoreFrame(f, pool);
    var r := f.(pool := pool, send := Built);
    TaskKeepsInv(f, r);
    r
  }

  /** write: the local copy of the pointer. */
  function TaskCopyPointer(f: Firmware): (r: Firmware)
    requires Inv(f) && f.send == Built
    ensures Inv(r) && r.send == Copied && Silent(f, r) && SameMail(f, r)
    ensures DraftOf(r.pool) == DraftOf(f.pool)
    ensures Reported(r) == Reported(f)
  {
    BoundIsLive(f.pool, TxMessage);
    var pool := Bind(f.pool, TaskCopy, f.pool.pointers[TxMessage]);
    KeepsDraft(f.pool, pool);
    CoreFrame(f, pool);
    var r := f.(pool := pool, send := Copied);
    TaskKeepsInv(f, r);
    r
  }

  /** write: the STP header goes in front. */
  function TaskFrame(f: Firmware): (r: Firmware)
    requires Inv(f) && f.send == Copied
    ensures Inv(r) && r.send == Framed && Silent(f, r) && SameMail(f, r)
    ensures DraftOf(f.pool).Some? && DraftOf(r.pool) == Some(Encode(ROC_MESSAGE, DraftOf(f.pool).value))
    ensures Reported(r) == Reported(f)
  {
    BoundIsLive(f.pool, TxMessage);
    var b := f.pool.pointers[TxMessage];
    var pool := Fill(f.pool, b, Encode(ROC_MESSAGE, f.pool.memory[b].data));
    CoreFrame(f, pool);
    var r := f.(pool := pool, send := Framed);
    TaskKeepsInv(f, r);
    r
  }

  /** write: the gated section. */
  function TaskSubmit(f: Firmware): (r: Firmware)
    requires Inv(f) && f.send == Framed
    ensures Inv(r) && r.send == Queued && r.rx == f.rx && SameMail(f, r)
    ensures DraftOf(f.pool).Some? && r.frames == f.frames + [DraftOf(f.pool).value]
    ensures Reported(r) == Reported(f)
  {
    var r := SubmitDraft(f);
    SubmittedDraft(f, f.(send := Queued), r);
    r
  }

  function SubmitDraft(f: Firmware): (r: Firmware)
    requires Core(f) && TaskCopy in f.pool.pointers && TxMessage in f.pool.pointers
    requires f.pool.pointers[TaskCopy] == f.pool.pointers[TxMessage]
    ensures Core(r) && Submitted(f.(send := Queued), r, f.pool.pointers[TxMessage])
    ensures r.send == Queued && r.rx == f.rx && SameMail(f, r)
    ensures DraftOf(f.pool).Some? && r.frames == f.frames + [DraftOf(f.pool).value]
    ensures Reported(r) == Reported(f)
  {
    DraftIsData(f.pool);
    Submit(f.(send := Queued), TaskCopy)
  }

  lemma DraftIsData(p: Pool)
    requires Counted(p) && TxMessage in p.pointers
    ensures DraftOf(p).Some? && DataOf(p, [p.pointers[TxMessage]]) == [DraftOf(p).value]
  {
    BoundIsLive(p, TxMessage);
  }

  lemma SubmittedDraft(f: Firmware, g: Firmware, r: Firmware)
    requires Inv(f) && f.send == Framed && g == f.(send := Queued) && Core(r) && Submitted(g, r, f.pool.pointers[TxMessage])
    requires r.task == f.task && r.send == Queued && r.rx == f.rx
    ensures Inv(r)
  {
    assert Inv(g);
    PlacedAfterSubmit(g, r, f.pool.pointers[TxMessage]);
    if f.rx.state == T.RxPayload { UnsharedAfterSubmit(g, r, f.pool.pointers[TxMessage], RxBuffer, RxBuffer); }
  }

  /** The end of write. */
  function TaskDropCopy(f: Firmware): (r: Firmware)
    requires Inv(f) && f.send == Queued
    ensures Inv(r) && r.send == Dropped && Silent(f, r) && SameMail(f, r)
    ensures Reported(r) == Reported(f)
  {
    var pool := Unbind(f.pool, TaskCopy);
    CoreFrame(f, pool);
    var r := f.(pool := pool, send := Dropped);
    if f.rx.state == T.RxPayload then
      StillReceiving(f.pool, pool, TaskCopy);
      TaskKeepsInv(f, r);
      r
    else
    TaskKeepsInv(f, r);
    r
  }

  /** The end of sendToHost. */
  function TaskDropMessage(f: Firmware): (r: Firmware)
    requires Inv(f) && f.send == Dropped
    ensures Inv(r) && r.send == NotSending && Silent(f, r) && SameMail(f, r)
    ensures Reported(r) == Reported(f)
  {
    var pool := Unbind(f.pool, TxMessage);
    CoreFrame(f, pool);
    var r := f.(pool := pool, send := NotSending);
    if f.rx.state == T.RxPayload then
      StillReceiving(f.pool, pool, TxMessage);
      TaskKeepsInv(f, r);
      r
    else
    TaskKeepsInv(f, r);
    r
  }

  /** rxMessageBuffer.decrementRefCount(): the reference that the mailbox held. */
  function TaskRelease(f: Firmware): (r: Firmware)
    requires Inv(f) && f.task == Processing && f.send == NotSending
    ensures Inv(r) && r.task == Released && r.send == f.send && Silent(f, r)
    ensures Reported(r) == Reported(f)
  {
    var pool := Decrement(f.pool, RxMessage);
    CoreFrame(f, pool);
    var r := f.(pool := pool, task := Released);
    TaskKeepsInv(f, r);
    r
  }

  /** The end of the loop body: the destructor of rxMessageBuffer. */
  function TaskDestroy(f: Firmware): (r: Firmware)
    requires Inv(f) && f.task == Released
    ensures Inv(r) && r.task == Waiting && r.send == f.send && Silent(f, r)
    ensures Reported(r) == Reported(f)
  {
    var pool := Unbind(f.pool, RxMessage);
    CoreFrame(f, pool);
    var r := f.(pool := pool, task := Waiting);
    TaskKeepsInv(f, r);
    r
  }
}
