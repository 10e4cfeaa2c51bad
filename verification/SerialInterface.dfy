/** The firmware's own form of the steps of Firmwares: SharedPointer, the two callbacks of the UART driver, write,
    sendToHost and the main loop, all on shared mutable state. */
module SerialInterfaces {
  import opened Options
  import opened Frames
  import opened BufferPools
  import opened Firmwares
  import opened SharedPointers
  import T = StpTargets

  // ------------------------------------------------------------ specification

  /** write, as the steps that it is made of: the copy of the pointer, the header, the gated section, the end of the
      copy's life. */
  ghost function Writing(f: Firmware, v: Var, copy: Var, kind: byte): (r: Firmware)
    requires Writable(f, v, copy)
    ensures Core(r) && v in r.pool.pointers
  {
    var g := Framing(f, v, copy, kind);
    var h := Submit(g, copy);
    assert Agree(g.pool.pointers, h.pool.pointers, copy) && Agree(g.pool.pointers, h.pool.pointers, v);
    Leaving(h, copy)
  }

  /** write, when the caller's pointer goes out of scope next. */
  ghost function WritingLast(f: Firmware, v: Var, copy: Var, kind: byte): (r: Firmware)
    requires Writable(f, v, copy)
    ensures Core(r)
  {
    Leaving(Writing(f, v, copy, kind), v)
  }

  ghost predicate Writable(f: Firmware, v: Var, copy: Var) {
    && Core(f) && v in f.pool.pointers && copy !in f.pool.pointers && v != TxBuffer
    && copy != TxBuffer && copy != Temporary
    && f.pool.pointers[v] !in f.pool.txQueue && f.pool.pointers[v] !in f.pool.mailbox
  }

  /** write, up to the gated section. */
  ghost function Framing(f: Firmware, v: Var, copy: Var, kind: byte): (g: Firmware)
    requires Writable(f, v, copy)
    ensures Core(g) && g == f.(pool := g.pool) && g.pool.pointers == f.pool.pointers[copy := f.pool.pointers[v]]
  {
    BoundIsLive(f.pool, v);
    var b := f.pool.pointers[v];
    var p1 := Bind(f.pool, copy, b);
    var p2 := Fill(p1, b, Encode(kind, p1.memory[b].data));
    CoreFrame(f, p2);
    f.(pool := p2)
  }

  ghost function Leaving(h: Firmware, copy: Var): (r: Firmware)
    requires Core(h) && copy in h.pool.pointers && copy != TxBuffer
    ensures Core(r) && r == h.(pool := r.pool) && r.pool.pointers == h.pool.pointers - {copy}
  {
    var pool := Unbind(h.pool, copy);
    KeepsQueues(h.pool, pool);
    h.(pool := pool)
  }

  /** In the main task, write is its four steps if no interrupt comes in between. */
  lemma TaskWrites(f: Firmware)
    requires Inv(f) && f.send == Built
    ensures Writable(f, TxMessage, TaskCopy)
    ensures Writing(f, TxMessage, TaskCopy, ROC_MESSAGE).(send := Dropped)
            == TaskDropCopy(TaskSubmit(TaskFrame(TaskCopyPointer(f))))
  {
    assert f.pool.pointers[TxMessage] !in f.pool.txQueue;
  }

  /** An interrupt handler's new message, before write. */
  ghost function Drafted(f: Firmware, data: bytes): (g: Firmware)
    requires Core(f) && IsrMessage !in f.pool.pointers && IsrCopy !in f.pool.pointers
    ensures Writable(g, IsrMessage, IsrCopy) && g == f.(pool := g.pool)
    ensures g.pool.pointers == f.pool.pointers[IsrMessage := f.pool.next]
  {
    var pool := Allocate(f.pool, IsrMessage, data);
    FreshAddress(f.pool);
    KeepsQueues(f.pool, pool);
    f.(pool := pool)
  }

  /** A handler's message, from its allocation to the end of its pointer's life. */
  lemma HandlerWrites(f: Firmware, data: bytes, kind: byte)
    requires Core(f) && IsrMessage !in f.pool.pointers && IsrCopy !in f.pool.pointers
    ensures WritingLast(Drafted(f, data), IsrMessage, IsrCopy, kind) == SendFromInterrupt(f, Encode(kind, data))
  {
    HandlerFrames(f, data, kind);
    var h := Submit(Prepare(f, Encode(kind, data)), IsrCopy);
    HandlerSubmits(f, Encode(kind, data));
  }

  lemma HandlerSubmits(f: Firmware, data: bytes)
    requires Core(f) && IsrMessage !in f.pool.pointers && IsrCopy !in f.pool.pointers
    ensures var h := Submit(Prepare(f, data), IsrCopy);
            && IsrMessage in h.pool.pointers && IsrCopy in h.pool.pointers
            && SendFromInterrupt(f, data) == Leaving(Leaving(h, IsrCopy), IsrMessage)
  {
    var g := Prepare(f, data);
    var h := Submit(g, IsrCopy);
    assert Agree(g.pool.pointers, h.pool.pointers, IsrMessage) && Agree(g.pool.pointers, h.pool.pointers, IsrCopy);
  }

  /** Writing the header into a new message is the same as having it there from the start. */
  lemma HandlerFrames(f: Firmware, data: bytes, kind: byte)
    requires Core(f) && IsrMessage !in f.pool.pointers && IsrCopy !in f.pool.pointers
    ensures Framing(Drafted(f, data), IsrMessage, IsrCopy, kind) == Prepare(f, Encode(kind, data))
  {
    var b := f.pool.next;
    FreshAddress(f.pool);
    var g := Framing(Drafted(f, data), IsrMessage, IsrCopy, kind);
    var p := Prepare(f, Encode(kind, data));
    assert g.pool.memory[b] == p.pool.memory[b];
    assert g.pool.memory == p.pool.memory;
  }

  /** The callback of the driver comes after a write, and from write itself when the transmitter was idle. */
  ghost predicate MayTransmit(f: Firmware) {
    && Counted(f.pool) && NoLeak(f.pool) && Temporary !in f.pool.pointers && f.txActive
    && (f.pool.txQueue == [] ==> Core(f))
    && (f.pool.txQueue != [] ==>
         && f.handed + f.pool.txQueue == f.enqueued && f.wire + DataOf(f.pool, f.pool.txQueue) == f.frames
         && f.taken + DataOf(f.pool, f.pool.mailbox) == f.posted)
  }

  ghost function Transmitted(f: Firmware): (r: Firmware)
    requires MayTransmit(f)
    ensures Core(r)
  {
    if f.pool.txQueue == [] then Idle(f) else Transmit(f)
  }

  lemma TransmittedHead(f: Firmware, r: Firmware)
    requires MayTransmit(f) && f.pool.txQueue != []
    requires var b := f.pool.txQueue[0];
             && b in f.pool.memory && r.pool == HandOver(f.pool)
             && r == f.(pool := r.pool, handed := f.handed + [b], wire := f.wire + [f.pool.memory[b].data])
    ensures r == Transmitted(f)
  {
  }

  lemma EnteredQueue(f: Firmware, v: Var)
    requires Core(f) && v in f.pool.pointers && v != TxBuffer
    ensures var g := Entered(f, v);
            if f.txActive then g == Submit(f, v)
            else MayTransmit(g.(txActive := true)) && Submit(f, v) == Transmitted(g.(txActive := true))
  {
    BoundIsLive(f.pool, v);
  }

  /** The main loop is handling a message, and nothing changed since f but what was sent. */
  ghost predicate Handling(f: Firmware, g: Firmware, sent: seq<bytes>) {
    && Inv(g) && g.task == Processing && g.send == NotSending && g.frames == f.frames + sent
    && g.pool.mailbox == f.pool.mailbox && g.posted == f.posted && g.taken == f.taken
  }

  /** sendToHost up to the gated section. */
  ghost function FramedByTask(f: Firmware, message: bytes): (r: Firmware)
    requires Inv(f) && f.task == Processing && f.send == NotSending
    ensures Inv(r) && r.send == Framed && SameMail(f, r) && r.frames == f.frames
    ensures DraftOf(r.pool) == Some(Encode(ROC_MESSAGE, message))
  {
    TaskFrame(TaskCopyPointer(TaskBuild(f, message)))
  }

  ghost function SubmittedByTask(f: Firmware): (r: Firmware)
    requires Inv(f) && f.send == Framed
    ensures Inv(r) && r.send == NotSending && SameMail(f, r)
    ensures DraftOf(f.pool).Some? && r.frames == f.frames + [DraftOf(f.pool).value]
  {
    TaskDropMessage(TaskDropCopy(TaskSubmit(f)))
  }

  /** sendToHost without an interrupt in between. */
  ghost function SentByTask(f: Firmware, message: bytes): (r: Firmware)
    requires Inv(f) && f.task == Processing && f.send == NotSending
    ensures Inv(r) && Handling(f, r, [Encode(ROC_MESSAGE, message)])
  {
    SubmittedByTask(FramedByTask(f, message))
  }

  /** The message that sendToHost is about to write. */
  ghost function Composed(f: Firmware, message: bytes): (g: Firmware)
    requires Core(f) && TxMessage !in f.pool.pointers
    ensures Counted(g.pool) && g.pool.pointers == f.pool.pointers[TxMessage := f.pool.next]
  {
    f.(pool := Allocate(f.pool, TxMessage, message), send := Built)
  }

  /** sendToHost in terms of write is the steps of the main task. */
  lemma TaskSends(f: Firmware, message: bytes)
    requires Inv(f) && f.task == Processing && f.send == NotSending
    ensures TxMessage !in f.pool.pointers && Writable(Composed(f, message), TxMessage, TaskCopy)
    ensures SentByTask(f, message)
            == WritingLast(Composed(f, message), TxMessage, TaskCopy, ROC_MESSAGE).(send := NotSending)
  {
    TaskWrites(TaskBuild(f, message));
  }

  lemma HandlingOn(f: Firmware, g: Firmware, h: Firmware, replies: seq<bytes>, i: nat)
    requires i < |replies| && Handling(f, g, Encoded(replies[..i])) && Handling(g, h, [Encode(ROC_MESSAGE, replies[i])])
    ensures Handling(f, h, Encoded(replies[..i + 1]))
  {
    EncodedOneMore(replies, i);
  }

  function Encoded(messages: seq<bytes>): (r: seq<bytes>)
    ensures |r| == |messages|
  {
    seq(|messages|, i requires 0 <= i < |messages| => Encode(ROC_MESSAGE, messages[i]))
  }

  lemma EncodedOneMore(messages: seq<bytes>, i: nat)
    requires i < |messages|
    ensures Encoded(messages[..i + 1]) == Encoded(messages[..i]) + [Encode(ROC_MESSAGE, messages[i])]
  {
  }

  /** What the main loop sends for these messages. */
  function Replies(messages: seq<bytes>, reply: bytes -> seq<bytes>): seq<bytes> {
    if messages == [] then []
    else Replies(messages[..|messages| - 1], reply) + Encoded(reply(messages[|messages| - 1]))
  }

  lemma RepliesOneMore(posted: seq<bytes>, a: nat, b: nat, reply: bytes -> seq<bytes>)
    requires a <= b < |posted|
    ensures Replies(posted[a..b + 1], reply) == Replies(posted[a..b], reply) + Encoded(reply(posted[b]))
  {
    var more := posted[a..b + 1];
    assert more[..|more| - 1] == posted[a..b] && more[|more| - 1] == posted[b];
  }

  /** Between two messages of the main loop. */
  ghost predicate Looping(f: Firmware) {
    Inv(f) && f.task == Waiting && f.send == NotSending
  }

  /** One message was taken from the mailbox, and its replies were sent. */
  ghost predicate HandledOne(f: Firmware, g: Firmware, reply: bytes -> seq<bytes>) {
    && Looping(g) && f.pool.mailbox != [] && g.pool.mailbox == f.pool.mailbox[1..] && g.posted == f.posted
    && |f.taken| < |f.posted| && g.taken == f.taken + [f.posted[|f.taken|]]
    && g.frames == f.frames + Encoded(reply(f.posted[|f.taken|]))
  }

  /** Some messages were. */
  ghost predicate Drained(f: Firmware, g: Firmware, reply: bytes -> seq<bytes>) {
    && Looping(g) && g.posted == f.posted && |f.taken| <= |g.taken| <= |g.posted| && g.taken == g.posted[..|g.taken|]
    && g.frames == f.frames + Replies(g.posted[|f.taken|..|g.taken|], reply)
  }

  lemma DrainedOn(f: Firmware, g: Firmware, h: Firmware, reply: bytes -> seq<bytes>)
    requires Drained(f, g, reply) && HandledOne(g, h, reply)
    ensures Drained(f, h, reply)
  {
    RepliesOneMore(g.posted, |f.taken|, |g.taken|, reply);
    assert g.posted[..|g.taken| + 1] == g.posted[..|g.taken|] + [g.posted[|g.taken|]];
    Together(f.frames, Replies(g.posted[|f.taken|..|g.taken|], reply), Encoded(reply(g.posted[|g.taken|])));
  }

  lemma Together(a: seq<bytes>, b: seq<bytes>, c: seq<bytes>)
    ensures (a + b) + c == a + (b + c)
  {
  }

  lemma DrainedAll(f: Firmware, g: Firmware, reply: bytes -> seq<bytes>)
    requires Drained(f, g, reply) && g.pool.mailbox == []
    ensures g.taken == g.posted && g.frames == f.frames + Replies(g.posted[|f.taken|..], reply)
  {
    assert g.taken + DataOf(g.pool, []) == g.taken;
    assert g.posted[|f.taken|..|g.posted|] == g.posted[|f.taken|..];
  }

  lemma DrainedNone(f: Firmware, reply: bytes -> seq<bytes>)
    requires Looping(f)
    ensures Drained(f, f, reply)
  {
    assert f.taken + DataOf(f.pool, f.pool.mailbox) == f.posted;
    assert f.posted[|f.taken|..|f.taken|] == [];
  }

  lemma Took(f: Firmware)
    requires Looping(f) && f.pool.mailbox != []
    ensures var r := TaskWrap(TaskPend(f));
            && Inv(r) && Handling(r, r, []) && r.posted == f.posted && r.frames == f.frames
            && r.pool.mailbox == f.pool.mailbox[1..] && |f.taken| < |f.posted|
            && r.taken == f.taken + [f.posted[|f.taken|]]
            && RxMessage in r.pool.pointers && r.pool.pointers[RxMessage] in r.pool.memory
            && r.pool.memory[r.pool.pointers[RxMessage]].data == f.posted[|f.taken|]
  {
  }

  lemma LetGo(f: Firmware)
    requires Inv(f) && f.task == Processing && f.send == NotSending
    ensures var r := TaskDestroy(TaskRelease(f));
            && Looping(r) && r.posted == f.posted && r.frames == f.frames
            && r.pool.mailbox == f.pool.mailbox && r.taken == f.taken
  {
  }

  /** What the interrupt of the receiver does, told by the next state of the receiver. */
  lemma DelimiterReceived(f: Firmware, chunk: bytes)
    requires Inv(f) && f.rx.state == T.RxDelimiter && |chunk| == f.rx.needed
    ensures Received(f, chunk) == f.(rx := T.Take(f.rx, chunk).0)
  {
    T.TakeCases(f.rx, chunk);
  }

  /** An interrupt handler can send, and the receiver waits for a header. */
  ghost predicate AwaitsHeader(f: Firmware, chunk: bytes) {
    && Core(f) && T.Valid(f.rx) && f.rx.state == T.RxHeader && |chunk| == f.rx.needed
    && IsrMessage !in f.pool.pointers && IsrCopy !in f.pool.pointers
  }

  ghost function AfterHeader(f: Firmware, chunk: bytes): Firmware
    requires AwaitsHeader(f, chunk)
  {
    var (rx, events) := T.Take(f.rx, chunk);
    if rx.state == T.RxPayload then f.(rx := rx, pool := FreshRxBuffer(f.pool))
    else if events == [] then f.(rx := rx)
    else SendFromInterrupt(f.(rx := rx), Encode(RESET_CONNECTION, []))
  }

  lemma HeaderReceived(f: Firmware, chunk: bytes)
    requires Inv(f) && f.rx.state == T.RxHeader && |chunk| == f.rx.needed
    ensures AwaitsHeader(f, chunk) && Received(f, chunk) == AfterHeader(f, chunk)
  {
    T.TakeCases(f.rx, chunk);
  }

  // ------------------------------------------------------------------- class

  class Probe {
    const heap: Heap
    var txActive: bool
    var rxState: T.RxState
    var delimitersReceived: nat
    var rxHeader: bytes
    /** The outstanding UART_read. */
    var offset: nat
    var needed: nat
    /** The main task's place in its program, and the traffic so far. */
    ghost var task: Task
    ghost var send: Send
    ghost var enqueued: seq<nat>
    ghost var handed: seq<nat>
    ghost var frames: seq<bytes>
    ghost var wire: seq<bytes>
    ghost var posted: seq<bytes>
    ghost var taken: seq<bytes>

    ghost function R(): T.Receiver
      reads this
    {
      T.Receiver(rxState, delimitersReceived, rxHeader, offset, needed)
    }

    ghost function F(): Firmware
      reads this, heap
    {
      Firmware(heap.P(), txActive, R(), task, send, enqueued, handed, frames, wire, posted, taken)
    }

    /** init and startRx. */
    constructor (header: bytes)
      requires |header| == HEADER_SIZE
      ensures fresh(heap) && F() == Boot(header) && Inv(F())
    {
      heap := new Heap();
      txActive := false;
      rxState, delimitersReceived, rxHeader, offset, needed := T.RxDelimiter, 0, header, 0, 1;
      task, send := Waiting, NotSending;
      enqueued, handed, frames, wire, posted, taken := [], [], [], [], [], [];
      new;
      BootInv(header);
    }

    // ----------------------------------------------------------- transmitter

    /** The driver was given the buffer of txBuffer. */
    ghost method UartWrite()
      requires TxBuffer in heap.pointers && heap.pointers[TxBuffer] in heap.memory
      modifies this`handed, this`wire
      ensures var b := heap.pointers[TxBuffer];
              F() == old(F()).(handed := old(handed) + [b], wire := old(wire) + [heap.memory[b].data])
    {
      handed := handed + [heap.pointers[TxBuffer]];
      wire := wire + [heap.memory[heap.pointers[TxBuffer]].data];
    }

    /** The callback of the driver. */
    method OnUartBytesWritten()
      requires MayTransmit(F())
      modifies this, heap
      ensures F() == Transmitted(old(F()))
    {
      if heap.txQueue == [] {
        heap.Reset(TxBuffer);
        txActive := false;
        return;
      }
      ghost var f := F();
      heap.SendHead();
      UartWrite();
      TransmittedHead(f, F());
    }

    /** The gated section of write. */
    method Enter(v: Var)
      requires Core(F()) && v in heap.pointers && v != TxBuffer
      modifies this, heap
      ensures F() == Submit(old(F()), v)
    {
      EnteredQueue(F(), v);
      EnterQueue(v);
      if !txActive {
        txActive := true;
        OnUartBytesWritten();
      }
    }

    method EnterQueue(v: Var)
      requires Core(F()) && v in heap.pointers && v != TxBuffer
      modifies this`enqueued, this`frames, heap
      ensures F() == Entered(old(F()), v)
    {
      ghost var f := F();
      heap.CountAndAppend(v);
      Note(f, v);
    }

    /** Bookkeeping: the buffer of v was submitted. */
    ghost method Note(f: Firmware, v: Var)
      requires Core(f) && v in f.pool.pointers && v != TxBuffer
      requires heap.P() == Enqueue(Increment(f.pool, v), f.pool.pointers[v])
      requires F() == f.(pool := heap.P())
      modifies this`enqueued, this`frames
      ensures F() == Entered(f, v)
    {
      enqueued := enqueued + [f.pool.pointers[v]];
      frames := frames + DataOf(f.pool, [f.pool.pointers[v]]);
    }

    /** write. */
    method Write(v: Var, copy: Var, kind: byte)
      requires Writable(F(), v, copy)
      modifies this, heap
      ensures F() == Writing(old(F()), v, copy, kind)
    {
      ghost var f := F();
      BoundIsLive(f.pool, v);
      heap.Construct(copy, heap.pointers[v]);
      AddHeader(copy, kind);
      assert F() == Framing(f, v, copy, kind);
      Enter(copy);
      heap.Destruct(copy);
    }

    /** write, and the end of the life of the caller's pointer. */
    method WriteAndForget(v: Var, copy: Var, kind: byte)
      requires Writable(F(), v, copy)
      modifies this, heap
      ensures F() == WritingLast(old(F()), v, copy, kind)
    {
      Write(v, copy, kind);
      heap.Destruct(v);
    }

    /** The STP header goes in front of the message. */
    method AddHeader(v: Var, kind: byte)
      requires Counted(heap.P()) && v in heap.pointers && heap.pointers[v] in heap.memory
      modifies heap
      ensures var b := old(heap.pointers)[v];
              heap.P() == Fill(old(heap.P()), b, Encode(kind, old(heap.memory)[b].data))
    {
      var payload := heap.memory[heap.pointers[v]].data;
      heap.SetData(v, Header(kind, |payload|, CHECKSUM) + payload);
    }

    /** A message that an interrupt handler builds and writes. */
    method SendFromHandler(data: bytes, kind: byte)
      requires Core(F()) && IsrMessage !in heap.pointers && IsrCopy !in heap.pointers
      modifies this, heap
      ensures F() == SendFromInterrupt(old(F()), Encode(kind, data))
    {
      ghost var f := F();
      var b := heap.NewMessage(IsrMessage, data);
      assert F() == Drafted(f, data);
      HandlerWrites(f, data, kind);
      WriteAndForget(IsrMessage, IsrCopy, kind);
    }

    // -------------------------------------------------------------- receiver

    /** The next UART_read. */
    method Expect(state: T.RxState, position: nat, size: nat)
      modifies this`rxState, this`offset, this`needed
      ensures F() == old(F()).(rx := T.Receiver(state, old(delimitersReceived), old(rxHeader), position, size))
    {
      rxState, offset, needed := state, position, size;
    }

    /** The callback of the driver, which has written the chunk where it was told to. */
    method OnUartBytesReceived(chunk: bytes)
      requires Inv(F()) && rxState != T.Stopped && |chunk| == needed
      modifies this, heap
      ensures F() == Received(old(F()), chunk)
    {
      match rxState {
        case RxDelimiter => OnDelimiter(chunk);
        case RxHeader =>
          HeaderReceived(F(), chunk);
          OnHeader(chunk);
        case RxPayload => OnPayload(chunk);
      }
    }

    method OnDelimiter(chunk: bytes)
      requires Inv(F()) && rxState == T.RxDelimiter && |chunk| == needed
      modifies this
      ensures F() == Received(old(F()), chunk)
    {
      DelimiterReceived(F(), chunk);
      rxHeader := T.Write(rxHeader, offset, chunk);
      if rxHeader[delimitersReceived] != DELIMITER_BYTE {
        delimitersReceived := 0;
      } else {
        delimitersReceived := delimitersReceived + 1;
      }
      if delimitersReceived == DELIMITER_LENGTH {
        delimitersReceived := 0;
        Expect(T.RxHeader, DELIMITER_LENGTH, HEADER_SIZE - DELIMITER_LENGTH);
      } else {
        Expect(T.RxDelimiter, delimitersReceived, 1);
      }
    }

    method OnHeader(chunk: bytes)
      requires AwaitsHeader(F(), chunk)
      modifies this, heap
      ensures F() == AfterHeader(old(F()), chunk)
    {
      var resetRequested := CheckHeader(chunk);
      if rxState == T.RxPayload {
        heap.FreshBuffer(RxBuffer);
      } else if resetRequested {
        SendFromHandler([], RESET_CONNECTION);
      }
    }

    /** What comes after the header, and whether it is a reset request. */
    method CheckHeader(chunk: bytes) returns (resetRequested: bool)
      requires T.Valid(R()) && rxState == T.RxHeader && |chunk| == needed
      modifies this`rxHeader, this`rxState, this`offset, this`needed
      ensures F() == old(F()).(rx := T.Take(old(R()), chunk).0)
      ensures T.Take(old(R()), chunk).1 == if resetRequested then [T.ResetReply] else []
    {
      rxHeader := T.Write(rxHeader, offset, chunk);
      resetRequested := false;
      if !Delimited(rxHeader) {
        Expect(T.RxDelimiter, 0, 1);
      } else if rxHeader[6] == ROC_MESSAGE {
        if 0 < PayloadLength(rxHeader) <= 32 {
          Expect(T.RxPayload, 0, PayloadLength(rxHeader));
        } else {
          Expect(T.Stopped, 0, 0);
        }
      } else if rxHeader[6] == RESET_CONNECTION {
        resetRequested := true;
        Expect(T.RxHeader, 0, HEADER_SIZE);
      } else {
        Expect(T.Stopped, 0, 0);
      }
    }

    method OnPayload(chunk: bytes)
      requires Inv(F()) && rxState == T.RxPayload && |chunk| == needed
      modifies this, heap
      ensures F() == Received(old(F()), chunk)
    {
      BoundIsLive(heap.P(), RxBuffer);
      ghost var f := F();
      heap.SetData(RxBuffer, chunk);
      assert F() == Store(f, chunk);
      if rxHeader[7] != CHECKSUM {
        heap.Reset(RxBuffer);
        Expect(T.RxDelimiter, 0, 1);
      } else {
        heap.PostAndReset(RxBuffer);
        posted := posted + [chunk];
        Expect(T.RxHeader, 0, HEADER_SIZE);
      }
    }

    // ------------------------------------------------------------- main task

    /** sendToHost, with the message that it builds. */
    method SendToHost(message: bytes)
      requires Core(F()) && TxMessage !in heap.pointers && Writable(Composed(F(), message), TxMessage, TaskCopy)
      modifies this, heap
      ensures F() == WritingLast(Composed(old(F()), message), TxMessage, TaskCopy, ROC_MESSAGE).(send := NotSending)
    {
      var b := heap.NewMessage(TxMessage, message);
      send := Built;
      WriteAndForget(TxMessage, TaskCopy, ROC_MESSAGE);
      send := NotSending;
    }

    /** processMessage, as far as it sends. */
    method ProcessMessage(replies: seq<bytes>)
      requires Handling(F(), F(), [])
      modifies this, heap
      ensures Handling(old(F()), F(), Encoded(replies))
    {
      ghost var f := F();
      for i := 0 to |replies|
        invariant Handling(f, F(), Encoded(replies[..i]))
      {
        ghost var g := F();
        TaskSends(g, replies[i]);
        SendToHost(replies[i]);
        HandlingOn(f, g, F(), replies, i);
      }
      assert replies[..|replies|] == replies;
    }

    /** Mailbox_pend, and the SharedPointer for the message. */
    method PendAndWrap()
      requires Inv(F()) && task == Waiting && heap.mailbox != []
      modifies this, heap
      ensures F() == TaskWrap(TaskPend(old(F())))
    {
      ghost var f := F();
      var data := heap.PendMessage();
      QueuedIsLive(f.pool, data);
      task := Pended(data);
      taken := taken + [f.pool.memory[data].data];
      assert F() == TaskPend(f);
      heap.Construct(RxMessage, data);
      task := Processing;
    }

    /** The end of the loop body: the mailbox's reference, then the SharedPointer's own. */
    method ReleaseAndDestroy()
      requires Inv(F()) && task == Processing && send == NotSending
      modifies this, heap
      ensures F() == TaskDestroy(TaskRelease(old(F())))
    {
      heap.HandDecrement(RxMessage);
      task := Released;
      heap.Destruct(RxMessage);
      task := Waiting;
    }

    /** One message of the main loop. */
    method HandleMessage(reply: bytes -> seq<bytes>)
      requires Looping(F()) && heap.mailbox != []
      modifies this, heap
      ensures HandledOne(old(F()), F(), reply)
    {
      ghost var f := F();
      PendAndWrap();
      Took(f);
      ghost var g := F();
      BoundIsLive(heap.P(), RxMessage);
      var message := heap.memory[heap.pointers[RxMessage]].data;
      ProcessMessage(reply(message));
      LetGo(F());
      ReleaseAndDestroy();
    }

    /** Every message that is waiting is handled, in order. */
    method DrainMailbox(reply: bytes -> seq<bytes>)
      requires Looping(F())
      modifies this, heap
      ensures Looping(F()) && heap.mailbox == []
      ensures posted == old(posted) && taken == posted
      ensures frames == old(frames) + Replies(posted[|old(taken)|..], reply)
    {
      ghost var f := F();
      DrainedNone(f, reply);
      while heap.mailbox != []
        invariant Drained(f, F(), reply)
        decreases |heap.mailbox|
      {
        ghost var g := F();
        HandleMessage(reply);
        DrainedOn(f, g, F(), reply);
      }
      DrainedAll(f, F(), reply);
    }
  }
}
