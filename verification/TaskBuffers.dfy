/** The buffers that the main task works on: no interrupt changes the count of the one that it is about to count, so
    that incrementRefCount needs no InterruptLock there, nor the bytes of the one that it reads a message from. */
module TaskBuffers {
  import opened Frames
  import opened BufferPools
  import opened Firmwares
  import opened FirmwareRuns
  import T = StpTargets

  // ------------------------------------------------------ received messages

  /** The only reference to b is that of the mailbox, or the raw one that came from there. */
  ghost predicate Sole(p: Pool, b: nat) {
    && b !in p.txQueue && (forall v | v in p.pointers :: p.pointers[v] != b)
    && p.loose[b] + multiset(p.mailbox)[b] == 1
  }

  /** Nothing else refers to a message between the receiver and the SharedPointer of the main loop. */
  ghost predicate MailIsSole(f: Firmware) {
    forall b {:trigger Sole(f.pool, b)} |
      b in f.pool.mailbox || (f.task.Pended? && b == f.task.data) :: Sole(f.pool, b)
  }

  lemma SoleIsOne(p: Pool, b: nat)
    requires Counted(p) && Sole(p, b)
    ensures b in p.memory && p.memory[b].refCount == 1
  {
    assert CountRight(p, b);
    assert Holders(p.pointers, b) == {};
  }

  lemma TransmitterKeepsSole(f: Firmware, r: Firmware)
    requires MailIsSole(f) && OnlyTransmitter(f, r)
    ensures MailIsSole(r)
  {
    forall b | b in r.pool.mailbox || (r.task.Pended? && b == r.task.data) ensures Sole(r.pool, b) {
      assert Sole(f.pool, b);
      forall v | v in r.pool.pointers ensures r.pool.pointers[v] != b {
        assert v != TxBuffer ==> Agree(f.pool.pointers, r.pool.pointers, v);
      }
    }
  }

  lemma SubmissionKeepsSole(f: Firmware, r: Firmware, x: nat)
    requires MailIsSole(f) && Submitted(f, r, x) && r.task == f.task
    requires x !in f.pool.mailbox && (f.task.Pended? ==> x != f.task.data)
    ensures MailIsSole(r)
  {
    forall b | b in r.pool.mailbox || (r.task.Pended? && b == r.task.data) ensures Sole(r.pool, b) {
      assert Sole(f.pool, b);
      forall v | v in r.pool.pointers ensures r.pool.pointers[v] != b {
        assert v != TxBuffer ==> Agree(f.pool.pointers, r.pool.pointers, v);
      }
    }
  }

  /** What a message submitted from an interrupt, or by the main task, has in common. */
  lemma InterruptSubmits(f: Firmware, r: Firmware)
    requires Inv(f) && MailIsSole(f) && Submitted(f, r, f.pool.next) && r.task == f.task
    ensures MailIsSole(r)
  {
    FreshAddress(f.pool);
    if f.task.Pended? { assert f.task.data in f.pool.loose; }
    SubmissionKeepsSole(f, r, f.pool.next);
  }

  /** The main loop and the receiver only move references. */
  ghost predicate Moved(p: Pool, r: Pool, b: nat) {
    && r.txQueue == p.txQueue && r.loose[b] + multiset(r.mailbox)[b] == p.loose[b] + multiset(p.mailbox)[b]
    && forall v | v in r.pointers :: r.pointers[v] == b ==> v in p.pointers && p.pointers[v] == b
  }

  lemma MovedKeepsSole(p: Pool, r: Pool, b: nat)
    requires Sole(p, b) && Moved(p, r, b)
    ensures Sole(r, b)
  {
  }

  // ------------------------------------------------------------- interrupts

  /** What an interrupt leaves to the main task. */
  ghost predicate LeavesTask(f: Firmware, r: Firmware) {
    r.task == f.task && Agree(f.pool.pointers, r.pool.pointers, TxMessage)
  }

  lemma WrittenKeepsSole(f: Firmware)
    requires Inv(f) && MailIsSole(f) && f.txActive
    ensures MailIsSole(Written(f)) && LeavesTask(f, Written(f))
  {
    var r := Written(f);
    assert OnlyTransmitter(f, r);
    TransmitterKeepsSole(f, r);
    assert Agree(f.pool.pointers, r.pool.pointers, TxMessage);
  }

  lemma PinKeepsSole(f: Firmware, message: bytes)
    requires Inv(f) && MailIsSole(f)
    ensures MailIsSole(PinEvent(f, message)) && LeavesTask(f, PinEvent(f, message))
  {
    var r := PinEvent(f, message);
    assert Submitted(f, r, f.pool.next);
    InterruptSubmits(f, r);
    assert Agree(f.pool.pointers, r.pool.pointers, TxMessage);
  }

  lemma ReplyKeepsSole(f: Firmware)
    requires Inv(f) && MailIsSole(f) && f.rx.state != T.RxPayload
    ensures MailIsSole(Reply(f)) && LeavesTask(f, Reply(f))
  {
    var r := Reply(f);
    assert Submitted(f, r, f.pool.next);
    InterruptSubmits(f, r);
    assert Agree(f.pool.pointers, r.pool.pointers, TxMessage);
  }

  /** The receiver's pointer goes to a new buffer, or away from one that may be in the mailbox then. */
  ghost predicate ReceiverMoves(f: Firmware, r: Firmware) {
    && r.task == f.task && r.pool.txQueue == f.pool.txQueue && r.pool.loose == f.pool.loose
    && (|| (r.pool.mailbox == f.pool.mailbox && r.pool.pointers == f.pool.pointers[RxBuffer := f.pool.next])
        || (r.pool.mailbox == f.pool.mailbox && r.pool.pointers == f.pool.pointers - {RxBuffer})
        || (Unshared(f.pool, RxBuffer, RxBuffer) && r.pool.pointers == f.pool.pointers - {RxBuffer} &&
            r.pool.mailbox == f.pool.mailbox + [f.pool.pointers[RxBuffer]]))
  }

  lemma ReceiverKeepsSole(f: Firmware, r: Firmware)
    requires MailIsSole(f) && Counted(f.pool) && ReceiverMoves(f, r)
    ensures MailIsSole(r) && LeavesTask(f, r)
  {
    forall b | b in r.pool.mailbox || (r.task.Pended? && b == r.task.data) ensures Sole(r.pool, b) {
      if b in f.pool.mailbox || (f.task.Pended? && b == f.task.data) {
        assert Sole(f.pool, b);
        SoleIsOne(f.pool, b);
        FreshAddress(f.pool);
      }
    }
  }

  lemma NewMessageMoves(f: Firmware, rx: T.Receiver)
    requires Inv(f) && f.rx.state != T.RxPayload && T.Valid(rx) && rx.state == T.RxPayload
    ensures ReceiverMoves(f, NewMessage(f, rx))
  {
  }

  lemma RejectMoves(f: Firmware, rx: T.Receiver, chunk: bytes)
    requires Inv(f) && f.rx.state == T.RxPayload && T.Valid(rx) && rx.state != T.RxPayload
    ensures ReceiverMoves(f, Reject(f, rx, chunk))
  {
  }

  lemma AcceptMoves(f: Firmware, rx: T.Receiver, chunk: bytes)
    requires Inv(f) && f.rx.state == T.RxPayload && T.Valid(rx) && rx.state != T.RxPayload
    ensures ReceiverMoves(f, Accept(f, rx, chunk))
  {
  }

  lemma DeliverKeepsSole(f: Firmware, chunk: bytes, rx: T.Receiver, events: seq<T.Event>)
    requires Inv(f) && MailIsSole(f) && T.Valid(rx)
    requires rx.state == T.RxPayload ==> f.rx.state != T.RxPayload && events == []
    requires f.rx.state == T.RxPayload ==> events == [] || events == [T.Posted(chunk)]
    requires f.rx.state != T.RxPayload ==> events == [] || events == [T.ResetReply]
    ensures var r := Deliver(f, chunk, rx, events); MailIsSole(r) && LeavesTask(f, r)
  {
    var r := Deliver(f, chunk, rx, events);
    if rx.state == T.RxPayload {
      NewMessageMoves(f, rx);
      ReceiverKeepsSole(f, r);
    } else if f.rx.state == T.RxPayload {
      if events == [] { RejectMoves(f, rx, chunk); } else { AcceptMoves(f, rx, chunk); }
      ReceiverKeepsSole(f, r);
    } else if events != [] {
      ReplyKeepsSole(Advance(f, rx));
    }
  }

  lemma ReceivedKeepsSole(f: Firmware, chunk: bytes)
    requires Inv(f) && MailIsSole(f) && f.rx.state != T.Stopped && |chunk| == f.rx.needed
    ensures MailIsSole(Received(f, chunk)) && LeavesTask(f, Received(f, chunk))
  {
    T.TakeCases(f.rx, chunk);
    DeliverKeepsSole(f, chunk, T.Take(f.rx, chunk).0, T.Take(f.rx, chunk).1);
  }

  predicate IsInterrupt(s: Step) {
    s.UartWritten? || s.UartReceived? || s.Pin?
  }

  lemma InterruptKeepsSole(f: Firmware, s: Step)
    requires Inv(f) && MailIsSole(f) && Expected(f, s) && IsInterrupt(s)
    ensures MailIsSole(Apply(f, s)) && LeavesTask(f, Apply(f, s))
  {
    match s
    case UartWritten => WrittenKeepsSole(f);
    case UartReceived(chunk) => ReceivedKeepsSole(f, chunk);
    case Pin(message) => PinKeepsSole(f, message);
  }

  // ----------------------------------------------------- the main task

  /** A step of the main task: of each message that is in the mailbox or pending then, references only moved. */
  ghost predicate OnlyMoves(f: Firmware, r: Firmware) {
    && (forall b | b in r.pool.mailbox :: b in f.pool.mailbox)
    && (r.task.Pended? ==> r.task.data in f.pool.mailbox || r.task == f.task)
    && forall b {:trigger Moved(f.pool, r.pool, b)} |
         Sole(f.pool, b) && (b in r.pool.mailbox || (r.task.Pended? && b == r.task.data)) :: Moved(f.pool, r.pool, b)
  }

  lemma MovingKeepsSole(f: Firmware, r: Firmware)
    requires MailIsSole(f) && OnlyMoves(f, r)
    ensures MailIsSole(r)
  {
    forall b | b in r.pool.mailbox || (r.task.Pended? && b == r.task.data) ensures Sole(r.pool, b) {
      assert Sole(f.pool, b);
      assert Moved(f.pool, r.pool, b);
    }
  }

  lemma PendMoves(p: Pool, b: nat)
    requires Counted(p) && p.mailbox != []
    ensures Moved(p, BufferPools.Pend(p), b)
  {
    assert p.mailbox == [p.mailbox[0]] + p.mailbox[1..];
  }

  lemma DecrementMoves(p: Pool, v: Var, b: nat)
    requires Counted(p) && v in p.pointers && p.pointers[v] in p.loose && Sole(p, b)
    ensures Moved(p, Decrement(p, v), b)
  {
  }

  lemma PendKeepsSole(f: Firmware)
    requires Inv(f) && MailIsSole(f) && Expected(f, Pend)
    ensures MailIsSole(TaskPend(f))
  {
    var r := TaskPend(f);
    assert r.pool == BufferPools.Pend(f.pool) && r.task == Pended(f.pool.mailbox[0]);
    forall b ensures Moved(f.pool, r.pool, b) {
      PendMoves(f.pool, b);
    }
    MovingKeepsSole(f, r);
  }

  lemma WrapKeepsSole(f: Firmware)
    requires Inv(f) && MailIsSole(f) && Expected(f, Wrap)
    ensures MailIsSole(TaskWrap(f))
  {
    assert Sole(f.pool, f.task.data);
    assert f.pool.loose == multiset{f.task.data};
    MovingKeepsSole(f, TaskWrap(f));
  }

  lemma ReleaseKeepsSole(f: Firmware)
    requires Inv(f) && MailIsSole(f) && Expected(f, Release)
    ensures MailIsSole(TaskRelease(f))
  {
    var r := TaskRelease(f);
    assert r.pool == Decrement(f.pool, RxMessage) && r.task == Released;
    forall b | Sole(f.pool, b) ensures Moved(f.pool, r.pool, b) {
      DecrementMoves(f.pool, RxMessage, b);
    }
    MovingKeepsSole(f, r);
  }

  lemma DestroyKeepsSole(f: Firmware)
    requires Inv(f) && MailIsSole(f) && Expected(f, Destroy)
    ensures MailIsSole(TaskDestroy(f))
  {
    MovingKeepsSole(f, TaskDestroy(f));
  }

  lemma BuildKeepsSole(f: Firmware, message: bytes)
    requires Inv(f) && MailIsSole(f) && Expected(f, Build(message))
    ensures MailIsSole(TaskBuild(f, message))
  {
    var r := TaskBuild(f, message);
    forall b | Sole(f.pool, b) ensures Moved(f.pool, r.pool, b) {
      SoleIsOne(f.pool, b);
      FreshAddress(f.pool);
    }
    MovingKeepsSole(f, r);
  }

  lemma CopyKeepsSole(f: Firmware)
    requires Inv(f) && MailIsSole(f) && Expected(f, CopyPointer)
    ensures MailIsSole(TaskCopyPointer(f))
  {
    MovingKeepsSole(f, TaskCopyPointer(f));
  }

  lemma HeaderKeepsSole(f: Firmware)
    requires Inv(f) && MailIsSole(f) && Expected(f, AddHeader)
    ensures MailIsSole(TaskFrame(f))
  {
    MovingKeepsSole(f, TaskFrame(f));
  }

  lemma DropCopyKeepsSole(f: Firmware)
    requires Inv(f) && MailIsSole(f) && Expected(f, DropCopy)
    ensures MailIsSole(TaskDropCopy(f))
  {
    MovingKeepsSole(f, TaskDropCopy(f));
  }

  lemma DropMessageKeepsSole(f: Firmware)
    requires Inv(f) && MailIsSole(f) && Expected(f, DropMessage)
    ensures MailIsSole(TaskDropMessage(f))
  {
    MovingKeepsSole(f, TaskDropMessage(f));
  }

  lemma EnterKeepsSole(f: Firmware)
    requires Inv(f) && MailIsSole(f) && Expected(f, Enter)
    ensures MailIsSole(TaskSubmit(f))
  {
    var r, x := TaskSubmit(f), f.pool.pointers[TxMessage];
    assert Submitted(f.(send := Queued), r, x);
    forall b | b in f.pool.mailbox ensures b != x {
      assert Sole(f.pool, b);
    }
    SubmissionKeepsSole(f.(send := Queued), r, x);
  }

  lemma SendKeepsSole(f: Firmware, s: Step)
    requires Inv(f) && MailIsSole(f) && Expected(f, s)
    requires s.Build? || s.CopyPointer? || s.AddHeader? || s.Enter? || s.DropCopy? || s.DropMessage?
    ensures MailIsSole(SendStep(f, s))
  {
    match s
    case Build(message) => BuildKeepsSole(f, message);
    case CopyPointer => CopyKeepsSole(f);
    case AddHeader => HeaderKeepsSole(f);
    case Enter => EnterKeepsSole(f);
    case DropCopy => DropCopyKeepsSole(f);
    case DropMessage => DropMessageKeepsSole(f);
  }

  lemma LoopKeepsSole(f: Firmware, s: Step)
    requires Inv(f) && MailIsSole(f) && Expected(f, s) && (s.Pend? || s.Wrap? || s.Release? || s.Destroy?)
    ensures MailIsSole(LoopStep(f, s))
  {
    match s
    case Pend => PendKeepsSole(f);
    case Wrap => WrapKeepsSole(f);
    case Release => ReleaseKeepsSole(f);
    case Destroy => DestroyKeepsSole(f);
  }

  lemma StepKeepsSole(f: Firmware, s: Step)
    requires Inv(f) && MailIsSole(f) && Expected(f, s)
    ensures MailIsSole(Apply(f, s))
  {
    if IsInterrupt(s) {
      InterruptKeepsSole(f, s);
    } else if s.Pend? || s.Wrap? || s.Release? || s.Destroy? {
      LoopKeepsSole(f, s);
    } else {
      SendKeepsSole(f, s);
    }
  }

  // ------------------------------------------------------------- all runs

  lemma {:induction false} RunKeepsSole(header: bytes, r: Run, steps: seq<Step>, t: Run)
    requires |header| == HEADER_SIZE && Good(header, r) && Leads(header, r, steps, t) && MailIsSole(r.firmware)
    ensures MailIsSole(t.firmware)
    decreases |steps|
  {
    if steps != [] {
      StepGood(header, r, steps[0]);
      StepKeepsSole(r.firmware, steps[0]);
      RunKeepsSole(header, Next(r, steps[0]), steps[1..], t);
    }
  }

  /** Between reading and writing the count of a message that it takes from the mailbox, or that it is about to send. */
  predicate Incrementing(f: Firmware) {
    f.task.Pended? || (f.send == Built && TxMessage in f.pool.pointers)
  }

  /** The buffer whose count the main task is raising. */
  function Subject(f: Firmware): nat
    requires Incrementing(f)
  {
    if f.task.Pended? then f.task.data else f.pool.pointers[TxMessage]
  }

  /** The first of its SharedPointers is counted from one to two: nobody else has a reference. */
  lemma SubjectIsOne(f: Firmware)
    requires Inv(f) && MailIsSole(f) && Incrementing(f)
    ensures Subject(f) in f.pool.memory && f.pool.memory[Subject(f)].refCount == 1
  {
    var p, b := f.pool, Subject(f);
    if f.task.Pended? {
      assert Sole(p, b);
      SoleIsOne(p, b);
    } else {
      assert CountRight(p, b);
      assert Holders(p.pointers, b) == {TxMessage};
    }
  }

  /** The main task stands where it stood and is about to count the same buffer. */
  ghost predicate StillIncrementing(f: Firmware, r: Firmware) {
    && Incrementing(f) && Incrementing(r) && r.task == f.task && r.send == f.send
    && Subject(r) == Subject(f)
  }

  lemma InterruptKeepsSubject(f: Firmware, s: Step)
    requires Inv(f) && MailIsSole(f) && Incrementing(f) && Expected(f, s) && IsInterrupt(s)
    ensures MailIsSole(Apply(f, s)) && StillIncrementing(f, Apply(f, s))
  {
    InterruptKeepsSole(f, s);
  }

  lemma {:induction false} InterruptsKeepSubject(header: bytes, t: Run, interrupts: seq<Step>, u: Run)
    requires |header| == HEADER_SIZE && Good(header, t) && MailIsSole(t.firmware) && Incrementing(t.firmware)
    requires Leads(header, t, interrupts, u) && forall s | s in interrupts :: IsInterrupt(s)
    ensures Good(header, u) && MailIsSole(u.firmware) && StillIncrementing(t.firmware, u.firmware)
    decreases |interrupts|
  {
    if interrupts != [] {
      StepGood(header, t, interrupts[0]);
      InterruptKeepsSubject(t.firmware, interrupts[0]);
      InterruptsKeepSubject(header, Next(t, interrupts[0]), interrupts[1..], u);
    }
  }

  /** The count of the subject after the step that raises it, everything else in memory staying as it is. */
  ghost predicate Raises(f: Firmware, n: nat)
    requires Inv(f) && Incrementing(f)
  {
    if f.task.Pended? then CountWritten(f.pool, Subject(f), n, TaskWrap(f).pool)
    else CountWritten(f.pool, Subject(f), n, TaskCopyPointer(f).pool)
  }

  ghost predicate CountWritten(p: Pool, b: nat, n: nat, r: Pool) {
    b in p.memory && r.memory == p.memory[b := p.memory[b].(refCount := n)]
  }

  lemma RaisesByOne(f: Firmware)
    requires Inv(f) && Incrementing(f) && Subject(f) in f.pool.memory
    ensures Raises(f, f.pool.memory[Subject(f)].refCount + 1)
  {
    if f.task.Pended? {
      WrapCounts(f);
    } else {
      CopyCounts(f);
    }
  }

  lemma WrapCounts(f: Firmware)
    requires Inv(f) && f.task.Pended? && f.task.data in f.pool.memory
    ensures CountWritten(f.pool, f.task.data, f.pool.memory[f.task.data].refCount + 1, TaskWrap(f).pool)
  {
  }

  lemma CopyCounts(f: Firmware)
    requires Inv(f) && f.send == Built && f.pool.pointers[TxMessage] in f.pool.memory
    ensures var b := f.pool.pointers[TxMessage];
            CountWritten(f.pool, b, f.pool.memory[b].refCount + 1, TaskCopyPointer(f).pool)
  {
  }

  /** No update is lost: if the main task reads the count in t, then any interrupts lead to u, and it writes back one
      more, the memory is that of the step that counts without being interrupted, in any reachable run. */
  lemma NoUpdateIsLost(header: bytes, steps: seq<Step>, t: Run, interrupts: seq<Step>, u: Run)
    requires |header| == HEADER_SIZE && Reachable(header, steps, t) && Incrementing(t.firmware)
    requires (ReachableIsGood(header, steps, t); Leads(header, t, interrupts, u))
    requires forall s | s in interrupts :: IsInterrupt(s)
    ensures Inv(u.firmware) && StillIncrementing(t.firmware, u.firmware)
    ensures var b := Subject(t.firmware);
            b in t.firmware.pool.memory && Raises(u.firmware, t.firmware.pool.memory[b].refCount + 1)
  {
    ReachableIsGood(header, steps, t);
    BootedGood(header);
    RunKeepsSole(header, Booted(header), steps, t);
    InterruptsKeepSubject(header, t, interrupts, u);
    SubjectIsOne(t.firmware);
    SubjectIsOne(u.firmware);
    RaisesByOne(u.firmware);
  }

  // ------------------------------------------------------ the message at work

  /** The raw references are live in both, to the same bytes. */
  ghost predicate Intact(p: Pool, r: Pool) {
    forall b {:trigger IntactAt(p, r, b)} | b in p.loose && b in r.loose :: IntactAt(p, r, b)
  }

  ghost predicate IntactAt(p: Pool, r: Pool, b: nat) {
    b in p.memory && b in r.memory && r.memory[b].data == p.memory[b].data
  }

  lemma SameDataIsIntact(p: Pool, r: Pool)
    requires Counted(p) && Counted(r) && SameData(p, r)
    ensures Intact(p, r)
  {
    forall b | b in p.loose && b in r.loose ensures IntactAt(p, r, b) {
      QueuedIsLive(p, b);
      QueuedIsLive(r, b);
    }
  }

  /** By way of a pool with the same raw references. */
  lemma IntactTwice(p: Pool, q: Pool, r: Pool)
    requires Intact(p, q) && Intact(q, r) && q.loose == p.loose
    ensures Intact(p, r)
  {
    forall b | b in p.loose && b in r.loose ensures IntactAt(p, r, b) {
      assert IntactAt(p, q, b) && IntactAt(q, r, b);
    }
  }

  lemma InterruptSendIntact(f: Firmware, data: bytes)
    requires Core(f) && IsrMessage !in f.pool.pointers && IsrCopy !in f.pool.pointers
    ensures Intact(f.pool, SendFromInterrupt(f, data).pool)
  {
    var p1 := Allocate(f.pool, IsrMessage, data);
    SameDataIsIntact(f.pool, p1);
    var g := Prepare(f, data);
    SameDataIsIntact(p1, g.pool);
    IntactTwice(f.pool, p1, g.pool);
    var h := Submit(g, IsrCopy);
    SameDataIsIntact(g.pool, h.pool);
    IntactTwice(f.pool, g.pool, h.pool);
    assert Agree(g.pool.pointers, h.pool.pointers, IsrMessage) && Agree(g.pool.pointers, h.pool.pointers, IsrCopy);
    ForgetIntact(h);
    IntactTwice(f.pool, h.pool, Forget(h).pool);
  }

  lemma ForgetIntact(h: Firmware)
    requires Core(h) && IsrMessage in h.pool.pointers && IsrCopy in h.pool.pointers
    ensures Intact(h.pool, Forget(h).pool)
  {
    var p1 := Unbind(h.pool, IsrCopy);
    var p2 := Unbind(p1, IsrMessage);
    SameDataIsIntact(h.pool, p1);
    SameDataIsIntact(p1, p2);
    IntactTwice(h.pool, p1, p2);
  }

  lemma WrittenIntact(f: Firmware)
    requires Inv(f) && f.txActive
    ensures Intact(f.pool, Written(f).pool)
  {
    SameDataIsIntact(f.pool, Written(f).pool);
  }

  lemma NewMessageIntact(f: Firmware, rx: T.Receiver)
    requires Inv(f) && f.rx.state != T.RxPayload && T.Valid(rx) && rx.state == T.RxPayload
    ensures Intact(f.pool, NewMessage(f, rx).pool)
  {
    var p1 := New(f.pool, []);
    var p2 := Assign(p1, RxBuffer, f.pool.next);
    SameDataIsIntact(f.pool, p1);
    SameDataIsIntact(p1, p2);
    IntactTwice(f.pool, p1, p2);
  }

  /** The driver writes into the buffer being received, which the main task does not know yet. */
  lemma StoreIntact(f: Firmware, chunk: bytes)
    requires Inv(f) && f.rx.state == T.RxPayload
    ensures Intact(f.pool, Store(f, chunk).pool)
  {
    forall b | b in f.pool.loose ensures b in f.pool.memory && b != f.pool.pointers[RxBuffer] {
      QueuedIsLive(f.pool, b);
    }
  }

  lemma RejectIntact(f: Firmware, rx: T.Receiver, chunk: bytes)
    requires Inv(f) && f.rx.state == T.RxPayload && T.Valid(rx) && rx.state != T.RxPayload
    ensures Intact(f.pool, Reject(f, rx, chunk).pool)
  {
    StoreIntact(f, chunk);
    var g := Store(f, chunk);
    SameDataIsIntact(g.pool, Unbind(g.pool, RxBuffer));
    IntactTwice(f.pool, g.pool, Unbind(g.pool, RxBuffer));
  }

  lemma AcceptIntact(f: Firmware, rx: T.Receiver, chunk: bytes)
    requires Inv(f) && f.rx.state == T.RxPayload && T.Valid(rx) && rx.state != T.RxPayload
    ensures Intact(f.pool, Accept(f, rx, chunk).pool)
  {
    StoreIntact(f, chunk);
    var g := Store(f, chunk);
    SameDataIsIntact(g.pool, PostBuffer(g.pool));
    IntactTwice(f.pool, g.pool, PostBuffer(g.pool));
  }

  lemma DeliverIntact(f: Firmware, chunk: bytes, rx: T.Receiver, events: seq<T.Event>)
    requires Inv(f) && T.Valid(rx)
    requires rx.state == T.RxPayload ==> f.rx.state != T.RxPayload && events == []
    requires f.rx.state == T.RxPayload ==> events == [] || events == [T.Posted(chunk)]
    requires f.rx.state != T.RxPayload ==> events == [] || events == [T.ResetReply]
    ensures Intact(f.pool, Deliver(f, chunk, rx, events).pool)
  {
    if rx.state == T.RxPayload {
      NewMessageIntact(f, rx);
    } else if f.rx.state == T.RxPayload {
      if events == [] { RejectIntact(f, rx, chunk); } else { AcceptIntact(f, rx, chunk); }
    } else if events != [] {
      InterruptSendIntact(Advance(f, rx), Encode(RESET_CONNECTION, []));
    } else {
      SameDataIsIntact(f.pool, f.pool);
    }
  }

  lemma InterruptIntact(f: Firmware, s: Step)
    requires Inv(f) && Expected(f, s) && IsInterrupt(s)
    ensures Intact(f.pool, Interrupt(f, s).pool) && Interrupt(f, s).pool.loose == f.pool.loose
  {
    match s
    case UartWritten => WrittenIntact(f);
    case UartReceived(chunk) =>
      T.TakeCases(f.rx, chunk);
      DeliverIntact(f, chunk, T.Take(f.rx, chunk).0, T.Take(f.rx, chunk).1);
    case Pin(message) => InterruptSendIntact(f, Encode(ROC_MESSAGE, message));
  }

  /** The header of a message that is sent goes into a buffer of its own. */
  lemma FrameIntact(f: Firmware)
    requires Inv(f) && f.send == Copied
    ensures Intact(f.pool, TaskFrame(f).pool)
  {
    forall b | b in f.pool.loose ensures IntactAt(f.pool, TaskFrame(f).pool, b) {
      QueuedIsLive(f.pool, b);
      QueuedIsLive(TaskFrame(f).pool, b);
    }
  }

  lemma SendIntact(f: Firmware, s: Step)
    requires Inv(f) && Expected(f, s)
    requires s.Build? || s.CopyPointer? || s.AddHeader? || s.Enter? || s.DropCopy? || s.DropMessage?
    ensures Intact(f.pool, SendStep(f, s).pool) && SendStep(f, s).pool.loose == f.pool.loose
  {
    if s.AddHeader? {
      FrameIntact(f);
    } else {
      SameDataIsIntact(f.pool, SendStep(f, s).pool);
    }
  }

  // ------------------------------------------------- where the firmware stands

  /** How a step moves the main loop. */
  ghost predicate Moves(f: Firmware, s: Step, r: Firmware) {
    match s
    case Pend => r.task.Pended? && |r.taken| == |f.taken| + 1
    case Wrap => r.task == Processing && r.taken == f.taken
    case Release => r.task == Released && r.taken == f.taken
    case Destroy => r.task == Waiting && r.taken == f.taken
    case _ => r.task == f.task && r.taken == f.taken
  }

  lemma ReceptionMoves(f: Firmware, chunk: bytes)
    requires Inv(f) && Expected(f, UartReceived(chunk))
    ensures Moves(f, UartReceived(chunk), Received(f, chunk))
  {
    T.TakeCases(f.rx, chunk);
    DeliveryMoves(f, chunk, T.Take(f.rx, chunk).0, T.Take(f.rx, chunk).1);
  }

  lemma DeliveryMoves(f: Firmware, chunk: bytes, rx: T.Receiver, events: seq<T.Event>)
    requires Inv(f) && T.Valid(rx)
    requires rx.state == T.RxPayload ==> f.rx.state != T.RxPayload && events == []
    requires f.rx.state == T.RxPayload ==> events == [] || events == [T.Posted(chunk)]
    requires f.rx.state != T.RxPayload ==> events == [] || events == [T.ResetReply]
    ensures var r := Deliver(f, chunk, rx, events); r.task == f.task && r.taken == f.taken
  {
  }

  lemma InterruptMoves(f: Firmware, s: Step)
    requires Inv(f) && Expected(f, s) && (s.UartWritten? || s.UartReceived? || s.Pin?)
    ensures Moves(f, s, Interrupt(f, s))
  {
    match s
    case UartWritten =>
    case UartReceived(chunk) => ReceptionMoves(f, chunk);
    case Pin(_) =>
  }

  lemma LoopMoves(f: Firmware, s: Step)
    requires Inv(f) && Expected(f, s) && (s.Pend? || s.Wrap? || s.Release? || s.Destroy?)
    ensures Moves(f, s, LoopStep(f, s))
  {
  }

  lemma SendMoves(f: Firmware, s: Step)
    requires Inv(f) && Expected(f, s)
    requires s.Build? || s.CopyPointer? || s.AddHeader? || s.Enter? || s.DropCopy? || s.DropMessage?
    ensures Moves(f, s, SendStep(f, s))
  {
  }

  lemma StepMoves(f: Firmware, s: Step)
    requires Inv(f) && Expected(f, s)
    ensures Moves(f, s, Apply(f, s))
  {
    if s.UartWritten? || s.UartReceived? || s.Pin? {
      InterruptMoves(f, s);
    } else if s.Pend? || s.Wrap? || s.Release? || s.Destroy? {
      LoopMoves(f, s);
    } else {
      SendMoves(f, s);
    }
  }

  predicate AtWork(f: Firmware) {
    f.task.Pended? || (f.task == Processing && RxMessage in f.pool.pointers)
  }

  /** The buffer that the main task took from the mailbox and has not given up. */
  function AtHand(f: Firmware): nat
    requires AtWork(f)
  {
    if f.task.Pended? then f.task.data else f.pool.pointers[RxMessage]
  }

  /** It holds the message that was taken last. */
  ghost predicate Holds(f: Firmware) {
    AtWork(f) ==>
      f.taken != [] && AtHand(f) in f.pool.memory && f.pool.memory[AtHand(f)].data == f.taken[|f.taken| - 1]
  }

  lemma StillHolds(f: Firmware, r: Firmware)
    requires Inv(f) && Inv(r) && Holds(f) && AtWork(f) && AtWork(r) && r.taken == f.taken
    requires Intact(f.pool, r.pool) && r.pool.loose == f.pool.loose
    ensures Holds(r)
  {
    assert f.pool.loose == multiset{AtHand(f)} && r.pool.loose == multiset{AtHand(r)};
    assert AtHand(r) in multiset{AtHand(f)};
    assert IntactAt(f.pool, r.pool, AtHand(f));
  }

  lemma PendHolds(f: Firmware)
    requires Inv(f) && Expected(f, Pend)
    ensures Holds(TaskPend(f))
  {
    var r, b := TaskPend(f), f.pool.mailbox[0];
    QueuedIsLive(f.pool, b);
    assert r.task == Pended(b) && r.pool.memory == f.pool.memory;
    assert r.taken == f.taken + [f.pool.memory[b].data];
  }

  lemma WrapHolds(f: Firmware)
    requires Inv(f) && Expected(f, Wrap) && Holds(f)
    ensures Holds(TaskWrap(f))
  {
    SameDataIsIntact(f.pool, TaskWrap(f).pool);
    StillHolds(f, TaskWrap(f));
  }

  lemma InterruptHolds(f: Firmware, s: Step)
    requires Inv(f) && Expected(f, s) && Holds(f) && IsInterrupt(s)
    ensures Holds(Interrupt(f, s))
  {
    InterruptMoves(f, s);
    InterruptIntact(f, s);
    if AtWork(f) { StillHolds(f, Interrupt(f, s)); }
  }

  lemma SendHolds(f: Firmware, s: Step)
    requires Inv(f) && Expected(f, s) && Holds(f)
    requires s.Build? || s.CopyPointer? || s.AddHeader? || s.Enter? || s.DropCopy? || s.DropMessage?
    ensures Holds(SendStep(f, s))
  {
    SendMoves(f, s);
    SendIntact(f, s);
    if AtWork(f) { StillHolds(f, SendStep(f, s)); }
  }

  lemma StepHolds(f: Firmware, s: Step)
    requires Inv(f) && Expected(f, s) && Holds(f)
    ensures Holds(Apply(f, s))
  {
    if IsInterrupt(s) {
      InterruptHolds(f, s);
    } else if s.Pend? {
      PendHolds(f);
    } else if s.Wrap? {
      WrapHolds(f);
    } else if !s.Release? && !s.Destroy? {
      SendHolds(f, s);
    }
  }

  lemma {:induction false} RunHolds(header: bytes, r: Run, steps: seq<Step>, t: Run)
    requires |header| == HEADER_SIZE && Good(header, r) && Leads(header, r, steps, t) && Holds(r.firmware)
    ensures Holds(t.firmware)
    decreases |steps|
  {
    if steps != [] {
      StepGood(header, r, steps[0]);
      StepHolds(r.firmware, steps[0]);
      RunHolds(header, Next(r, steps[0]), steps[1..], t);
    }
  }

  /** The message that the main task works on keeps its bytes, whatever interrupts come. */
  lemma MessageStaysWhole(header: bytes, steps: seq<Step>, t: Run)
    requires |header| == HEADER_SIZE && Reachable(header, steps, t) && AtWork(t.firmware)
    ensures var f := t.firmware;
            && AtHand(f) in f.pool.memory && f.taken != [] && f.taken <= f.posted
            && f.pool.memory[AtHand(f)].data == f.taken[|f.taken| - 1]
  {
    BootedGood(header);
    RunHolds(header, Booted(header), steps, t);
    ReachableIsGood(header, steps, t);
    TakenArePosted(t.firmware);
  }

  lemma TakenArePosted(f: Firmware)
    requires Ordered(f)
    ensures f.taken <= f.posted
  {
  }
}
