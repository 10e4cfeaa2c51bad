/** Whole runs of the firmware's serial interface: interrupts and steps of the main task in any order. */
module FirmwareRuns {
  import opened Options
  import opened Frames
  import opened BufferPools
  import opened Firmwares
  import T = StpTargets
  import H = StpHosts

  datatype Step =
    | UartWritten | UartReceived(chunk: bytes) | Pin(message: bytes)
    | Pend | Wrap | Build(message: bytes) | CopyPointer | AddHeader | Enter | DropCopy | DropMessage
    | Release | Destroy

  /** When a step makes sense to the firmware: a callback of the driver after a request, a step of the main task in
      program order. */
  predicate Expected(f: Firmware, s: Step) {
    match s
    case UartWritten => f.txActive
    case UartReceived(chunk) => f.rx.state != T.Stopped && |chunk| == f.rx.needed
    case Pin(message) => |message| <= 0xffff
    case Pend => f.task == Waiting && f.pool.mailbox != []
    case Wrap => f.task.Pended?
    case Build(message) => f.task == Processing && f.send == NotSending && |message| <= 0xffff
    case CopyPointer => f.send == Built
    case AddHeader => f.send == Copied
    case Enter => f.send == Framed
    case DropCopy => f.send == Queued
    case DropMessage => f.send == Dropped
    case Release => f.task == Processing && f.send == NotSending
    case Destroy => f.task == Released
  }

  /** What a step shows: to the receiver, the mailbox and the transmit queue, and in the message under construction. */
  ghost predicate Effect(f: Firmware, s: Step, r: Firmware)
    requires Inv(f) && Expected(f, s)
  {
    && Reported(r) == Reported(f) + (if s.UartWritten? then 1 else 0)
    && match s
    case UartReceived(chunk) =>
      && r.rx == T.Take(f.rx, chunk).0 && Handled(f, r, T.Take(f.rx, chunk).1)
      && r.send == f.send && DraftOf(r.pool) == DraftOf(f.pool)
    case Pin(message) =>
      && r.rx == f.rx && r.posted == f.posted && r.frames == f.frames + [Encode(ROC_MESSAGE, message)]
      && r.send == f.send && DraftOf(r.pool) == DraftOf(f.pool)
    case Build(message) => Silent(f, r) && r.send == Built && DraftOf(r.pool) == Some(message)
    case CopyPointer => Silent(f, r) && r.send == Copied && DraftOf(r.pool) == DraftOf(f.pool)
    case AddHeader =>
      && Silent(f, r) && r.send == Framed && DraftOf(f.pool).Some?
      && DraftOf(r.pool) == Some(Encode(ROC_MESSAGE, DraftOf(f.pool).value))
    case Enter =>
      && r.rx == f.rx && r.posted == f.posted && r.send == Queued
      && DraftOf(f.pool).Some? && r.frames == f.frames + [DraftOf(f.pool).value]
    case DropCopy => Silent(f, r) && r.send == Dropped
    case DropMessage => Silent(f, r) && r.send == NotSending
    case Release => Silent(f, r) && r.send == f.send == NotSending
    case Destroy => Silent(f, r) && r.send == f.send == NotSending
    case _ => Silent(f, r) && r.send == f.send && DraftOf(r.pool) == DraftOf(f.pool)
  }

  function Interrupt(f: Firmware, s: Step): (r: Firmware)
    requires Inv(f) && Expected(f, s) && (s.UartWritten? || s.UartReceived? || s.Pin?)
    ensures Inv(r) && Effect(f, s, r)
  {
    match s
    case UartWritten => Written(f)
    case UartReceived(chunk) => Received(f, chunk)
    case Pin(message) => PinEvent(f, message)
  }

  function SendStep(f: Firmware, s: Step): (r: Firmware)
    requires Inv(f) && Expected(f, s)
    requires s.Build? || s.CopyPointer? || s.AddHeader? || s.Enter? || s.DropCopy? || s.DropMessage?
    ensures Inv(r) && Effect(f, s, r)
  {
    match s
    case Build(message) => TaskBuild(f, message)
    case CopyPointer => TaskCopyPointer(f)
    case AddHeader => TaskFrame(f)
    case Enter => TaskSubmit(f)
    case DropCopy => TaskDropCopy(f)
    case DropMessage => TaskDropMessage(f)
  }

  function LoopStep(f: Firmware, s: Step): (r: Firmware)
    requires Inv(f) && Expected(f, s) && (s.Pend? || s.Wrap? || s.Release? || s.Destroy?)
    ensures Inv(r) && Effect(f, s, r)
  {
    match s
    case Pend => TaskPend(f)
    case Wrap => TaskWrap(f)
    case Release => TaskRelease(f)
    case Destroy => TaskDestroy(f)
  }

  function Apply(f: Firmware, s: Step): (r: Firmware)
    requires Inv(f) && Expected(f, s)
    ensures Inv(r) && Effect(f, s, r)
  {
    if s.UartWritten? || s.UartReceived? || s.Pin? then Interrupt(f, s)
    else if s.Pend? || s.Wrap? || s.Release? || s.Destroy? then LoopStep(f, s)
    else SendStep(f, s)
  }

  // ------------------------------------------------------------------ runs

  /** What an observer notes: the message that sendToHost was last asked to send, the messages that were
      submitted so far, the bytes that came in, and how many writes the driver has completed. */
  datatype Run = Run(firmware: Firmware, draft: bytes, sent: seq<H.Message>, received: bytes, completed: nat)

  /** The driver reports a write once, after it was given it; the rest is up to the firmware. */
  predicate Enabled(r: Run, s: Step) {
    if s.UartWritten? then |r.firmware.handed| > r.completed else Expected(r.firmware, s)
  }

  /** The messages that a step submits. */
  function Submits(r: Run, s: Step): seq<H.Message>
    requires Inv(r.firmware) && Expected(r.firmware, s)
  {
    match s
    case UartReceived(chunk) =>
      if T.Take(r.firmware.rx, chunk).1 == [T.ResetReply] then [H.Message(RESET_CONNECTION, [])] else []
    case Pin(message) => [H.Message(ROC_MESSAGE, message)]
    case Enter => [H.Message(ROC_MESSAGE, r.draft)]
    case _ => []
  }

  function Next(r: Run, s: Step): Run
    requires Inv(r.firmware) && Expected(r.firmware, s)
  {
    Run(Apply(r.firmware, s), if s.Build? then s.message else r.draft, r.sent + Submits(r, s),
        if s.UartReceived? then r.received + s.chunk else r.received,
        if s.UartWritten? then r.completed + 1 else r.completed)
  }

  function FramesOf(sent: seq<H.Message>): (r: seq<bytes>)
    ensures |r| == |sent|
  {
    seq(|sent|, i requires 0 <= i < |sent| => Encode(sent[i].kind, sent[i].payload))
  }

  /** The messages among the events. */
  function PostedOf(events: seq<T.Event>): seq<bytes> {
    if events == [] then []
    else (if events[0].Posted? then [events[0].message] else []) + PostedOf(events[1..])
  }

  function Resets(events: seq<T.Event>): nat {
    if events == [] then 0 else (if events[0].ResetReply? then 1 else 0) + Resets(events[1..])
  }

  function ResetsSent(sent: seq<H.Message>): nat {
    if sent == [] then 0 else (if sent[0].kind == RESET_CONNECTION then 1 else 0) + ResetsSent(sent[1..])
  }

  /** What the receiver has made of the bytes so far, starting with the given header buffer. */
  function Heard(header: bytes, received: bytes): (T.Receiver, bytes, seq<T.Event>)
    requires |header| == HEADER_SIZE
  {
    T.Drain(T.Start(header), received)
  }

  /** The message under construction is the one that sendToHost was asked for. */
  ghost predicate DraftKept(r: Run) {
    var f := r.firmware;
    && (f.send == Built || f.send == Copied ==> DraftOf(f.pool) == Some(r.draft))
    && (f.send == Framed ==> DraftOf(f.pool) == Some(Encode(ROC_MESSAGE, r.draft)))
    && |r.draft| <= 0xffff
  }

  ghost predicate SentKept(r: Run) {
    && r.firmware.frames == FramesOf(r.sent)
    && forall m | m in r.sent :: |m.payload| <= 0xffff
  }

  ghost predicate HeardKept(header: bytes, r: Run)
    requires |header| == HEADER_SIZE
  {
    var heard := Heard(header, r.received);
    && heard.0 == r.firmware.rx && heard.1 == []
    && PostedOf(heard.2) == r.firmware.posted && Resets(heard.2) == ResetsSent(r.sent)
  }

  /** A write is in flight exactly while the transmitter is active, and never more than one. */
  ghost predicate FlightKept(r: Run) {
    Reported(r.firmware) == r.completed
  }

  lemma EnabledIsExpected(r: Run, s: Step)
    requires FlightKept(r) && Enabled(r, s)
    ensures Expected(r.firmware, s)
  {
  }

  ghost predicate Good(header: bytes, r: Run)
    requires |header| == HEADER_SIZE
  {
    Inv(r.firmware) && FlightKept(r) && DraftKept(r) && SentKept(r) && HeardKept(header, r)
  }

  lemma Associate<X>(a: seq<X>, b: seq<X>, c: seq<X>)
    ensures (a + b) + c == a + (b + c)
  {
  }

  lemma {:induction false} PostedAppend(a: seq<T.Event>, b: seq<T.Event>)
    ensures PostedOf(a + b) == PostedOf(a) + PostedOf(b) && Resets(a + b) == Resets(a) + Resets(b)
  {
    if a == [] {
      assert a + b == b;
    } else {
      assert (a + b)[0] == a[0] && (a + b)[1..] == a[1..] + b;
      PostedAppend(a[1..], b);
      var first := if a[0].Posted? then [a[0].message] else [];
      Associate(first, PostedOf(a[1..]), PostedOf(b));
    }
  }

  lemma {:induction false} ResetsAppend(a: seq<H.Message>, m: H.Message)
    ensures ResetsSent(a + [m]) == ResetsSent(a) + if m.kind == RESET_CONNECTION then 1 else 0
  {
    if a == [] {
      assert a + [m] == [m];
    } else {
      assert (a + [m])[1..] == a[1..] + [m];
      ResetsAppend(a[1..], m);
    }
  }

  lemma FramesAppend(sent: seq<H.Message>, m: H.Message)
    ensures FramesOf(sent + [m]) == FramesOf(sent) + [Encode(m.kind, m.payload)]
  {
  }

  // ---------------------------------------------------- one step of a run

  lemma HeardGrows(header: bytes, r: Run, chunk: bytes)
    requires |header| == HEADER_SIZE && HeardKept(header, r) && T.Valid(r.firmware.rx)
    requires r.firmware.rx.state != T.Stopped && |chunk| == r.firmware.rx.needed
    ensures var step := T.Take(r.firmware.rx, chunk);
            Heard(header, r.received + chunk) == (step.0, [], Heard(header, r.received).2 + step.1)
  {
    T.DrainAppend(T.Start(header), r.received, chunk);
    assert [] + chunk == chunk && chunk[..|chunk|] == chunk && chunk[|chunk|..] == [];
    var step := T.Take(r.firmware.rx, chunk);
    assert T.Drain(step.0, []) == (step.0, [], []);
    T.Unit(step.1);
  }

  /** One event more: a message joins the posted ones, a reset request the resets sent. */
  lemma HeardKeeps(header: bytes, r: Run, chunk: bytes, t: Run)
    requires |header| == HEADER_SIZE && HeardKept(header, r) && T.Valid(r.firmware.rx)
    requires r.firmware.rx.state != T.Stopped && |chunk| == r.firmware.rx.needed
    requires var step := T.Take(r.firmware.rx, chunk);
             && t.firmware.rx == step.0 && t.received == r.received + chunk
             && t.firmware.posted == r.firmware.posted + PostedOf(step.1)
             && ResetsSent(t.sent) == ResetsSent(r.sent) + Resets(step.1)
    ensures HeardKept(header, t)
  {
    HeardGrows(header, r, chunk);
    PostedAppend(Heard(header, r.received).2, T.Take(r.firmware.rx, chunk).1);
  }

  /** What the interrupt of the receiver contributes. */
  lemma ReceivedKeeps(header: bytes, r: Run, chunk: bytes, t: Run)
    requires |header| == HEADER_SIZE && HeardKept(header, r) && SentKept(r) && Inv(r.firmware)
    requires Expected(r.firmware, UartReceived(chunk)) && Effect(r.firmware, UartReceived(chunk), t.firmware)
    requires t.sent == r.sent + Submits(r, UartReceived(chunk)) && t.received == r.received + chunk
    ensures HeardKept(header, t) && SentKept(t)
  {
    var events := T.Take(r.firmware.rx, chunk).1;
    T.TakeCases(r.firmware.rx, chunk);
    if events == [T.ResetReply] {
      var m := H.Message(RESET_CONNECTION, []);
      FramesAppend(r.sent, m);
      ResetsAppend(r.sent, m);
      assert r.firmware.posted + PostedOf(events) == r.firmware.posted;
    } else {
      assert t.sent == r.sent;
      if events == [] {
        assert r.firmware.posted + PostedOf(events) == r.firmware.posted;
      } else {
        assert PostedOf(events) == [chunk];
      }
    }
    HeardKeeps(header, r, chunk, t);
  }

  /** A step that submits one message of its own. */
  lemma SubmitKeeps(header: bytes, r: Run, s: Step, t: Run)
    requires |header| == HEADER_SIZE && Good(header, r) && Expected(r.firmware, s) && (s.Pin? || s.Enter?)
    requires Effect(r.firmware, s, t.firmware) && t.sent == r.sent + Submits(r, s) && t.received == r.received
    ensures HeardKept(header, t) && SentKept(t)
  {
    var m := Submits(r, s)[0];
    FramesAppend(r.sent, m);
    ResetsAppend(r.sent, m);
  }

  /** Any step, given what it shows. */
  lemma StepKeeps(header: bytes, r: Run, s: Step, t: Run)
    requires |header| == HEADER_SIZE && Good(header, r) && Expected(r.firmware, s)
    requires t.completed == if s.UartWritten? then r.completed + 1 else r.completed
    requires Inv(t.firmware) && Effect(r.firmware, s, t.firmware) && t.sent == r.sent + Submits(r, s)
    requires t.draft == if s.Build? then s.message else r.draft
    requires t.received == if s.UartReceived? then r.received + s.chunk else r.received
    ensures Good(header, t)
  {
    if s.UartReceived? {
      ReceivedKeeps(header, r, s.chunk, t);
    } else if s.Pin? || s.Enter? {
      SubmitKeeps(header, r, s, t);
    } else {
      assert t.sent == r.sent;
    }
  }

  lemma StepGood(header: bytes, r: Run, s: Step)
    requires |header| == HEADER_SIZE && Good(header, r) && Enabled(r, s)
    ensures Expected(r.firmware, s) && Good(header, Next(r, s))
  {
    EnabledIsExpected(r, s);
    StepKeeps(header, r, s, Next(r, s));
  }

  // ------------------------------------------------------------- all runs

  function Booted(header: bytes): Run
    requires |header| == HEADER_SIZE
  {
    Run(Boot(header), [], [], [], 0)
  }

  lemma BootedGood(header: bytes)
    requires |header| == HEADER_SIZE
    ensures Good(header, Booted(header))
  {
    BootInv(header);
  }

  /** The steps can be taken one after the other, and lead from r to t. */
  ghost predicate Leads(header: bytes, r: Run, steps: seq<Step>, t: Run)
    requires |header| == HEADER_SIZE && Good(header, r)
    decreases |steps|
  {
    if steps == [] then t == r
    else
      && Enabled(r, steps[0])
      && (StepGood(header, r, steps[0]);
          Leads(header, Next(r, steps[0]), steps[1..], t))
  }

  ghost predicate Reachable(header: bytes, steps: seq<Step>, t: Run)
    requires |header| == HEADER_SIZE
  {
    BootedGood(header);
    Leads(header, Booted(header), steps, t)
  }

  lemma {:induction false} LeadsToGood(header: bytes, r: Run, steps: seq<Step>, t: Run)
    requires |header| == HEADER_SIZE && Good(header, r) && Leads(header, r, steps, t)
    ensures Good(header, t)
    decreases |steps|
  {
    if steps != [] {
      StepGood(header, r, steps[0]);
      LeadsToGood(header, Next(r, steps[0]), steps[1..], t);
    }
  }

  lemma ReachableIsGood(header: bytes, steps: seq<Step>, t: Run)
    requires |header| == HEADER_SIZE && Reachable(header, steps, t)
    ensures Good(header, t)
  {
    BootedGood(header);
    LeadsToGood(header, Booted(header), steps, t);
  }

  /** Reference counting, whatever interrupts what: a buffer is live exactly while something refers to it, its
      count is the number of these references, it is deleted at most once, and then it is neither queued, posted,
      in flight nor held. */
  lemma CountsAreConserved(header: bytes, steps: seq<Step>, t: Run, b: nat)
    requires |header| == HEADER_SIZE && Reachable(header, steps, t)
    ensures var p := t.firmware.pool;
            && (b in p.memory <==> References(p, b) > 0)
            && (b in p.memory ==> p.memory[b].refCount == References(p, b))
            && multiset(p.freed)[b] == (if b < p.next && b !in p.memory then 1 else 0)
            && p.loose == Raw(t.firmware)
            && (b in p.freed ==> b !in p.txQueue && b !in p.mailbox && b !in p.loose && b !in p.pointers.Values)
  {
    ReachableIsGood(header, steps, t);
    LiveMeansReferenced(t.firmware.pool, b);
    assert CountRight(t.firmware.pool, b);
  }

  lemma {:induction false} WireIsConcat(sent: seq<H.Message>)
    ensures Concat(FramesOf(sent)) == H.Wire(sent)
    decreases |sent|
  {
    if sent != [] {
      var frames := FramesOf(sent);
      assert frames[0] == Encode(sent[0].kind, sent[0].payload) && frames[1..] == FramesOf(sent[1..]);
      WireIsConcat(sent[1..]);
    }
  }

  /** The transmit path, end to end: buffers leave in the order in which they were submitted, an idle transmitter
      has nothing queued, one write is outstanding at the driver while txActive, namely of the buffer that txBuffer
      holds, and none otherwise, and a host that reads the buffers handed to the UART one by one gets exactly the
      payloads of the messages submitted first, nothing more and nothing torn. */
  ghost predicate Transmits(t: Run) {
    var f := t.firmware;
    && f.handed + f.pool.txQueue == f.enqueued && |f.wire| + |f.pool.txQueue| == |t.sent|
    && (f.pool.txQueue != [] ==> f.txActive)
    && |f.handed| == t.completed + (if f.txActive then 1 else 0)
    && (f.txActive ==> TxBuffer in f.pool.pointers && f.pool.pointers[TxBuffer] == f.handed[|f.handed| - 1])
    && H.Feed(H.Initial([]), [], f.wire).0.queue == H.Payloads(t.sent[..|f.wire|])
  }

  lemma HostReceivesWhatWasSent(header: bytes, steps: seq<Step>, t: Run)
    requires |header| == HEADER_SIZE && Reachable(header, steps, t)
    ensures Transmits(t)
  {
    ReachableIsGood(header, steps, t);
    GoodTransmits(header, t);
  }

  lemma GoodTransmits(header: bytes, t: Run)
    requires |header| == HEADER_SIZE && Good(header, t)
    ensures Transmits(t)
  {
    OrderKept(t.firmware);
    HostReads(t.firmware, t.sent);
  }

  lemma OrderKept(f: Firmware)
    requires Ordered(f)
    ensures f.handed + f.pool.txQueue == f.enqueued && (f.pool.txQueue != [] ==> f.txActive)
    ensures f.wire + DataOf(f.pool, f.pool.txQueue) == f.frames
    ensures f.txActive ==> TxBuffer in f.pool.pointers && f.pool.pointers[TxBuffer] == f.handed[|f.handed| - 1]
  {
  }

  /** What a host reads out of the buffers handed to the UART so far. */
  lemma HostReads(f: Firmware, sent: seq<H.Message>)
    requires f.wire + DataOf(f.pool, f.pool.txQueue) == f.frames == FramesOf(sent)
    requires forall m | m in sent :: |m.payload| <= 0xffff
    ensures |f.wire| + |f.pool.txQueue| == |sent|
    ensures H.Feed(H.Initial([]), [], f.wire).0.queue == H.Payloads(sent[..|f.wire|])
  {
    var k := |f.wire|;
    assert |f.wire| + |f.pool.txQueue| == |FramesOf(sent)|;
    WirePrefix(f.wire, DataOf(f.pool, f.pool.txQueue), sent);
    WireIsConcat(sent[..k]);
    forall i | 0 <= i < k ensures |sent[..k][i].payload| <= 0xffff {
      assert sent[i] in sent;
    }
    H.HostRoundTrip(sent[..k], f.wire);
  }

  lemma WirePrefix(wire: seq<bytes>, queued: seq<bytes>, sent: seq<H.Message>)
    requires wire + queued == FramesOf(sent)
    ensures |wire| <= |sent| && wire == FramesOf(sent[..|wire|])
  {
    assert |wire| <= |wire + queued| == |sent|;
    forall i | 0 <= i < |wire| ensures wire[i] == FramesOf(sent[..|wire|])[i] {
      assert wire[i] == (wire + queued)[i];
    }
  }

  function Rocs(items: seq<T.Item>): seq<bytes> {
    if items == [] then [] else (if items[0].Roc? then [items[0].message] else []) + Rocs(items[1..])
  }

  function ResetItems(items: seq<T.Item>): nat {
    if items == [] then 0 else (if items[0].Reset? then 1 else 0) + ResetItems(items[1..])
  }

  lemma {:induction false} EventsMatch(items: seq<T.Item>)
    ensures PostedOf(T.EventsOf(items)) == Rocs(items) && Resets(T.EventsOf(items)) == ResetItems(items)
  {
    if items != [] {
      EventsMatch(items[1..]);
    }
  }

  /** The receive path, end to end: when the bytes of a host's frames came in, with any interrupts of the transmitter
      and any steps of the main task in between, the mailbox was posted exactly the messages, in order, the main task has taken
      the first of them, and one reset reply was submitted for each reset request. */
  lemma TargetReceivesWhatWasSent(header: bytes, steps: seq<Step>, t: Run, items: seq<T.Item>)
    requires |header| == HEADER_SIZE && Reachable(header, steps, t)
    requires (forall i | 0 <= i < |items| :: T.Sendable(items[i])) && t.received == T.Wire(items)
    ensures t.firmware.posted == Rocs(items) && t.firmware.taken <= Rocs(items)
    ensures |t.firmware.taken| + |t.firmware.pool.mailbox| == |Rocs(items)|
    ensures ResetsSent(t.sent) == ResetItems(items)
  {
    ReachableIsGood(header, steps, t);
    T.TargetRoundTrip(header, items);
    EventsMatch(items);
  }

  lemma NothingQueued(r: Run)
    requires Ordered(r.firmware) && SentKept(r) && r.firmware.pool.txQueue == []
    ensures r.firmware.wire == FramesOf(r.sent)
  {
    assert r.firmware.wire + DataOf(r.firmware.pool, []) == r.firmware.wire;
  }

  lemma WriteDone(header: bytes, r: Run) returns (next: Run)
    requires |header| == HEADER_SIZE && Good(header, r) && r.firmware.pool.txQueue != []
    ensures Enabled(r, UartWritten) && Expected(r.firmware, UartWritten) && next == Next(r, UartWritten)
    ensures Good(header, next) && next.sent == r.sent
    ensures |next.firmware.pool.txQueue| < |r.firmware.pool.txQueue|
    ensures next.firmware.pool.txQueue == r.firmware.pool.txQueue[1..]
  {
    OrderKept(r.firmware);
    StepGood(header, r, UartWritten);
    next := Next(r, UartWritten);
    assert r.sent + [] == r.sent;
  }

  function Writes(k: nat): (r: seq<Step>)
    ensures |r| == k
  {
    if k == 0 then [] else [UartWritten] + Writes(k - 1)
  }

  /** As many write interrupts as there are queued buffers lead to a run with everything on the wire. */
  ghost predicate Drains(header: bytes, r: Run, k: nat, t: Run)
    requires |header| == HEADER_SIZE && Good(header, r)
  {
    && |r.firmware.pool.txQueue| == k && Leads(header, r, Writes(k), t)
    && t.sent == r.sent && t.firmware.wire == FramesOf(t.sent)
  }

  /** The queue empties: as many write interrupts as there are queued buffers put everything submitted on the wire. */
  lemma {:induction false} QueueDrains(header: bytes, r: Run, k: nat) returns (t: Run)
    requires |header| == HEADER_SIZE && Good(header, r) && |r.firmware.pool.txQueue| == k
    ensures Drains(header, r, k, t)
    decreases k
  {
    if k == 0 {
      NoStep(header, r);
      return r;
    }
    var next := WriteDone(header, r);
    t := QueueDrains(header, next, k - 1);
    OneWriteMore(header, r, k, next, t);
  }

  lemma NoStep(header: bytes, r: Run)
    requires |header| == HEADER_SIZE && Good(header, r) && r.firmware.pool.txQueue == []
    ensures Drains(header, r, 0, r)
  {
    NothingQueued(r);
  }

  lemma OneWriteMore(header: bytes, r: Run, k: nat, next: Run, t: Run)
    requires |header| == HEADER_SIZE && Good(header, r) && Enabled(r, UartWritten) && Expected(r.firmware, UartWritten)
    requires next == Next(r, UartWritten) && Good(header, next) && k > 0 && Drains(header, next, k - 1, t)
    requires next.sent == r.sent && |r.firmware.pool.txQueue| == k
    ensures Drains(header, r, k, t)
  {
    LeadsFirst(header, r, UartWritten, Writes(k - 1), t);
  }

  lemma LeadsFirst(header: bytes, r: Run, s: Step, more: seq<Step>, t: Run)
    requires |header| == HEADER_SIZE && Good(header, r) && Enabled(r, s) && Expected(r.firmware, s)
    requires Good(header, Next(r, s)) && Leads(header, Next(r, s), more, t)
    ensures Leads(header, r, [s] + more, t)
  {
    assert ([s] + more)[1..] == more;
  }
}
