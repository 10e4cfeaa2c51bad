/** The whole link: the host controller, STP in both directions, and the firmware with its interrupts, buffers and main
    task. Its runs are runs of the ROC protocol over two channels of messages. */
module Links {
  import opened Options
  import opened Frames
  import opened Pins
  import opened RocMessages
  import opened RocTargets
  import opened RocHosts
  import opened RocWires
  import F = Firmwares
  import W = FirmwareRuns
  import B = TaskBuffers
  import R = RocRuns
  import T = StpTargets
  import H = StpHosts
  import RT = RocTheorems
  import RQ = RocRequests

  /** `asked` lists the commands that the host has sent, of which the main task has begun to process the first `begun`;
      `pending` are the replies to the last of these that are not submitted yet, `said` all messages submitted, of
      which the host has processed the first `heard`. `header` is what the header buffer of the probe held at the start,
      `pull` the pull mode in all requests. */
  datatype Link = Link(
    host: Host, run: W.Run, target: Target, asked: seq<Command>, begun: nat, pending: seq<Reply>, said: seq<Reply>,
    heard: nat, header: bytes, pull: byte)

  datatype Step =
    | HostActs(action: R.Step) | Hears | ProbeActs(turn: W.Step) | Begins(address: nat, level: int)
    | Builds(subject: nat) | Submits | PinChanges(ioid: nat, level: int)

  function Start(header: bytes, pull: byte): Link
    requires |header| == HEADER_SIZE
  {
    Link(START, W.Booted(header), IDLE, [], 0, [], [], 0, header, pull)
  }

  /** The protocol's view of the link: what was sent and not begun, and what was said, or is about to be, and not
      heard. */
  function View(l: Link): R.System
    requires l.begun <= |l.asked| && l.heard <= |l.said|
  {
    R.System(l.host, l.target, l.asked[l.begun..], l.said[l.heard..] + l.pending)
  }

  // ---------------------------------------------------------------- the link

  predicate Says(m: H.Message, r: Reply) {
    m.kind == ROC_MESSAGE && DecodeReply(m.payload) == Heard(r, Blocking(r))
  }

  /** What was submitted says what was said. */
  ghost predicate Spoken(sent: seq<H.Message>, said: seq<Reply>) {
    |sent| == |said| && forall i {:trigger sent[i]} | 0 <= i < |sent| :: Says(sent[i], said[i])
  }

  /** The message under construction is the first pending reply, and replies are pending only while a message is
      processed. */
  ghost predicate Drafted(f: F.Firmware, draft: bytes, pending: seq<Reply>) {
    && (pending != [] ==> f.task == F.Processing)
    && (f.send == F.Built || f.send == F.Copied || f.send == F.Framed ==>
          pending != [] && Says(H.Message(ROC_MESSAGE, draft), pending[0]))
  }

  /** Every command taken from the mailbox was begun, but for one that is pended. */
  predicate InStep(f: F.Firmware, begun: nat) {
    |f.taken| == begun + if f.task.Pended? then 1 else 0
  }

  predicate AllFit(asked: seq<Command>) {
    forall c | c in asked :: CommandFits(c)
  }

  /** Ids and values have the width of their fields. */
  ghost predicate Fits(l: Link) {
    && AllFit(l.asked) && (forall r | r in l.said || r in l.pending :: ReplyFits(r))
    && forall o | o in l.host.ids :: l.host.ids[o] < 0x1_0000_0000
  }

  /** What firmware, protocol and wire have to do with each other. */
  ghost predicate Together(l: Link) {
    && l.begun <= |l.asked| && l.heard <= |l.said| && Fits(l)
    && l.run.received <= T.Wire(Downward(l.asked, l.pull))
    && InStep(l.run.firmware, l.begun) && Spoken(l.run.sent, l.said)
    && Drafted(l.run.firmware, l.run.draft, l.pending)
  }

  ghost predicate Good(l: Link) {
    |l.header| == HEADER_SIZE && FirmwareGood(l.header, l.run) && Together(l) && R.Good(View(l))
  }

  ghost predicate FirmwareGood(header: bytes, r: W.Run)
    requires |header| == HEADER_SIZE
  {
    W.Good(header, r) && B.Holds(r.firmware)
  }

  lemma ReplyLength(r: Reply, subject: nat)
    requires ReplyFits(r) && subject < 0x1_0000_0000
    ensures |EncodeReply(r, subject)| <= 9 && Says(H.Message(ROC_MESSAGE, EncodeReply(r, subject)), r)
  {
    ReplyRoundTrip(r, subject);
  }

  /** There is a result, and at most one message, which can be encoded. */
  predicate Reports(t: Table, ioid: nat, level: int) {
    var e := Edge(t, ioid, level);
    e.Some? && (e.value.1 == [] || (|e.value.1| == 1 && e.value.1[0].Changed? && ReplyFits(e.value.1[0])))
  }

  /** An edge is reported by an object that the host knows. */
  lemma EdgeFits(l: Link, ioid: nat, level: int)
    requires Good(l)
    ensures Reports(l.target.table, ioid, level)
  {
    KnownEdge(View(l), ioid, level);
  }

  lemma KnownEdge(s: R.System, ioid: nat, level: int)
    requires R.Known(s) && Inverse(s.host) && Consistent(s.target.table)
    requires forall o | o in s.host.ids :: s.host.ids[o] < 0x1_0000_0000
    ensures Reports(s.target.table, ioid, level)
  {
  }

  // ------------------------------------------------------------------- steps

  predicate IsHostStep(s: R.Step) {
    s.Registers? || s.Unregisters? || s.Sends? || s.Resumes? || s.Ticks?
  }

  /** The steps of the firmware that concern neither the content of messages nor the objects. */
  predicate Plain(s: W.Step) {
    !s.Wrap? && !s.Build? && !s.Enter? && !s.Pin?
  }

  /** What the host has received, read from the buffers handed to the UART. */
  function Queue(l: Link): seq<bytes> {
    H.Feed(H.Initial([]), [], l.run.firmware.wire).0.queue
  }

  /** What the main task reads out of the buffer that it took from the mailbox. */
  function AtWork(f: F.Firmware): Understood {
    if B.AtWork(f) && B.AtHand(f) in f.pool.memory && |f.pool.memory[B.AtHand(f)].data| >= ROC_HEADER_SIZE
    then DecodeCommand(f.pool.memory[B.AtHand(f)].data)
    else Unknown
  }

  predicate Int8Fits(level: int) {
    -128 <= level < 128
  }

  /** What can happen next. Bytes come in as the host sent them; the main task releases a message when it has answered
      it; the allocator returns an address that is not in use. */
  predicate Enabled(l: Link, step: Step)
    requires AllFit(l.asked) && l.begun <= |l.asked| && l.heard <= |l.said|
  {
    match step
    case HostActs(s) => IsHostStep(s) && R.Enabled(View(l), s) && (s.Sends? ==> CommandFits(User(0, s.request)))
    case Hears => l.heard < |Queue(l)|
    case ProbeActs(s) =>
      && Plain(s) && W.Enabled(l.run, s) && (s.Release? ==> l.pending == [])
      && (s.UartReceived? ==> l.run.received + s.chunk <= T.Wire(Downward(l.asked, l.pull)))
    case Begins(address, level) =>
      && W.Enabled(l.run, W.Wrap) && 0 < address < 0x1_0000_0000 && address !in Live(l.target.probes) && Int8Fits(level)
      && (AtWork(l.run.firmware) == Understood(Construct) ==> |l.target.probes| < CAPACITY)
    case Builds(subject) =>
      l.run.firmware.task == F.Processing && l.run.firmware.send == F.NotSending && l.pending != [] &&
      subject < 0x1_0000_0000
    case Submits => W.Enabled(l.run, W.Enter)
    case PinChanges(_, level) => true
  }

  function HostAsks(h: Host, s: R.Step): Asking
    requires s.Unregisters? ==> s.owner in h.ids
    requires s.Ticks? ==> h.unansweredPings <= 2
  {
    match s
    case Registers(o) => Register(h, o)
    case Unregisters(o) => Unregister(h, o)
    case Sends(o, request) => SendUser(h, o, request)
    case Ticks => Tick(h)
    case _ => Resume(h)
  }

  function NextAsk(l: Link, s: R.Step): Option<Link>
    requires s.Unregisters? ==> s.owner in l.host.ids
    requires s.Ticks? ==> l.host.unansweredPings <= 2
  {
    match HostAsks(l.host, s)
    case None => None
    case Some(a) => Some(l.(host := a.0, asked := l.asked + a.1))
  }

  /** onReadyRead takes the next message. An empty one is skipped; one that is no reply is a failure. */
  function NextHear(l: Link): Option<Link>
    requires l.heard < |Queue(l)|
  {
    match DecodeReply(Queue(l)[l.heard])
    case Nothing => if Queue(l)[l.heard] == [] then Some(l.(heard := l.heard + 1)) else None
    case Heard(reply, _) =>
      match Receive(l.host, reply)
      case None => None
      case Some(h) => Some(l.(host := h, heard := l.heard + 1))
  }

  ghost predicate CanGo(r: W.Run, s: W.Step) {
    F.Inv(r.firmware) && W.Expected(r.firmware, s)
  }

  function NextPlain(l: Link, s: W.Step): Option<Link>
    requires CanGo(l.run, s)
  {
    Some(l.(run := W.Next(l.run, s)))
  }

  /** processMessage: the answers are known, and will be sent one by one. */
  function NextBegin(l: Link, address: nat, level: int): Option<Link>
    requires CanGo(l.run, W.Wrap)
  {
    match AtWork(l.run.firmware)
    case Unknown => None
    case Understood(c) =>
      match Process(l.target, c, address, level)
      case None => None
      case Some(r) => Some(l.(run := W.Next(l.run, W.Wrap), target := r.0, begun := l.begun + 1, pending := r.1))
  }

  function NextBuild(l: Link, message: bytes): Option<Link>
    requires CanGo(l.run, W.Build(message))
  {
    Some(l.(run := W.Next(l.run, W.Build(message))))
  }

  function NextSubmit(l: Link): Option<Link>
    requires CanGo(l.run, W.Enter) && l.pending != []
  {
    Some(l.(run := W.Next(l.run, W.Enter), said := l.said + [l.pending[0]], pending := l.pending[1..]))
  }

  /** The interrupt of a pin: its object reports to the host at once. */
  function NextPin(l: Link, ioid: nat, level: int): Option<Link>
    requires F.Inv(l.run.firmware) && Reports(l.target.table, ioid, level)
  {
    match Edge(l.target.table, ioid, level)
    case None => None
    case Some(r) =>
      var target := l.target.(table := r.0);
      if r.1 == [] then Some(l.(target := target))
      else
        ReplyLength(r.1[0], 0);
        Some(l.(run := W.Next(l.run, W.Pin(EncodeReply(r.1[0], 0))), target := target, said := l.said + r.1))
  }

  /** The parts of a step make sense. */
  ghost predicate Possible(l: Link, step: Step) {
    match step
    case HostActs(s) => (s.Unregisters? ==> s.owner in l.host.ids) && (s.Ticks? ==> l.host.unansweredPings <= 2)
    case Hears => l.heard < |Queue(l)|
    case ProbeActs(s) => CanGo(l.run, s)
    case Begins(_, _) => CanGo(l.run, W.Wrap)
    case Builds(subject) =>
      && l.pending != [] && ReplyFits(l.pending[0]) && CanGo(l.run, W.Build(EncodeReply(l.pending[0], subject)))
    case Submits => CanGo(l.run, W.Enter) && l.pending != []
    case PinChanges(ioid, level) => F.Inv(l.run.firmware) && Reports(l.target.table, ioid, level)
  }

  /** The next state, unless host or probe fails. */
  function Next(l: Link, step: Step): Option<Link>
    requires Possible(l, step)
  {
    match step
    case HostActs(s) => NextAsk(l, s)
    case Hears => NextHear(l)
    case ProbeActs(s) => NextPlain(l, s)
    case Begins(address, level) => NextBegin(l, address, level)
    case Builds(subject) => NextBuild(l, EncodeReply(l.pending[0], subject))
    case Submits => NextSubmit(l)
    case PinChanges(ioid, level) => NextPin(l, ioid, level)
  }

  lemma FirmwareCanGo(header: bytes, r: W.Run, s: W.Step)
    requires |header| == HEADER_SIZE && FirmwareGood(header, r) && W.Enabled(r, s)
    ensures CanGo(r, s)
  {
    W.EnabledIsExpected(r, s);
  }

  lemma SubmitPossible(f: F.Firmware, draft: bytes, pending: seq<Reply>)
    requires Drafted(f, draft, pending) && f.send == F.Framed
    ensures pending != []
  {
  }

  lemma EnabledIsPossible(l: Link, step: Step)
    requires Good(l) && Enabled(l, step)
    ensures Possible(l, step)
  {
    match step
    case HostActs(_) =>
    case Hears =>
    case ProbeActs(s) => FirmwareCanGo(l.header, l.run, s);
    case Begins(_, _) => FirmwareCanGo(l.header, l.run, W.Wrap);
    case Builds(subject) =>
      ReplyLength(l.pending[0], subject);
      FirmwareCanGo(l.header, l.run, W.Build(EncodeReply(l.pending[0], subject)));
    case Submits =>
      FirmwareCanGo(l.header, l.run, W.Enter);
      SubmitPossible(l.run.firmware, l.run.draft, l.pending);
    case PinChanges(ioid, level) => EdgeFits(l, ioid, level);
  }

  // -------------------------------------------------------- what comes in

  lemma {:induction false} DownwardAt(asked: seq<Command>, pull: byte)
    requires AllFit(asked)
    ensures |T.EventsOf(Downward(asked, pull))| == |asked| == |Downward(asked, pull)|
    ensures forall i | 0 <= i < |asked| ::
              T.EventsOf(Downward(asked, pull))[i] == T.Posted(EncodeCommand(asked[i], pull))
    ensures forall i | 0 <= i < |asked| :: T.Sendable(Downward(asked, pull)[i])
  {
    if asked != [] {
      CommandRoundTrip(asked[0], pull);
      DownwardAt(asked[1..], pull);
    }
  }

  lemma {:induction false} DownwardGrows(asked: seq<Command>, more: seq<Command>, pull: byte)
    requires AllFit(asked) && AllFit(more)
    ensures AllFit(asked + more) && T.Wire(Downward(asked, pull)) <= T.Wire(Downward(asked + more, pull))
  {
    if asked != [] {
      assert (asked + more)[0] == asked[0] && (asked + more)[1..] == asked[1..] + more;
      DownwardGrows(asked[1..], more, pull);
    }
  }

  lemma {:induction false} AllPosted(events: seq<T.Event>)
    requires forall i | 0 <= i < |events| :: events[i].Posted?
    ensures |W.PostedOf(events)| == |events| && W.Resets(events) == 0
    ensures forall i | 0 <= i < |events| :: W.PostedOf(events)[i] == events[i].message
  {
    if events != [] {
      AllPosted(events[1..]);
    }
  }

  /** Of the bytes of the commands, what came in so far posted the first commands. */
  lemma PrefixPosts(header: bytes, received: bytes, asked: seq<Command>, pull: byte)
    requires |header| == HEADER_SIZE && AllFit(asked) && received <= T.Wire(Downward(asked, pull))
    ensures var events := W.Heard(header, received).2;
            && |events| <= |asked|
            && forall i | 0 <= i < |events| :: events[i] == T.Posted(EncodeCommand(asked[i], pull))
  {
    var wire := T.Wire(Downward(asked, pull));
    DownwardAt(asked, pull);
    T.TargetRoundTrip(header, Downward(asked, pull));
    assert received + wire[|received|..] == wire;
    T.DrainAppend(T.Start(header), received, wire[|received|..]);
  }

  /** What the mailbox was posted are the first commands, and there was no reset. */
  lemma PostedCommands(header: bytes, r: W.Run, asked: seq<Command>, pull: byte)
    requires |header| == HEADER_SIZE && W.HeardKept(header, r) && AllFit(asked)
    requires r.received <= T.Wire(Downward(asked, pull))
    ensures |r.firmware.posted| <= |asked|
    ensures forall i | 0 <= i < |r.firmware.posted| :: r.firmware.posted[i] == EncodeCommand(asked[i], pull)
  {
    PrefixPosts(header, r.received, asked, pull);
    AllPosted(W.Heard(header, r.received).2);
  }

  /** Bytes of commands cause no reset reply. */
  lemma NoResetReply(header: bytes, r: W.Run, chunk: bytes, asked: seq<Command>, pull: byte)
    requires |header| == HEADER_SIZE && W.HeardKept(header, r) && T.Valid(r.firmware.rx) && AllFit(asked)
    requires r.firmware.rx.state != T.Stopped && |chunk| == r.firmware.rx.needed
    requires r.received + chunk <= T.Wire(Downward(asked, pull))
    ensures T.Take(r.firmware.rx, chunk).1 != [T.ResetReply]
  {
    W.HeardGrows(header, r, chunk);
    PrefixPosts(header, r.received + chunk, asked, pull);
    var before, now := W.Heard(header, r.received).2, T.Take(r.firmware.rx, chunk).1;
    assert now != [] ==> (before + now)[|before|] == now[0];
  }

  // ------------------------------------------------------- steps of the probe

  lemma PlainSilent(header: bytes, r: W.Run, s: W.Step, asked: seq<Command>, pull: byte)
    requires |header| == HEADER_SIZE && W.HeardKept(header, r) && AllFit(asked) && CanGo(r, s) && Plain(s)
    requires s.UartReceived? ==> r.received + s.chunk <= T.Wire(Downward(asked, pull))
    ensures W.Submits(r, s) == []
  {
    if s.UartReceived? {
      NoResetReply(header, r, s.chunk, asked, pull);
    }
  }

  /** The protocol does not notice the step. */
  ghost predicate Unseen(l: Link, n: Option<Link>)
    requires Good(l)
  {
    n.Some? && Good(n.value) && View(n.value) == View(l)
  }

  /** A step of the firmware, as far as the link is concerned. */
  ghost predicate Turns(r: W.Run, s: W.Step, n: W.Run) {
    && B.Moves(r.firmware, s, n.firmware)
    && n.draft == (if s.Build? then s.message else r.draft)
    && n.received == (if s.UartReceived? then r.received + s.chunk else r.received)
    && match s
       case Build(_) => n.firmware.send == F.Built
       case CopyPointer => r.firmware.send == F.Built && n.firmware.send == F.Copied
       case AddHeader => r.firmware.send == F.Copied && n.firmware.send == F.Framed
       case Enter => r.firmware.send == F.Framed && n.firmware.send == F.Queued
       case DropCopy => n.firmware.send == F.Dropped
       case DropMessage => n.firmware.send == F.NotSending
       case _ => n.firmware.send == r.firmware.send
  }

  lemma FirmwareTurns(header: bytes, r: W.Run, s: W.Step) returns (n: W.Run)
    requires |header| == HEADER_SIZE && FirmwareGood(header, r) && W.Enabled(r, s) && CanGo(r, s)
    ensures n == W.Next(r, s) && FirmwareGood(header, n) && Turns(r, s, n) && n.sent == r.sent + W.Submits(r, s)
  {
    W.StepGood(header, r, s);
    B.StepMoves(r.firmware, s);
    B.StepHolds(r.firmware, s);
    n := W.Next(r, s);
  }

  lemma PlainTogether(l: Link, s: W.Step, n: W.Run)
    requires Together(l) && Plain(s) && Turns(l.run, s, n) && n.sent == l.run.sent
    requires s.Release? ==> l.pending == [] && l.run.firmware.task == F.Processing
    requires s.Pend? ==> l.run.firmware.task == F.Waiting
    requires s.Destroy? ==> l.run.firmware.task == F.Released
    requires n.received <= T.Wire(Downward(l.asked, l.pull))
    ensures Together(l.(run := n)) && View(l.(run := n)) == View(l)
  {
  }

  lemma PlainGood(l: Link, s: W.Step)
    requires Good(l) && Enabled(l, ProbeActs(s)) && CanGo(l.run, s)
    ensures Unseen(l, NextPlain(l, s))
  {
    PlainSilent(l.header, l.run, s, l.asked, l.pull);
    var n := FirmwareTurns(l.header, l.run, s);
    assert n.sent == l.run.sent + [] == l.run.sent;
    PlainTogether(l, s, n);
  }

  lemma BuildTogether(l: Link, message: bytes, n: W.Run)
    requires Together(l) && l.pending != [] && Says(H.Message(ROC_MESSAGE, message), l.pending[0])
    requires Turns(l.run, W.Build(message), n) && n.sent == l.run.sent
    ensures Together(l.(run := n)) && View(l.(run := n)) == View(l)
  {
  }

  lemma BuildGood(l: Link, subject: nat)
    requires Good(l) && Enabled(l, Builds(subject)) && Possible(l, Builds(subject))
    ensures Unseen(l, Next(l, Builds(subject)))
  {
    var message := EncodeReply(l.pending[0], subject);
    ReplyLength(l.pending[0], subject);
    var n := FirmwareTurns(l.header, l.run, W.Build(message));
    assert n.sent == l.run.sent + [] == l.run.sent;
    BuildTogether(l, message, n);
  }

  lemma SpokenGrows(sent: seq<H.Message>, said: seq<Reply>, m: H.Message, r: Reply)
    requires Spoken(sent, said) && Says(m, r)
    ensures Spoken(sent + [m], said + [r])
  {
  }

  lemma SaidMoves(said: seq<Reply>, heard: nat, pending: seq<Reply>)
    requires heard <= |said| && pending != []
    ensures (said + [pending[0]])[heard..] + pending[1..] == said[heard..] + pending
  {
  }

  lemma SubmitTogether(l: Link, n: W.Run)
    requires Together(l) && l.pending != [] && Turns(l.run, W.Enter, n)
    requires n.sent == l.run.sent + [H.Message(ROC_MESSAGE, l.run.draft)]
    ensures var t := l.(run := n, said := l.said + [l.pending[0]], pending := l.pending[1..]);
            Together(t) && View(t) == View(l)
  {
    SpokenGrows(l.run.sent, l.said, H.Message(ROC_MESSAGE, l.run.draft), l.pending[0]);
    SaidMoves(l.said, l.heard, l.pending);
  }

  lemma SubmitGood(l: Link)
    requires Good(l) && W.Enabled(l.run, W.Enter) && CanGo(l.run, W.Enter) && l.pending != []
    ensures Unseen(l, NextSubmit(l))
  {
    var n := FirmwareTurns(l.header, l.run, W.Enter);
    SubmitTogether(l, n);
  }

  // ------------------------------------------------ steps of the protocol

  /** The step is one of the protocol. */
  ghost predicate Seen(l: Link, step: R.Step, n: Option<Link>)
    requires Good(l)
  {
    n.Some? && Good(n.value) && R.Enabled(View(l), step) && R.Next(View(l), step) == Some(View(n.value))
  }

  /** The commands of a step of the host have the width of their fields. */
  lemma AskedFit(h: Host, s: R.Step)
    requires IsHostStep(s) && (s.Unregisters? ==> s.owner in h.ids) && (s.Ticks? ==> h.unansweredPings <= 2)
    requires s.Sends? ==> CommandFits(User(0, s.request))
    requires HostAsks(h, s).Some? && forall o | o in h.ids :: h.ids[o] < 0x1_0000_0000
    ensures AllFit(HostAsks(h, s).value.1)
    ensures forall o | o in HostAsks(h, s).value.0.ids :: HostAsks(h, s).value.0.ids[o] < 0x1_0000_0000
  {
  }

  lemma AskTogether(l: Link, h: Host, more: seq<Command>)
    requires Together(l) && AllFit(more) && forall o | o in h.ids :: h.ids[o] < 0x1_0000_0000
    ensures var t := l.(host := h, asked := l.asked + more);
            Together(t) && View(t) == View(l).(host := h, down := View(l).down + more)
  {
    DownwardGrows(l.asked, more, l.pull);
    assert (l.asked + more)[l.begun..] == l.asked[l.begun..] + more;
  }

  lemma AskNext(s: R.System, step: R.Step)
    requires IsHostStep(step) && R.Enabled(s, step)
    ensures (step.Unregisters? ==> step.owner in s.host.ids) && (step.Ticks? ==> s.host.unansweredPings <= 2)
    ensures R.Next(s, step) == R.AsksIf(s, HostAsks(s.host, step))
  {
  }

  lemma HostActsGood(l: Link, s: R.Step)
    requires Good(l) && Enabled(l, HostActs(s))
    ensures Possible(l, HostActs(s)) && Seen(l, s, NextAsk(l, s))
  {
    RT.StepGood(View(l), s);
    AskNext(View(l), s);
    AskedFit(l.host, s);
    var a := HostAsks(l.host, s).value;
    AskTogether(l, a.0, a.1);
  }

  lemma {:induction false} PayloadsAt(messages: seq<H.Message>)
    ensures |H.Payloads(messages)| == |messages|
    ensures forall i | 0 <= i < |messages| :: H.Payloads(messages)[i] == messages[i].payload
  {
    if messages != [] {
      PayloadsAt(messages[1..]);
    }
  }

  /** What the host takes next is what was said next. */
  lemma HearsWhatWasSaid(header: bytes, r: W.Run, said: seq<Reply>, heard: nat)
    requires |header| == HEADER_SIZE && FirmwareGood(header, r) && Spoken(r.sent, said)
    requires heard < |H.Feed(H.Initial([]), [], r.firmware.wire).0.queue|
    ensures heard < |said|
    ensures DecodeReply(H.Feed(H.Initial([]), [], r.firmware.wire).0.queue[heard]) ==
            Heard(said[heard], Blocking(said[heard]))
  {
    W.GoodTransmits(header, r);
    PayloadsAt(r.sent[..|r.firmware.wire|]);
    assert Says(r.sent[heard], said[heard]);
  }

  lemma HearTogether(l: Link, h: Host)
    requires Together(l) && l.heard < |l.said| && Receive(l.host, l.said[l.heard]) == Some(h)
    ensures var t := l.(host := h, heard := l.heard + 1);
            Together(t) && View(t) == View(l).(host := h, up := View(l).up[1..])
    ensures View(l).up != [] && View(l).up[0] == l.said[l.heard]
  {
    assert ReplyFits(l.said[l.heard]);
    assert l.said[l.heard..][1..] == l.said[l.heard + 1..];
    assert (l.said[l.heard..] + l.pending)[1..] == l.said[l.heard..][1..] + l.pending;
  }

  lemma HearNext(s: R.System)
    requires s.up != []
    ensures R.Enabled(s, R.HostReceives)
    ensures R.Next(s, R.HostReceives) ==
            match Receive(s.host, s.up[0]) case None => None case Some(h) => Some(s.(host := h, up := s.up[1..]))
  {
  }

  lemma HearsGood(l: Link)
    requires Good(l) && l.heard < |Queue(l)|
    ensures Seen(l, R.HostReceives, NextHear(l))
  {
    HearsWhatWasSaid(l.header, l.run, l.said, l.heard);
    assert View(l).up[0] == l.said[l.heard];
    HearNext(View(l));
    RT.StepGood(View(l), R.HostReceives);
    HearTogether(l, Receive(l.host, l.said[l.heard]).value);
  }

  /** The message that the main task took last is the next command. */
  lemma WorksOnNext(header: bytes, r: W.Run, asked: seq<Command>, pull: byte, begun: nat)
    requires |header| == HEADER_SIZE && FirmwareGood(header, r) && AllFit(asked)
    requires r.received <= T.Wire(Downward(asked, pull)) && InStep(r.firmware, begun) && r.firmware.task.Pended?
    ensures begun < |asked| && AtWork(r.firmware) == Understood(asked[begun])
  {
    PostedCommands(header, r, asked, pull);
    B.TakenArePosted(r.firmware);
    assert r.firmware.taken[begun] == r.firmware.posted[begun];
    CommandRoundTrip(asked[begun], pull);
  }

  /** The replies to a command have the width of their fields. */
  lemma AnswersFit(t: Target, c: Command, address: nat, level: int)
    requires CommandFits(c) && address < 0x1_0000_0000 && Int8Fits(level)
    requires Process(t, c, address, level).Some?
    ensures forall r | r in Process(t, c, address, level).value.1 :: ReplyFits(r)
  {
  }

  lemma BeginTogether(l: Link, n: W.Run, t: Target, replies: seq<Reply>)
    requires Together(l) && l.run.firmware.task.Pended? && l.begun < |l.asked|
    requires Turns(l.run, W.Wrap, n) && n.sent == l.run.sent && forall r | r in replies :: ReplyFits(r)
    ensures var k := l.(run := n, target := t, begun := l.begun + 1, pending := replies);
            Together(k) && View(k) == R.Answers(View(l).(down := View(l).down[1..]), (t, replies))
    ensures View(l).down != [] && View(l).down[0] == l.asked[l.begun]
  {
    assert l.asked[l.begun..][1..] == l.asked[l.begun + 1..];
    assert l.pending == [] && l.said[l.heard..] + [] == l.said[l.heard..];
  }

  lemma BeginNext(s: R.System, address: nat, level: int)
    requires s.down != [] && address != 0 && address !in Live(s.target.probes)
    requires s.down[0] == Construct ==> |s.target.probes| < CAPACITY
    ensures R.Enabled(s, R.ProbeReceives(address, level))
    ensures R.Next(s, R.ProbeReceives(address, level)) ==
            match Process(s.target, s.down[0], address, level)
            case None => None case Some(r) => Some(R.Answers(s.(down := s.down[1..]), r))
  {
  }

  /** The protocol's step. */
  ghost predicate Processes(s: R.System, address: nat, level: int, v: R.System) {
    && R.Enabled(s, R.ProbeReceives(address, level)) && R.Good(v)
    && R.Next(s, R.ProbeReceives(address, level)) == Some(v)
  }

  lemma BeginsView(s: R.System, address: nat, level: int) returns (r: (Target, seq<Reply>), v: R.System)
    requires R.Good(s) && s.down != [] && address != 0 && address !in Live(s.target.probes)
    requires s.down[0] == Construct ==> |s.target.probes| < CAPACITY
    ensures Process(s.target, s.down[0], address, level) == Some(r)
    ensures v == R.Answers(s.(down := s.down[1..]), r) && Processes(s, address, level, v)
  {
    BeginNext(s, address, level);
    RT.StepGood(s, R.ProbeReceives(address, level));
    r := Process(s.target, s.down[0], address, level).value;
    v := R.Answers(s.(down := s.down[1..]), r);
  }

  /** The firmware's step. */
  lemma BeginsTurn(l: Link, r: (Target, seq<Reply>)) returns (n: W.Run, k: Link)
    requires |l.header| == HEADER_SIZE && FirmwareGood(l.header, l.run) && Together(l)
    requires W.Enabled(l.run, W.Wrap) && CanGo(l.run, W.Wrap) && l.begun < |l.asked|
    requires forall x | x in r.1 :: ReplyFits(x)
    ensures n == W.Next(l.run, W.Wrap) && FirmwareGood(l.header, n)
    ensures k == l.(run := n, target := r.0, begun := l.begun + 1, pending := r.1)
    ensures Together(k) && View(k) == R.Answers(View(l).(down := View(l).down[1..]), r)
    ensures View(l).down != []
  {
    n := FirmwareTurns(l.header, l.run, W.Wrap);
    assert n.sent == l.run.sent + [] == l.run.sent;
    BeginTogether(l, n, r.0, r.1);
    k := l.(run := n, target := r.0, begun := l.begun + 1, pending := r.1);
  }

  lemma BeginsWith(l: Link, address: nat, level: int, c: Command, r: (Target, seq<Reply>), n: W.Run)
    requires CanGo(l.run, W.Wrap) && n == W.Next(l.run, W.Wrap)
    requires AtWork(l.run.firmware) == Understood(c) && Process(l.target, c, address, level) == Some(r)
    ensures NextBegin(l, address, level) == Some(l.(run := n, target := r.0, begun := l.begun + 1, pending := r.1))
  {
  }

  lemma BeginsGood(l: Link, address: nat, level: int)
    requires Good(l) && Enabled(l, Begins(address, level)) && CanGo(l.run, W.Wrap)
    ensures Seen(l, R.ProbeReceives(address, level), NextBegin(l, address, level))
  {
    WorksOnNext(l.header, l.run, l.asked, l.pull, l.begun);
    assert View(l).down[0] == l.asked[l.begun];
    var r, v := BeginsView(View(l), address, level);
    AnswersFit(l.target, l.asked[l.begun], address, level);
    var n, k := BeginsTurn(l, r);
    BeginsWith(l, address, level, l.asked[l.begun], r, n);
  }

  // ------------------------------------------------------------------- pins

  /** The position of a report among what the host will hear: before the replies that are pending. */
  function Position(l: Link): nat
    requires l.heard <= |l.said|
  {
    |l.said| - l.heard
  }

  lemma PinInserts(said: seq<Reply>, heard: nat, pending: seq<Reply>, more: seq<Reply>)
    requires heard <= |said|
    ensures var up, at := said[heard..] + pending, |said| - heard;
            (said + more)[heard..] + pending == up[..at] + more + up[at..]
  {
  }

  lemma PinTogether(l: Link, target: Target, n: W.Run, r: Reply)
    requires Together(l) && ReplyFits(r) && Turns(l.run, W.Pin(EncodeReply(r, 0)), n)
    requires n.sent == l.run.sent + [H.Message(ROC_MESSAGE, EncodeReply(r, 0))]
    ensures Together(l.(run := n, target := target, said := l.said + [r]))
  {
    ReplyLength(r, 0);
    SpokenGrows(l.run.sent, l.said, H.Message(ROC_MESSAGE, EncodeReply(r, 0)), r);
  }

  /** The state after an edge. */
  ghost predicate Reported(l: Link, ioid: nat, level: int, k: Link) {
    && k.host == l.host && k.asked == l.asked && k.begun == l.begun && k.pending == l.pending && k.heard == l.heard
    && Edge(l.target.table, ioid, level).Some?
    && var r := Edge(l.target.table, ioid, level).value;
       k.target == l.target.(table := r.0) && k.said == l.said + r.1
  }

  lemma PinNext(l: Link, ioid: nat, level: int, k: Link)
    requires l.begun <= |l.asked| && l.heard <= |l.said| && Reported(l, ioid, level, k)
    ensures R.Enabled(View(l), R.PinEdge(ioid, level, Position(l)))
    ensures R.Next(View(l), R.PinEdge(ioid, level, Position(l))) == Some(View(k))
  {
    PinInserts(l.said, l.heard, l.pending, Edge(l.target.table, ioid, level).value.1);
  }

  /** The firmware's part. */
  lemma ReportTurns(l: Link, target: Target, r: Reply) returns (k: Link)
    requires |l.header| == HEADER_SIZE && FirmwareGood(l.header, l.run) && Together(l) && ReplyFits(r)
    ensures |EncodeReply(r, 0)| <= 9
    ensures k == l.(run := W.Next(l.run, W.Pin(EncodeReply(r, 0))), target := target, said := l.said + [r])
    ensures FirmwareGood(k.header, k.run) && Together(k)
  {
    var message := EncodeReply(r, 0);
    ReplyLength(r, 0);
    var n := FirmwareTurns(l.header, l.run, W.Pin(message));
    PinTogether(l, target, n, r);
    k := l.(run := n, target := target, said := l.said + [r]);
  }

  lemma PinTurns(l: Link, ioid: nat, level: int) returns (k: Link)
    requires |l.header| == HEADER_SIZE && FirmwareGood(l.header, l.run) && Together(l)
    requires Reports(l.target.table, ioid, level)
    ensures NextPin(l, ioid, level) == Some(k) && k.header == l.header && FirmwareGood(k.header, k.run) && Together(k)
    ensures Reported(l, ioid, level, k)
  {
    var r := Edge(l.target.table, ioid, level).value;
    if r.1 == [] {
      k := l.(target := l.target.(table := r.0));
    } else {
      assert r.1 == [r.1[0]];
      k := ReportTurns(l, l.target.(table := r.0), r.1[0]);
    }
  }

  lemma PinChangesGood(l: Link, ioid: nat, level: int)
    requires Good(l) && Reports(l.target.table, ioid, level)
    ensures Seen(l, R.PinEdge(ioid, level, Position(l)), NextPin(l, ioid, level))
  {
    var k := PinTurns(l, ioid, level);
    PinNext(l, ioid, level, k);
    RT.StepGood(View(l), R.PinEdge(ioid, level, Position(l)));
  }

  // -------------------------------------------------------------- all runs

  /** The step of the protocol that a step of the link is, if any. */
  function Matching(l: Link, step: Step): Option<R.Step>
    requires l.heard <= |l.said|
  {
    match step
    case HostActs(s) => Some(s)
    case Hears => Some(R.HostReceives)
    case Begins(address, level) => Some(R.ProbeReceives(address, level))
    case PinChanges(ioid, level) => Some(R.PinEdge(ioid, level, Position(l)))
    case _ => None
  }

  /** Every step of the link is one of the protocol, or none that the protocol notices. */
  ghost predicate Refines(l: Link, step: Step, n: Option<Link>)
    requires Good(l)
  {
    match Matching(l, step)
    case None => Unseen(l, n)
    case Some(s) => Seen(l, s, n)
  }

  lemma FirmwareStepRefines(l: Link, step: Step)
    requires Good(l) && Enabled(l, step) && Possible(l, step) && (step.ProbeActs? || step.Builds? || step.Submits?)
    ensures Unseen(l, Next(l, step))
  {
    match step
    case ProbeActs(s) => PlainGood(l, s);
    case Builds(subject) => BuildGood(l, subject);
    case Submits => SubmitGood(l);
  }

  lemma StepRefines(l: Link, step: Step)
    requires Good(l) && Enabled(l, step)
    ensures Possible(l, step) && Refines(l, step, Next(l, step))
  {
    EnabledIsPossible(l, step);
    match step
    case HostActs(s) => HostActsGood(l, s);
    case Hears => HearsGood(l);
    case Begins(address, level) => BeginsGood(l, address, level);
    case PinChanges(ioid, level) => PinChangesGood(l, ioid, level);
    case _ => FirmwareStepRefines(l, step);
  }

  lemma StartGood(header: bytes, pull: byte)
    requires |header| == HEADER_SIZE
    ensures Good(Start(header, pull)) && View(Start(header, pull)) == R.BEGIN
  {
    W.BootedGood(header);
    R.BeginGood();
    StartTogether(header, pull);
  }

  lemma StartTogether(header: bytes, pull: byte)
    requires |header| == HEADER_SIZE
    ensures Together(Start(header, pull)) && View(Start(header, pull)) == R.BEGIN
  {
  }

  /** The steps can be taken one after the other, and lead from l to t. */
  ghost predicate Leads(l: Link, steps: seq<Step>, t: Link)
    requires Good(l)
    decreases |steps|
  {
    if steps == [] then t == l
    else
      && Enabled(l, steps[0])
      && (StepRefines(l, steps[0]);
          Leads(Next(l, steps[0]).value, steps[1..], t))
  }

  ghost predicate Reachable(header: bytes, pull: byte, steps: seq<Step>, t: Link)
    requires |header| == HEADER_SIZE
  {
    StartGood(header, pull);
    Leads(Start(header, pull), steps, t)
  }

  /** The steps of the protocol come from steps of the link. */
  ghost predicate Stems(taken: seq<R.Step>, steps: seq<Step>) {
    && (R.Resumes in taken ==> HostActs(R.Resumes) in steps)
    && forall s | s in taken && s.PinEdge? :: PinChanges(s.ioid, s.level) in steps
  }

  lemma StemsMore(taken: seq<R.Step>, steps: seq<Step>, l: Link)
    requires steps != [] && Stems(taken, steps[1..]) && l.heard <= |l.said|
    requires steps[0].HostActs? ==> IsHostStep(steps[0].action)
    ensures Stems(match Matching(l, steps[0]) case None => taken case Some(s) => [s] + taken, steps)
  {
    assert forall x | x in steps[1..] :: x in steps;
    assert steps[0] in steps;
    var first := Matching(l, steps[0]);
    var more := match first case None => taken case Some(s) => [s] + taken;
    forall s | s in more && s.PinEdge? ensures PinChanges(s.ioid, s.level) in steps {
      if s in taken { assert PinChanges(s.ioid, s.level) in steps[1..]; }
    }
  }

  lemma {:induction false} LeadsRefine(l: Link, steps: seq<Step>, t: Link) returns (taken: seq<R.Step>)
    requires Good(l) && Leads(l, steps, t)
    ensures Good(t) && RT.Leads(View(l), taken, View(t)) && Stems(taken, steps)
    decreases |steps|
  {
    if steps == [] {
      return [];
    }
    StepRefines(l, steps[0]);
    taken := LeadsRefine(Next(l, steps[0]).value, steps[1..], t);
    StemsMore(taken, steps, l);
    if Matching(l, steps[0]).Some? {
      taken := [Matching(l, steps[0]).value] + taken;
    }
  }

  /** What happens on the link, whatever interrupts what and in whatever pieces bytes come in, is a run of the protocol
      over two channels that lose and reorder nothing. */
  lemma LinkRunsTheProtocol(header: bytes, pull: byte, steps: seq<Step>, t: Link) returns (taken: seq<R.Step>)
    requires |header| == HEADER_SIZE && Reachable(header, pull, steps, t)
    ensures Good(t) && RT.Leads(R.BEGIN, taken, View(t))
  {
    StartGood(header, pull);
    taken := LeadsRefine(Start(header, pull), steps, t);
  }

  /** So nothing fails: whatever can happen next, host and probe have an answer. */
  lemma NothingFails(header: bytes, pull: byte, steps: seq<Step>, t: Link, step: Step)
    requires |header| == HEADER_SIZE && Reachable(header, pull, steps, t)
    requires AllFit(t.asked) && t.begun <= |t.asked| && t.heard <= |t.said| && Enabled(t, step)
    ensures Possible(t, step) && Next(t, step).Some?
  {
    var taken := LinkRunsTheProtocol(header, pull, steps, t);
    StepRefines(t, step);
  }

  /** And host and probe agree between two calls. */
  lemma LinkAgrees(header: bytes, pull: byte, steps: seq<Step>, t: Link)
    requires |header| == HEADER_SIZE && Reachable(header, pull, steps, t) && t.host.call == Idle
    ensures Inverse(t.host) && t.host.objects.Keys == Live(t.target.probes)
    ensures t.host.state == Connected <==> t.target.connected
  {
    var taken := LinkRunsTheProtocol(header, pull, steps, t);
    RT.Agreement(taken, View(t));
  }

  /** A request of a pin object, through all layers: after the host's step, and as long as its call is not resumed, it
      is the only request on its way or taken; and when its reply has been heard, it had its effect on the object that
      the host means, and only edges at inputs changed anything else. */
  lemma RequestTakesEffect(header: bytes, pull: byte, before: seq<Step>, l: Link, o: nat, m: Request, n: Link,
                           steps: seq<Step>, t: Link) returns (taken: seq<R.Step>)
    requires |header| == HEADER_SIZE && Reachable(header, pull, before, l) && Good(l)
    requires Enabled(l, HostActs(R.Sends(o, m))) && Possible(l, HostActs(R.Sends(o, m)))
    requires Next(l, HostActs(R.Sends(o, m))) == Some(n) && Good(n)
    requires Leads(n, steps, t) && HostActs(R.Resumes) !in steps
    ensures Good(t) && RT.Leads(View(n), taken, View(t))
    ensures o in l.host.ids && l.host.ids[o] in l.target.table.pins
    ensures RQ.TakenIn(View(n), taken) + R.Requests(View(t).down) == [User(l.host.ids[o], m)]
    ensures t.host.replied ==>
              RQ.Settled(l.target.table, l.host.ids[o], m,
                         !m.Init? && NoEdges(steps, l.target.table.pins[l.host.ids[o]].ioid), t.target.table)
  {
    var begun := LinkRunsTheProtocol(header, pull, before, l);
    HostActsGood(l, R.Sends(o, m));
    taken := LeadsRefine(n, steps, t);
    RequestOfView(begun, View(l), o, m, View(n), taken, View(t), steps);
  }

  /** No edge at this number. */
  ghost predicate NoEdges(steps: seq<Step>, ioid: nat) {
    forall level: int :: PinChanges(ioid, level) !in steps
  }

  lemma StillWithoutEdges(taken: seq<R.Step>, steps: seq<Step>, ioid: nat)
    requires Stems(taken, steps)
    ensures NoEdges(steps, ioid) ==> RQ.Still(taken, ioid)
  {
  }

  lemma RequestOfView(begun: seq<R.Step>, s: R.System, o: nat, m: Request, n: R.System, taken: seq<R.Step>, t: R.System,
                      steps: seq<Step>)
    requires RT.Leads(R.BEGIN, begun, s) && R.Enabled(s, R.Sends(o, m)) && R.Next(s, R.Sends(o, m)) == Some(n)
    requires RT.Leads(n, taken, t) && Stems(taken, steps) && HostActs(R.Resumes) !in steps
    ensures o in s.host.ids && s.host.ids[o] in s.target.table.pins
    ensures RQ.TakenIn(n, taken) + R.Requests(t.down) == [User(s.host.ids[o], m)]
    ensures t.host.replied ==>
              RQ.Settled(s.target.table, s.host.ids[o], m,
                         !m.Init? && NoEdges(steps, s.target.table.pins[s.host.ids[o]].ioid), t.target.table)
  {
    RQ.RequestIsTheOneGiven(begun, s, o, m, n, taken, t);
    RT.ReachableGood(begun, s);
    RQ.CallBegins(s, o, m, n);
    var ioid := s.target.table.pins[s.host.ids[o]].ioid;
    StillWithoutEdges(taken, steps, ioid);
    if t.host.replied {
      RQ.CallTakesEffect(begun, s, o, m, n, taken, t, !m.Init? && NoEdges(steps, ioid));
    }
  }
}
