/** ROC messages on the wire: why the protocol may be modelled over two channels of messages. */
module RocWires {
  import opened Frames
  import opened Pins
  import opened RocMessages
  import opened RocTargets
  import H = StpHosts
  import T = StpTargets

  // Types of roc.h and pin.h.
  const CONNECT: byte := 1
  const CONSTRUCT: byte := 3
  const OBJECT_ID: byte := 4
  const DESTRUCT: byte := 5
  const PING: byte := 6
  const PONG: byte := 7
  const STATUS_OK: byte := 8
  const INIT: byte := 20
  const CHANGE_IOID: byte := 21
  const CHANGE_VALUE: byte := 22
  const CHANGE_PULL_MODE: byte := 23
  const CHANGE_TYPE: byte := 24

  const PIN_CLASS: nat := 0
  const BLOCKING: byte := 1
  const NON_BLOCKING: byte := 0

  /** An 8-bit signed number. */
  function Int8(v: int): byte
    requires -128 <= v < 128
  {
    if v < 0 then v + 256 else v
  }

  function FromInt8(b: byte): int {
    if b >= 128 then b as int - 256 else b as int
  }

  function Flag(b: bool): byte {
    if b then 1 else 0
  }

  // ---------------------------------------------------------------- replies

  predicate ReplyFits(r: Reply) {
    match r
    case ObjectId(id) => id < 0x1_0000_0000
    case Changed(id, value) => id < 0x1_0000_0000 && -128 <= value < 128
    case _ => true
  }

  /** A StatusOk may name any object; the host does not look at it. */
  function EncodeReply(r: Reply, subject: nat): bytes
    requires ReplyFits(r)
  {
    match r
    case StatusOk => EncodeMessage(STATUS_OK, BLOCKING, subject, [])
    case ObjectId(id) => EncodeMessage(OBJECT_ID, BLOCKING, id, [])
    case Pong => EncodeMessage(PONG, NON_BLOCKING, 0, [])
    case Changed(id, value) => EncodeMessage(CHANGE_VALUE, NON_BLOCKING, id, [Int8(value)])
  }

  /** What the host reads out of header and payload: the reply, and whether it ends a blocking call. */
  datatype Heard = Nothing | Heard(reply: Reply, blocking: bool)

  function DecodeReply(message: bytes): Heard {
    match DecodeMessage(message)
    case Message(h, payload) =>
      var blocking := h.transactionId == BLOCKING;
      if h.kind == STATUS_OK then Heard(StatusOk, blocking)
      else if h.kind == OBJECT_ID then Heard(ObjectId(h.objectId), blocking)
      else if h.kind == PONG then Heard(Pong, blocking)
      else if h.kind == CHANGE_VALUE && payload != [] then Heard(Changed(h.objectId, FromInt8(payload[0])), blocking)
      else Nothing
    case _ => Nothing
  }

  lemma ReplyRoundTrip(r: Reply, subject: nat)
    requires ReplyFits(r) && subject < 0x1_0000_0000
    ensures DecodeReply(EncodeReply(r, subject)) == Heard(r, Blocking(r))
  {
    match r
    case StatusOk => MessageRoundTrip(STATUS_OK, BLOCKING, subject, []);
    case ObjectId(id) => MessageRoundTrip(OBJECT_ID, BLOCKING, id, []);
    case Pong => MessageRoundTrip(PONG, NON_BLOCKING, 0, []);
    case Changed(id, value) => MessageRoundTrip(CHANGE_VALUE, NON_BLOCKING, id, [Int8(value)]);
  }

  // --------------------------------------------------------------- commands

  predicate CommandFits(c: Command) {
    match c
    case Destruct(id) => id < 0x1_0000_0000
    case User(id, Init(ioid, _, value)) => id < 0x1_0000_0000 && ioid < 256 && -128 <= value < 128
    case User(id, ChangeIoid(ioid)) => id < 0x1_0000_0000 && ioid < 256
    case User(id, ChangeValue(value)) => id < 0x1_0000_0000 && -128 <= value < 128
    case User(id, _) => id < 0x1_0000_0000
    case _ => true
  }

  /** Type and payload of a user request; the pull mode is passed on to the pin driver. */
  function EncodeRequest(m: Request, pull: byte): (byte, bytes)
    requires CommandFits(User(0, m))
  {
    match m
    case Init(ioid, output, value) => (INIT, [ioid, pull, Flag(output), Int8(value)])
    case ChangeIoid(ioid) => (CHANGE_IOID, [ioid])
    case ChangeValue(value) => (CHANGE_VALUE, [Int8(value)])
    case ChangePullMode => (CHANGE_PULL_MODE, [pull])
    case ChangeType(output) => (CHANGE_TYPE, [Flag(output)])
  }

  function EncodeCommand(c: Command, pull: byte): bytes
    requires CommandFits(c)
  {
    match c
    case Connect => EncodeMessage(CONNECT, BLOCKING, 0, [])
    case Construct => EncodeMessage(CONSTRUCT, BLOCKING, PIN_CLASS, [])
    case Destruct(id) => EncodeMessage(DESTRUCT, BLOCKING, id, [])
    case Ping => EncodeMessage(PING, NON_BLOCKING, 0, [])
    case User(id, m) => var r := EncodeRequest(m, pull); EncodeMessage(r.0, BLOCKING, id, r.1)
  }

  datatype Understood = Unknown | Understood(command: Command)

  /** What the probe reads out of header and payload. */
  function DecodeCommand(message: bytes): Understood
    requires |message| >= ROC_HEADER_SIZE
  {
    var h, data := DecodeHeader(message), message[ROC_HEADER_SIZE..];
    if h.kind == CONNECT then Understood(Connect)
    else if h.kind == CONSTRUCT then if h.objectId == PIN_CLASS then Understood(Construct) else Unknown
    else if h.kind == DESTRUCT then Understood(Destruct(h.objectId))
    else if h.kind == PING then Understood(Ping)
    else if h.kind == INIT && |data| >= 4 then
      Understood(User(h.objectId, Init(data[0], data[2] == 1, FromInt8(data[3]))))
    else if data == [] then Unknown
    else if h.kind == CHANGE_IOID then Understood(User(h.objectId, ChangeIoid(data[0])))
    else if h.kind == CHANGE_VALUE then Understood(User(h.objectId, ChangeValue(FromInt8(data[0]))))
    else if h.kind == CHANGE_PULL_MODE then Understood(User(h.objectId, ChangePullMode))
    else if h.kind == CHANGE_TYPE then Understood(User(h.objectId, ChangeType(data[0] == 1)))
    else Unknown
  }

  /** The probe understands every command, and its STP receiver has room for it. */
  lemma CommandRoundTrip(c: Command, pull: byte)
    requires CommandFits(c)
    ensures ROC_HEADER_SIZE <= |EncodeCommand(c, pull)| <= 32
    ensures DecodeCommand(EncodeCommand(c, pull)) == Understood(c)
  {
    match c
    case Connect => Decoded(CONNECT, BLOCKING, 0, []);
    case Construct => Decoded(CONSTRUCT, BLOCKING, PIN_CLASS, []);
    case Destruct(id) => Decoded(DESTRUCT, BLOCKING, id, []);
    case Ping => Decoded(PING, NON_BLOCKING, 0, []);
    case User(id, m) => var r := EncodeRequest(m, pull); Decoded(r.0, BLOCKING, id, r.1);
  }

  lemma Decoded(kind: byte, transactionId: byte, objectId: nat, payload: bytes)
    requires |payload| <= 0xffff && objectId < 0x1_0000_0000
    ensures var b := EncodeMessage(kind, transactionId, objectId, payload);
            && |b| == ROC_HEADER_SIZE + |payload| && b[ROC_HEADER_SIZE..] == payload
            && DecodeHeader(b) == RocHeader(|payload|, kind, transactionId, objectId)
  {
    HeaderRoundTrip(RocHeader(|payload|, kind, transactionId, objectId), payload);
  }

  // --------------------------------------------------- the bytes themselves

  /** An object id as the four bytes of the structure. */
  function IdOf(b0: byte, b1: byte, b2: byte, b3: byte): nat {
    b0 as int + 0x100 * b1 as int + 0x1_0000 * b2 as int + 0x100_0000 * b3 as int
  }

  lemma IdBytes(b0: byte, b1: byte, b2: byte, b3: byte)
    ensures LittleEndian(IdOf(b0, b1, b2, b3), 4) == [b0, b1, b2, b3]
  {
    var n3: nat := b3 as int;
    var n2: nat := b2 as int + 0x100 * n3;
    var n1: nat := b1 as int + 0x100 * n2;
    var n0: nat := b0 as int + 0x100 * n1;
    assert n0 == IdOf(b0, b1, b2, b3);
    assert n0 % 256 == b0 && n0 / 256 == n1 && n1 % 256 == b1 && n1 / 256 == n2 && n2 % 256 == b2 && n2 / 256 == n3;
    assert LittleEndian(n3, 1) == [b3] + LittleEndian(n3 / 256, 0) == [b3];
    assert LittleEndian(n2, 2) == [b2] + LittleEndian(n3, 1);
    assert LittleEndian(n1, 3) == [b1] + LittleEndian(n2, 2);
  }

  /** The two headers of stp.h and roc.h, byte by byte, and then the payload. */
  ghost predicate OnTheWire(s: bytes, kind: byte, blocking: byte, b0: byte, b1: byte, b2: byte, b3: byte,
                            payload: bytes) {
    && |s| == 16 + |payload|
    && s[0] == s[1] == s[2] == s[3] == 0x7d && s[4] == 8 + |payload| && s[5] == 0 && s[6] == 2 && s[7] == 0x47
    && s[8] == |payload| && s[9] == 0 && s[10] == kind && s[11] == blocking
    && s[12] == b0 && s[13] == b1 && s[14] == b2 && s[15] == b3
    && s[16..] == payload
  }

  lemma ShortNumber(n: nat)
    requires n < 256
    ensures LittleEndian(n, 2) == [n, 0]
  {
    assert LittleEndian(0, 1) == [0] + LittleEndian(0, 0) == [0];
    assert LittleEndian(n, 2) == [n] + LittleEndian(0, 1);
  }

  /** A short message in its frame. */
  lemma FrameBytes(kind: byte, blocking: byte, b0: byte, b1: byte, b2: byte, b3: byte, payload: bytes)
    requires |payload| < 248
    ensures OnTheWire(Encode(ROC_MESSAGE, EncodeMessage(kind, blocking, IdOf(b0, b1, b2, b3), payload)),
                      kind, blocking, b0, b1, b2, b3, payload)
  {
    IdBytes(b0, b1, b2, b3);
    ShortNumber(|payload|);
    var h := EncodeHeader(RocHeader(|payload|, kind, blocking, IdOf(b0, b1, b2, b3)));
    assert h == [|payload|, 0, kind, blocking, b0, b1, b2, b3];
    TwoHeaders(Header(ROC_MESSAGE, 8 + |payload|, CHECKSUM), h, payload);
  }

  lemma TwoHeaders(f: bytes, h: bytes, payload: bytes)
    requires |f| == |h| == 8
    ensures f + (h + payload) == f + h + payload
  {
  }

  /** Type and payload of a request to a pin. */
  function PinPayload(m: Request, pull: byte): (byte, bytes)
    requires CommandFits(User(0, m))
  {
    match m
    case Init(ioid, output, value) => (20, [ioid, pull, if output then 1 else 0, value % 256])
    case ChangeIoid(ioid) => (21, [ioid])
    case ChangeValue(value) => (22, [value % 256])
    case ChangePullMode => (23, [pull])
    case ChangeType(output) => (24, [if output then 1 else 0])
  }

  lemma PayloadOf(m: Request, pull: byte)
    requires CommandFits(User(0, m))
    ensures EncodeRequest(m, pull) == PinPayload(m, pull) && |PinPayload(m, pull).1| <= 4
  {
  }

  /** The requests to a pin as the bytes that go over the wire. */
  lemma RequestBytes(b0: byte, b1: byte, b2: byte, b3: byte, m: Request, pull: byte)
    requires CommandFits(User(0, m))
    ensures CommandFits(User(IdOf(b0, b1, b2, b3), m))
    ensures OnTheWire(Encode(ROC_MESSAGE, EncodeCommand(User(IdOf(b0, b1, b2, b3), m), pull)),
                      PinPayload(m, pull).0, 1, b0, b1, b2, b3, PinPayload(m, pull).1)
  {
    PayloadOf(m, pull);
    FrameBytes(PinPayload(m, pull).0, 1, b0, b1, b2, b3, PinPayload(m, pull).1);
  }

  /** Type and blocking mark of the other commands. */
  function CommandHead(c: Command): (byte, byte)
    requires !c.User?
  {
    match c
    case Connect => (1, 1)
    case Construct => (3, 1)
    case Destruct(_) => (5, 1)
    case Ping => (6, 0)
  }

  lemma CommandBytes(c: Command, b0: byte, b1: byte, b2: byte, b3: byte, pull: byte)
    requires !c.User? && CommandFits(c) && IdOf(b0, b1, b2, b3) == if c.Destruct? then c.id else 0
    ensures OnTheWire(Encode(ROC_MESSAGE, EncodeCommand(c, pull)), CommandHead(c).0, CommandHead(c).1,
                      b0, b1, b2, b3, [])
  {
    FrameBytes(CommandHead(c).0, CommandHead(c).1, b0, b1, b2, b3, []);
  }

  /** Type, blocking mark and payload of the replies. */
  function ReplyHead(r: Reply): (byte, byte, bytes)
    requires ReplyFits(r)
  {
    match r
    case StatusOk => (8, 1, [])
    case ObjectId(_) => (4, 1, [])
    case Pong => (7, 0, [])
    case Changed(_, value) => (22, 0, [value % 256])
  }

  lemma ReplyBytes(r: Reply, subject: nat, b0: byte, b1: byte, b2: byte, b3: byte)
    requires ReplyFits(r)
    requires IdOf(b0, b1, b2, b3) ==
             match r case StatusOk => subject case Pong => 0 case ObjectId(id) => id case Changed(id, _) => id
    ensures OnTheWire(Encode(ROC_MESSAGE, EncodeReply(r, subject)), ReplyHead(r).0, ReplyHead(r).1,
                      b0, b1, b2, b3, ReplyHead(r).2)
  {
    ReplyEncoded(r, subject, IdOf(b0, b1, b2, b3));
    FrameBytes(ReplyHead(r).0, ReplyHead(r).1, b0, b1, b2, b3, ReplyHead(r).2);
  }

  lemma ReplyEncoded(r: Reply, subject: nat, id: nat)
    requires ReplyFits(r)
    requires id == match r case StatusOk => subject case Pong => 0 case ObjectId(i) => i case Changed(i, _) => i
    ensures EncodeReply(r, subject) == EncodeMessage(ReplyHead(r).0, ReplyHead(r).1, id, ReplyHead(r).2)
  {
  }

  // ------------------------------------------------------------ both layers

  function Upward(replies: seq<Reply>): seq<H.Message>
    requires forall r | r in replies :: ReplyFits(r)
  {
    if replies == [] then []
    else [H.Message(ROC_MESSAGE, EncodeReply(replies[0], 0))] + Upward(replies[1..])
  }

  function HeardAll(messages: seq<bytes>): seq<Heard> {
    if messages == [] then [] else [DecodeReply(messages[0])] + HeardAll(messages[1..])
  }

  function Marked(replies: seq<Reply>): seq<Heard> {
    if replies == [] then [] else [Heard(replies[0], Blocking(replies[0]))] + Marked(replies[1..])
  }

  lemma {:induction false} UpwardHeard(replies: seq<Reply>)
    requires forall r | r in replies :: ReplyFits(r)
    ensures HeardAll(H.Payloads(Upward(replies))) == Marked(replies)
    ensures forall i | 0 <= i < |Upward(replies)| :: |Upward(replies)[i].payload| <= 0xffff
  {
    if replies != [] {
      ReplyRoundTrip(replies[0], 0);
      UpwardHeard(replies[1..]);
    }
  }

  /** Whatever the probe sends, in whatever pieces it arrives, the host hears the same replies in the same order, with
      the blocking mark on exactly those that end a call. */
  lemma RepliesArrive(replies: seq<Reply>, chunks: seq<bytes>)
    requires (forall r | r in replies :: ReplyFits(r)) && Concat(chunks) == H.Wire(Upward(replies))
    ensures HeardAll(H.Feed(H.Initial([]), [], chunks).0.queue) == Marked(replies)
  {
    UpwardHeard(replies);
    H.HostRoundTrip(Upward(replies), chunks);
  }

  function Downward(commands: seq<Command>, pull: byte): seq<T.Item>
    requires forall c | c in commands :: CommandFits(c)
  {
    if commands == [] then []
    else [T.Roc(EncodeCommand(commands[0], pull))] + Downward(commands[1..], pull)
  }

  function UnderstoodAll(events: seq<T.Event>): seq<Understood> {
    if events == [] then []
    else
      (match events[0]
       case Posted(m) => [if |m| >= ROC_HEADER_SIZE then DecodeCommand(m) else Unknown]
       case ResetReply => [])
      + UnderstoodAll(events[1..])
  }

  function AllOf(commands: seq<Command>): seq<Understood> {
    if commands == [] then [] else [Understood(commands[0])] + AllOf(commands[1..])
  }

  lemma {:induction false} DownwardUnderstood(commands: seq<Command>, pull: byte)
    requires forall c | c in commands :: CommandFits(c)
    ensures UnderstoodAll(T.EventsOf(Downward(commands, pull))) == AllOf(commands)
    ensures forall i | 0 <= i < |Downward(commands, pull)| :: T.Sendable(Downward(commands, pull)[i])
  {
    if commands != [] {
      CommandRoundTrip(commands[0], pull);
      DownwardUnderstood(commands[1..], pull);
    }
  }

  /** Whatever the host sends after the probe has started, the probe posts and understands the same commands. */
  lemma CommandsArrive(header: bytes, commands: seq<Command>, pull: byte)
    requires |header| == HEADER_SIZE && forall c | c in commands :: CommandFits(c)
    ensures var t := T.Drain(T.Start(header), T.Wire(Downward(commands, pull)));
            t.1 == [] && UnderstoodAll(t.2) == AllOf(commands)
  {
    DownwardUnderstood(commands, pull);
    T.TargetRoundTrip(header, Downward(commands, pull));
  }
}
