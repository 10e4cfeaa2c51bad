/** The receive side of the firmware's serial interface as a function on states. The UART driver calls back
    exactly when the requested number of bytes has arrived at the requested place. */
module StpTargets {
  import opened Frames

  datatype RxState = RxDelimiter | RxHeader | RxPayload | Stopped

  /** What the receiver hands on. */
  datatype Event = Posted(message: bytes) | ResetReply

  /** `header` is the static header buffer, `offset` where the driver writes the next `needed` bytes of it. In the
      payload state the driver writes into a fresh message buffer instead. Stopped stands for an assertion that
      fails and for a read of no bytes: the firmware does not go on. */
  datatype Receiver = Receiver(state: RxState, delimitersReceived: nat, header: bytes, offset: nat, needed: nat)

  predicate Valid(r: Receiver) {
    && |r.header| == HEADER_SIZE
    && match r.state
       case RxDelimiter =>
         r.needed == 1 && r.offset == r.delimitersReceived < DELIMITER_LENGTH &&
         r.header[..r.offset] == Delimiters(r.offset)
       case RxHeader =>
         r.delimitersReceived == 0 && r.offset + r.needed == HEADER_SIZE && (r.offset == 0 || r.offset == 4) &&
         r.header[..r.offset] == Delimiters(r.offset)
       case RxPayload =>
         r.delimitersReceived == 0 && 0 < r.needed <= 32 && r.needed == PayloadLength(r.header) && Delimited(r.header)
       case Stopped => r.delimitersReceived == 0
  }

  /** startRx, and the state after a header or a payload that was rejected. */
  function Start(header: bytes): Receiver {
    Receiver(RxDelimiter, 0, header, 0, 1)
  }

  /** Between two frames. */
  function Boundary(header: bytes): Receiver {
    Receiver(RxHeader, 0, header, 0, HEADER_SIZE)
  }

  /** What the driver writes. */
  function Write(header: bytes, offset: nat, chunk: bytes): (r: bytes)
    requires offset + |chunk| <= |header|
    ensures |r| == |header| && r[offset..offset + |chunk|] == chunk && r[..offset] == header[..offset]
  {
    header[..offset] + chunk + header[offset + |chunk|..]
  }

  /** One call of onUartBytesReceived. */
  function Take(r: Receiver, chunk: bytes): (t: (Receiver, seq<Event>))
    requires Valid(r) && r.state != Stopped && |chunk| == r.needed
    ensures Valid(t.0)
  {
    match r.state
    case RxDelimiter =>
      var header := Write(r.header, r.offset, chunk);
      var received := if header[r.delimitersReceived] != DELIMITER_BYTE then 0 else r.delimitersReceived + 1;
      assert received > 0 ==> header[..received] == Delimiters(received);
      if received == DELIMITER_LENGTH
      then (Receiver(RxHeader, 0, header, DELIMITER_LENGTH, HEADER_SIZE - DELIMITER_LENGTH), [])
      else (Receiver(RxDelimiter, received, header, received, 1), [])
    case RxHeader =>
      var header := Write(r.header, r.offset, chunk);
      if !Delimited(header) then (Start(header), [])
      else if header[6] == ROC_MESSAGE then
        if 0 < PayloadLength(header) <= 32
        then (Receiver(RxPayload, 0, header, 0, PayloadLength(header)), [])
        else (Receiver(Stopped, 0, header, 0, 0), [])
      else if header[6] == RESET_CONNECTION then (Boundary(header), [ResetReply])
      else (Receiver(Stopped, 0, header, 0, 0), [])
    case RxPayload =>
      if r.header[7] != CHECKSUM then (Start(r.header), [])
      else (Boundary(r.header), [Posted(chunk)])
  }

  /** What one call can hand on, and when a message buffer is in use. */
  lemma TakeCases(r: Receiver, chunk: bytes)
    requires Valid(r) && r.state != Stopped && |chunk| == r.needed
    ensures var (s, events) := Take(r, chunk);
            && (s.state == RxPayload ==> r.state != RxPayload && events == [])
            && (r.state == RxPayload ==> events == [] || events == [Posted(chunk)])
            && (r.state != RxPayload ==> events == [] || events == [ResetReply])
  {
  }

  /** All calls for a stream of bytes: the receiver, the bytes that are not complete yet, and what was handed on. */
  function Drain(r: Receiver, port: bytes): (t: (Receiver, bytes, seq<Event>))
    requires Valid(r)
    ensures Valid(t.0)
    decreases |port|
  {
    if r.state == Stopped || |port| < r.needed then (r, port, [])
    else
      var step := Take(r, port[..r.needed]);
      var more := Drain(step.0, port[r.needed..]);
      (more.0, more.1, step.1 + more.2)
  }

  lemma Associate(a: seq<Event>, b: seq<Event>, c: seq<Event>)
    ensures (a + b) + c == a + (b + c)
  {
  }

  // --------------------------------------------------- chunk independence

  /** Bytes that arrive later change nothing about what was handed on before. */
  lemma {:induction false} DrainAppend(r: Receiver, a: bytes, b: bytes)
    requires Valid(r)
    ensures var s := Drain(r, a);
            var t := Drain(s.0, s.1 + b);
            Drain(r, a + b) == (t.0, t.1, s.2 + t.2)
    decreases |a|
  {
    if r.state == Stopped || |a| < r.needed {
      var t := Drain(r, a + b);
      assert [] + t.2 == t.2;
    } else {
      var step := Take(r, a[..r.needed]);
      assert (a + b)[..r.needed] == a[..r.needed];
      assert (a + b)[r.needed..] == a[r.needed..] + b;
      DrainAppend(step.0, a[r.needed..], b);
      var s := Drain(step.0, a[r.needed..]);
      var t := Drain(s.0, s.1 + b);
      assert Drain(r, a) == (s.0, s.1, step.1 + s.2);
      Associate(step.1, s.2, t.2);
    }
  }

  // -------------------------------------------------------------- frames

  /** What a host may send: a reset request or a message of 1 to 32 bytes. */
  datatype Item = Reset | Roc(message: bytes)

  predicate Sendable(i: Item) {
    i.Roc? ==> 0 < |i.message| <= 32
  }

  function EncodeItem(i: Item): bytes {
    match i
    case Reset => Encode(RESET_CONNECTION, [])
    case Roc(m) => Encode(ROC_MESSAGE, m)
  }

  function EventOf(i: Item): Event {
    match i
    case Reset => ResetReply
    case Roc(m) => Posted(m)
  }

  function Wire(items: seq<Item>): bytes {
    if items == [] then [] else EncodeItem(items[0]) + Wire(items[1..])
  }

  function EventsOf(items: seq<Item>): seq<Event> {
    if items == [] then [] else [EventOf(items[0])] + EventsOf(items[1..])
  }

  lemma WholeHeader(header: bytes, kind: byte, length: nat, checksum: byte, rest: bytes)
    requires |header| == HEADER_SIZE && length <= 0xffff
    ensures var h := Header(kind, length, checksum);
            && (h + rest)[..8] == h && (h + rest)[8..] == rest && Write(header, 0, h) == h
            && Delimited(h) && h[6] == kind && h[7] == checksum && PayloadLength(h) == length
  {
    HeaderFields(kind, length, checksum);
  }

  /** A reset request between two frames is answered once. */
  lemma ResetDecodes(header: bytes, rest: bytes)
    requires |header| == HEADER_SIZE
    ensures var h := Header(RESET_CONNECTION, 0, CHECKSUM);
            var t := Drain(Boundary(h), rest);
            Drain(Boundary(header), Encode(RESET_CONNECTION, []) + rest) == (t.0, t.1, [ResetReply] + t.2)
  {
    var h := Header(RESET_CONNECTION, 0, CHECKSUM);
    assert Encode(RESET_CONNECTION, []) + rest == h + rest;
    WholeHeader(header, RESET_CONNECTION, 0, CHECKSUM, rest);
    assert Take(Boundary(header), h) == (Boundary(h), [ResetReply]);
  }

  /** A message between two frames is posted if its checksum byte is the expected one, and lost otherwise. */
  lemma RocDecodes(header: bytes, message: bytes, checksum: byte, rest: bytes)
    requires |header| == HEADER_SIZE && 0 < |message| <= 32
    ensures var h := Header(ROC_MESSAGE, |message|, checksum);
            var intact := checksum == CHECKSUM;
            var t := Drain(if intact then Boundary(h) else Start(h), rest);
            Drain(Boundary(header), h + message + rest) ==
              (t.0, t.1, (if intact then [Posted(message)] else []) + t.2)
  {
    var h := Header(ROC_MESSAGE, |message|, checksum);
    WholeHeader(header, ROC_MESSAGE, |message|, checksum, message + rest);
    assert h + message + rest == h + (message + rest);
    var p := Receiver(RxPayload, 0, h, 0, |message|);
    assert Take(Boundary(header), h) == (p, []);
    assert (message + rest)[..|message|] == message && (message + rest)[|message|..] == rest;
    var intact := checksum == CHECKSUM;
    var t := Drain(if intact then Boundary(h) else Start(h), rest);
    assert Drain(p, message + rest) == (t.0, t.1, (if intact then [Posted(message)] else []) + t.2);
    assert [] + Drain(p, message + rest).2 == Drain(p, message + rest).2;
  }

  /** What becomes of a message of any length: the receiver, which takes the length modulo 65536 from the header,
      posts exactly that message if and only if it has 1 to 32 bytes. */
  lemma TargetLengthLimit(header: bytes, message: bytes)
    requires |header| == HEADER_SIZE
    ensures Drain(Boundary(header), Encode(ROC_MESSAGE, message)).2 == [Posted(message)] <==> 0 < |message| <= 32
  {
    if 0 < |message| <= 32 {
      RocDecodes(header, message, CHECKSUM, []);
      assert Encode(ROC_MESSAGE, message) == Header(ROC_MESSAGE, |message|, CHECKSUM) + message + [];
      Unit([Posted(message)]);
    } else if 0 < |message| % 0x1_0000 <= 32 {
      var head, more := HeadPosted(header, message);
      assert ([Posted(head)] + more)[0] == Posted(head);
    } else {
      StopsAt(header, message);
    }
  }

  /** Of a message that is too long, the first bytes may be posted. */
  lemma HeadPosted(header: bytes, message: bytes) returns (head: bytes, more: seq<Event>)
    requires |header| == HEADER_SIZE && 0 < |message| % 0x1_0000 <= 32
    ensures |head| == |message| % 0x1_0000
    ensures Drain(Boundary(header), Encode(ROC_MESSAGE, message)).2 == [Posted(head)] + more
  {
    var n := |message| % 0x1_0000;
    var tail := message[n..];
    head := message[..n];
    EncodeWraps(message, head, tail);
    RocDecodes(header, head, CHECKSUM, tail);
    more := Drain(Boundary(Header(ROC_MESSAGE, n, CHECKSUM)), tail).2;
  }

  lemma EncodeWraps(message: bytes, head: bytes, tail: bytes)
    requires message == head + tail && |head| == |message| % 0x1_0000
    ensures Encode(ROC_MESSAGE, message) == Header(ROC_MESSAGE, |head|, CHECKSUM) + head + tail
  {
    assert Header(ROC_MESSAGE, |message|, CHECKSUM) == Header(ROC_MESSAGE, |head|, CHECKSUM);
  }

  /** A message whose length field is 0 or more than 32 stops the receiver. */
  lemma StopsAt(header: bytes, message: bytes)
    requires |header| == HEADER_SIZE && !(0 < |message| % 0x1_0000 <= 32)
    ensures var t := Drain(Boundary(header), Encode(ROC_MESSAGE, message)); t.0.state == Stopped && t.2 == []
  {
    var h := Header(ROC_MESSAGE, |message|, CHECKSUM);
    WholeHeader(header, ROC_MESSAGE, |message| % 0x1_0000, CHECKSUM, message);
    assert h == Header(ROC_MESSAGE, |message| % 0x1_0000, CHECKSUM);
    assert Take(Boundary(header), h) == (Receiver(Stopped, 0, h, 0, 0), []);
  }

  /** Collecting delimiter bytes, k of four received. */
  function Collecting(k: nat, header: bytes): Receiver {
    Receiver(RxDelimiter, k, header, k, 1)
  }

  lemma {:induction false} DelimitersCollect(k: nat, header: bytes, rest: bytes) returns (h: bytes)
    requires k < 4 && Valid(Collecting(k, header))
    ensures |h| == HEADER_SIZE && h[..4] == Delimiters(4)
    ensures Drain(Collecting(k, header), Delimiters(4 - k) + rest) == Drain(Receiver(RxHeader, 0, h, 4, 4), rest)
    decreases 4 - k
  {
    var port := Delimiters(4 - k) + rest;
    assert port[..1] == [DELIMITER_BYTE] && port[1..] == Delimiters(4 - k - 1) + rest;
    var next := Write(header, k, [DELIMITER_BYTE]);
    assert next[..k + 1] == Delimiters(k + 1);
    var r := if k < 3 then Collecting(k + 1, next) else Receiver(RxHeader, 0, next, 4, 4);
    assert Take(Collecting(k, header), [DELIMITER_BYTE]) == (r, []);
    Unit(Drain(r, port[1..]).2);
    if k < 3 {
      h := DelimitersCollect(k + 1, next, rest);
    } else {
      assert port[1..] == rest;
      h := next;
    }
  }

  lemma Unit(events: seq<Event>)
    ensures [] + events == events && events + [] == events
  {
  }

  /** A stream that begins with a whole header is read alike before the first frame and between two frames. */
  lemma StartsLikeBoundary(header: bytes, other: bytes, port: bytes)
    requires |header| == |other| == HEADER_SIZE && |port| >= HEADER_SIZE && port[..4] == Delimiters(4)
    ensures Drain(Start(header), port) == Drain(Boundary(other), port)
  {
    var rest := port[4..];
    assert port == Delimiters(4) + rest;
    var h := DelimitersCollect(0, header, rest);
    HeaderInTwo(h, other, port);
  }

  /** Reading the header in two halves or at once. */
  lemma HeaderInTwo(h: bytes, other: bytes, port: bytes)
    requires |h| == |other| == HEADER_SIZE && h[..4] == Delimiters(4)
    requires |port| >= HEADER_SIZE && port[..4] == Delimiters(4)
    ensures Drain(Receiver(RxHeader, 0, h, 4, 4), port[4..]) == Drain(Boundary(other), port)
  {
    var first, rest := port[..8], port[8..];
    TakeInTwo(h, other, first);
    assert port[4..][..4] == first[4..] && port[4..][4..] == rest;
    SameDrain(Receiver(RxHeader, 0, h, 4, 4), port[4..], Boundary(other), port);
  }

  lemma TakeInTwo(h: bytes, other: bytes, first: bytes)
    requires |h| == |other| == |first| == HEADER_SIZE && h[..4] == first[..4] == Delimiters(4)
    ensures Take(Receiver(RxHeader, 0, h, 4, 4), first[4..]) == Take(Boundary(other), first)
  {
    assert Write(h, 4, first[4..]) == first;
    assert Write(other, 0, first) == first;
  }

  lemma SameDrain(r: Receiver, a: bytes, s: Receiver, b: bytes)
    requires Valid(r) && Valid(s) && r.state != Stopped && s.state != Stopped && |a| >= r.needed && |b| >= s.needed
    requires Take(r, a[..r.needed]) == Take(s, b[..s.needed]) && a[r.needed..] == b[s.needed..]
    ensures Drain(r, a) == Drain(s, b)
  {
  }

  lemma {:induction false} FramesDecode(header: bytes, items: seq<Item>, rest: bytes) returns (last: bytes)
    requires |header| == HEADER_SIZE && forall i | 0 <= i < |items| :: Sendable(items[i])
    ensures |last| == HEADER_SIZE
    ensures var t := Drain(Boundary(last), rest);
            Drain(Boundary(header), Wire(items) + rest) == (t.0, t.1, EventsOf(items) + t.2)
    decreases |items|
  {
    if items == [] {
      assert Wire(items) + rest == rest;
      Unit(Drain(Boundary(header), rest).2);
      return header;
    }
    var more := Wire(items[1..]) + rest;
    assert Wire(items) + rest == EncodeItem(items[0]) + more;
    var next := ItemDecodes(header, items[0], more);
    last := FramesDecode(next, items[1..], rest);
    Associate([EventOf(items[0])], EventsOf(items[1..]), Drain(Boundary(last), rest).2);
  }

  lemma ItemDecodes(header: bytes, item: Item, more: bytes) returns (next: bytes)
    requires |header| == HEADER_SIZE && Sendable(item)
    ensures |next| == HEADER_SIZE
    ensures var t := Drain(Boundary(next), more);
            Drain(Boundary(header), EncodeItem(item) + more) == (t.0, t.1, [EventOf(item)] + t.2)
  {
    match item {
      case Reset =>
        ResetDecodes(header, more);
        next := Header(RESET_CONNECTION, 0, CHECKSUM);
      case Roc(m) =>
        RocDecodes(header, m, CHECKSUM, more);
        assert EncodeItem(item) + more == Header(ROC_MESSAGE, |m|, CHECKSUM) + m + more;
        next := Header(ROC_MESSAGE, |m|, CHECKSUM);
    }
  }

  lemma WireBegins(items: seq<Item>, rest: bytes)
    requires items != []
    ensures |Wire(items) + rest| >= HEADER_SIZE && (Wire(items) + rest)[..4] == Delimiters(4)
  {
    HeaderFields(RESET_CONNECTION, 0, CHECKSUM);
  }

  /** Round trip: exactly the messages are posted, in order, and exactly one reply per reset request goes out,
      in between the messages where the request was. */
  lemma TargetRoundTrip(header: bytes, items: seq<Item>)
    requires |header| == HEADER_SIZE && forall i | 0 <= i < |items| :: Sendable(items[i])
    ensures var t := Drain(Start(header), Wire(items)); t.1 == [] && t.2 == EventsOf(items) && t.0.state != Stopped
  {
    if items != [] {
      WireBegins(items, []);
      assert Wire(items) + [] == Wire(items);
      StartsLikeBoundary(header, header, Wire(items));
      var last := FramesDecode(header, items, []);
    }
  }

  // ------------------------------------------------------ resynchronisation

  lemma {:induction false} GarbageSkipped(k: nat, header: bytes, garbage: bytes, rest: bytes) returns (m: nat, h: bytes)
    requires k < 4 && Valid(Collecting(k, header)) && NoDelimiter(Delimiters(k) + garbage)
    ensures m < 4 && (m > 0 <==> EndsInDelimiter(Delimiters(k) + garbage)) && Valid(Collecting(m, h))
    ensures Drain(Collecting(k, header), garbage + rest) == Drain(Collecting(m, h), rest)
    decreases |garbage|
  {
    if garbage == [] {
      assert garbage + rest == rest && Delimiters(k) + garbage == Delimiters(k);
      return k, header;
    }
    var tail := garbage[1..];
    assert (garbage + rest)[..1] == [garbage[0]] && (garbage + rest)[1..] == tail + rest;
    var next := if garbage[0] == DELIMITER_BYTE then k + 1 else 0;
    CollectOne(k, garbage);
    var written := Write(header, k, [garbage[0]]);
    assert written[..next] == Delimiters(next);
    assert Take(Collecting(k, header), [garbage[0]]) == (Collecting(next, written), []);
    Unit(Drain(Collecting(next, written), tail + rest).2);
    m, h := GarbageSkipped(next, written, tail, rest);
  }

  /** Garbage without a complete delimiter that does not end in a delimiter byte costs no frame. */
  lemma TargetResynchronises(header: bytes, garbage: bytes, items: seq<Item>)
    requires |header| == HEADER_SIZE && forall i | 0 <= i < |items| :: Sendable(items[i])
    requires NoDelimiter(garbage) && !EndsInDelimiter(garbage)
    ensures var t := Drain(Start(header), garbage + Wire(items));
            t.1 == [] && t.2 == EventsOf(items) && t.0.state != Stopped
  {
    assert Delimiters(0) + garbage == garbage;
    var m, h := GarbageSkipped(0, header, garbage, Wire(items));
    TargetRoundTrip(h, items);
  }

  /** Eight bytes in place of a header cost the target no frame: unlike the host, it collects the next delimiter anew. */
  lemma TargetRecovers(header: bytes, h: bytes, garbage: bytes, items: seq<Item>)
    requires |header| == |h| == HEADER_SIZE && !Delimited(h)
    requires NoDelimiter(garbage) && !EndsInDelimiter(garbage)
    requires forall i | 0 <= i < |items| :: Sendable(items[i])
    ensures var t := Drain(Boundary(header), h + (garbage + Wire(items)));
            t.1 == [] && t.2 == EventsOf(items) && t.0.state != Stopped
  {
    var rest := garbage + Wire(items);
    assert (h + rest)[..8] == h && (h + rest)[8..] == rest;
    assert Write(header, 0, h) == h;
    TargetResynchronises(h, garbage, items);
    Unit(EventsOf(items));
  }

  /** A header of an unknown type ends in the stopped receiver, whatever follows. */
  lemma UnknownTypeStops(header: bytes, kind: byte, length: nat, checksum: byte, rest: bytes)
    requires |header| == HEADER_SIZE && kind != ROC_MESSAGE && kind != RESET_CONNECTION
    ensures var t := Drain(Boundary(header), Header(kind, length, checksum) + rest);
            t.0.state == Stopped && t.1 == rest && t.2 == []
  {
    var h := Header(kind, length, checksum);
    HeaderFields(kind, length, checksum);
    assert (h + rest)[..8] == h && (h + rest)[8..] == rest && Write(header, 0, h) == h;
  }

  /** A message frame whose checksum byte alone is wrong is lost, and no other frame is. */
  lemma DamagedFrameLost(header: bytes, before: seq<Item>, message: bytes, checksum: byte, after: seq<Item>)
    requires |header| == HEADER_SIZE && 0 < |message| <= 32 && checksum != CHECKSUM
    requires forall i | 0 <= i < |before| :: Sendable(before[i])
    requires forall i | 0 <= i < |after| :: Sendable(after[i])
    ensures var damaged := Header(ROC_MESSAGE, |message|, checksum) + message;
            var t := Drain(Start(header), Wire(before) + (damaged + Wire(after)));
            t.1 == [] && t.2 == EventsOf(before) + EventsOf(after)
  {
    var h := Header(ROC_MESSAGE, |message|, checksum);
    var rest := h + message + Wire(after);
    HeaderFields(ROC_MESSAGE, |message|, checksum);
    if before == [] {
      assert Wire(before) + rest == rest;
    } else {
      WireBegins(before, rest);
    }
    assert (Wire(before) + rest)[..4] == Delimiters(4);
    StartsLikeBoundary(header, header, Wire(before) + rest);
    var last := FramesDecode(header, before, rest);
    RocDecodes(last, message, checksum, Wire(after));
    TargetRoundTrip(h, after);
    Unit(EventsOf(after));
  }
}
