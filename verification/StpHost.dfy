/** The receive side of StpSocket as a function on states. */
module StpHosts {
  import opened Frames

  datatype RxState = RxDelimiter | RxHeader | RxPayload

  datatype Decoder = Decoder(state: RxState, buffer: bytes, needed: nat, queue: seq<bytes>)

  /** What the loop of onUartReadyRead keeps true. */
  predicate Valid(d: Decoder) {
    match d.state
    case RxDelimiter => d.needed == 1
    case RxHeader => d.needed > 0 && |d.buffer| + d.needed == HEADER_SIZE
    case RxPayload => |d.buffer| == HEADER_SIZE && Delimited(d.buffer) && d.needed == PayloadLength(d.buffer)
  }

  /** The state of the constructor. */
  function Initial(queue: seq<bytes>): Decoder {
    Decoder(RxDelimiter, [], 1, queue)
  }

  /** Between two frames. */
  function Boundary(queue: seq<bytes>): Decoder {
    Decoder(RxHeader, [], HEADER_SIZE, queue)
  }

  /** One iteration of the loop, with the bytes that it reads. */
  function Take(d: Decoder, chunk: bytes): (r: Decoder)
    requires Valid(d) && |chunk| == d.needed
    ensures Valid(r)
  {
    var buffer := d.buffer + chunk;
    match d.state
    case RxDelimiter =>
      var kept := if buffer[|buffer| - 1] != DELIMITER_BYTE then [] else buffer;
      if |kept| == DELIMITER_LENGTH
      then Decoder(RxHeader, kept, HEADER_SIZE - DELIMITER_LENGTH, d.queue)
      else Decoder(RxDelimiter, kept, 1, d.queue)
    case RxHeader =>
      if !Delimited(buffer) then Decoder(RxDelimiter, buffer, 1, d.queue)
      else Decoder(RxPayload, buffer, PayloadLength(buffer), d.queue)
    case RxPayload =>
      Decoder(RxHeader, [], HEADER_SIZE, d.queue + [buffer[HEADER_SIZE..]])
  }

  /** The loop: what becomes of the decoder and of the bytes in the port. An empty payload is an iteration
      that reads no byte, but it leaves the payload state. */
  function Drain(d: Decoder, port: bytes): (r: (Decoder, bytes))
    requires Valid(d)
    ensures Valid(r.0) && |r.1| < r.0.needed
    decreases |port|, if d.state == RxPayload then 1 else 0
  {
    if |port| < d.needed then (d, port) else Drain(Take(d, port[..d.needed]), port[d.needed..])
  }

  // --------------------------------------------------- chunk independence

  /** Bytes that arrive later change nothing about what was read before. */
  lemma {:induction false} DrainAppend(d: Decoder, a: bytes, b: bytes)
    requires Valid(d)
    ensures var r := Drain(d, a); Drain(d, a + b) == Drain(r.0, r.1 + b)
    decreases |a|, if d.state == RxPayload then 1 else 0
  {
    if |a| >= d.needed {
      assert (a + b)[..d.needed] == a[..d.needed];
      assert (a + b)[d.needed..] == a[d.needed..] + b;
      DrainAppend(Take(d, a[..d.needed]), a[d.needed..], b);
    }
  }

  /** readyRead after every chunk. */
  function Feed(d: Decoder, port: bytes, chunks: seq<bytes>): (r: (Decoder, bytes))
    requires Valid(d)
    ensures Valid(r.0)
    decreases |chunks|
  {
    if chunks == [] then (d, port)
    else
      var r := Drain(d, port + chunks[0]);
      Feed(r.0, r.1, chunks[1..])
  }

  /** The final state, the messages and the unread bytes depend on the byte stream only, not on how it arrived. */
  lemma {:induction false} ChunksDoNotMatter(d: Decoder, port: bytes, chunks: seq<bytes>)
    requires Valid(d) && |port| < d.needed
    ensures Feed(d, port, chunks) == Drain(d, port + Concat(chunks))
    decreases |chunks|
  {
    if chunks == [] {
      assert port + [] == port;
    } else {
      var r := Drain(d, port + chunks[0]);
      DrainAppend(d, port + chunks[0], Concat(chunks[1..]));
      assert (port + chunks[0]) + Concat(chunks[1..]) == port + Concat(chunks);
      ChunksDoNotMatter(r.0, r.1, chunks[1..]);
    }
  }

  // -------------------------------------------------------------- frames

  lemma HeaderThenPayload(queue: seq<bytes>, kind: byte, length: nat, payload: bytes, rest: bytes)
    requires |payload| == length % 0x1_0000
    ensures Drain(Boundary(queue), Header(kind, length, CHECKSUM) + payload + rest) ==
            Drain(Boundary(queue + [payload]), rest)
  {
    var h := Header(kind, length, CHECKSUM);
    var port := h + payload + rest;
    HeaderFields(kind, length, CHECKSUM);
    assert port[..8] == h && port[8..] == payload + rest;
    var d := Take(Boundary(queue), h);
    assert [] + h == h;
    assert d == Decoder(RxPayload, h, |payload|, queue);
    assert (payload + rest)[..|payload|] == payload && (payload + rest)[|payload|..] == rest;
    assert (h + payload)[8..] == payload;
  }

  /** A frame between two frames. */
  lemma FrameDecodes(queue: seq<bytes>, kind: byte, payload: bytes, rest: bytes)
    requires |payload| <= 0xffff
    ensures Drain(Boundary(queue), Encode(kind, payload) + rest) == Drain(Boundary(queue + [payload]), rest)
  {
    HeaderThenPayload(queue, kind, |payload|, payload, rest);
  }

  /** Collecting k of the four delimiter bytes. */
  function Collecting(k: nat, queue: seq<bytes>): Decoder {
    Decoder(RxDelimiter, Delimiters(k), 1, queue)
  }

  lemma {:induction false} DelimitersCollect(k: nat, queue: seq<bytes>, rest: bytes)
    requires k < 4
    ensures Drain(Collecting(k, queue), Delimiters(4 - k) + rest) ==
            Drain(Decoder(RxHeader, Delimiters(4), 4, queue), rest)
    decreases 4 - k
  {
    var port := Delimiters(4 - k) + rest;
    assert port[..1] == [DELIMITER_BYTE] && port[1..] == Delimiters(4 - k - 1) + rest;
    assert Delimiters(k) + [DELIMITER_BYTE] == Delimiters(k + 1);
    if k < 3 {
      DelimitersCollect(k + 1, queue, rest);
    } else {
      assert Delimiters(0) + rest == rest;
    }
  }

  /** After four delimiter bytes the frame goes on as if the whole header had been read at once. */
  lemma DelimitersThenHeader(queue: seq<bytes>, rest: bytes)
    requires |rest| >= 4
    ensures Drain(Decoder(RxHeader, Delimiters(4), 4, queue), rest) == Drain(Boundary(queue), Delimiters(4) + rest)
  {
    var port, early, whole := Delimiters(4) + rest, Decoder(RxHeader, Delimiters(4), 4, queue), Boundary(queue);
    SplitAt(Delimiters(4), rest, 4);
    assert Take(early, rest[..4]) == Take(whole, port[..8]) by {
      assert [] + port[..8] == Delimiters(4) + rest[..4];
    }
    assert Drain(early, rest) == Drain(Take(early, rest[..4]), rest[4..]);
    assert Drain(whole, port) == Drain(Take(whole, port[..8]), port[8..]);
  }

  lemma SplitAt(a: bytes, b: bytes, n: nat)
    requires n <= |b|
    ensures (a + b)[..|a| + n] == a + b[..n] && (a + b)[|a| + n..] == b[n..]
  {
  }

  /** The first frame after the constructor. */
  lemma FirstFrameDecodes(queue: seq<bytes>, kind: byte, payload: bytes, rest: bytes)
    requires |payload| <= 0xffff
    ensures Drain(Initial(queue), Encode(kind, payload) + rest) == Drain(Boundary(queue + [payload]), rest)
  {
    var tail := Header(kind, |payload|, CHECKSUM)[4..] + payload + rest;
    assert Encode(kind, payload) + rest == Delimiters(4) + tail;
    assert Initial(queue) == Collecting(0, queue);
    DelimitersCollect(0, queue, tail);
    DelimitersThenHeader(queue, tail);
    FrameDecodes(queue, kind, payload, rest);
  }

  /** A message and its STP type. */
  datatype Message = Message(kind: byte, payload: bytes)

  function Wire(messages: seq<Message>): bytes {
    if messages == [] then [] else Encode(messages[0].kind, messages[0].payload) + Wire(messages[1..])
  }

  function Payloads(messages: seq<Message>): seq<bytes> {
    if messages == [] then [] else [messages[0].payload] + Payloads(messages[1..])
  }

  lemma {:induction false} FramesDecode(queue: seq<bytes>, messages: seq<Message>)
    requires forall i | 0 <= i < |messages| :: |messages[i].payload| <= 0xffff
    ensures Drain(Boundary(queue), Wire(messages)) == (Boundary(queue + Payloads(messages)), [])
    decreases |messages|
  {
    if messages == [] {
      assert queue + [] == queue;
    } else {
      var m := messages[0];
      FrameDecodes(queue, m.kind, m.payload, Wire(messages[1..]));
      FramesDecode(queue + [m.payload], messages[1..]);
      assert queue + [m.payload] + Payloads(messages[1..]) == queue + Payloads(messages);
    }
  }

  lemma FramesFromInitial(queue: seq<bytes>, messages: seq<Message>)
    requires messages != [] && forall i | 0 <= i < |messages| :: |messages[i].payload| <= 0xffff
    ensures Drain(Initial(queue), Wire(messages)) == (Boundary(queue + Payloads(messages)), [])
  {
    var m, more := messages[0], messages[1..];
    assert forall i | 0 <= i < |more| :: more[i] == messages[i + 1];
    assert Wire(messages) == Encode(m.kind, m.payload) + Wire(more);
    FirstFrameDecodes(queue, m.kind, m.payload, Wire(more));
    FramesDecode(queue + [m.payload], more);
    PayloadsFront(queue, m.payload, Payloads(more));
  }

  lemma PayloadsFront(queue: seq<bytes>, first: bytes, more: seq<bytes>)
    ensures queue + [first] + more == queue + ([first] + more)
  {
  }

  /** Round trip: from the constructor state, in any chunks, exactly the payloads arrive, in order. */
  lemma HostRoundTrip(messages: seq<Message>, chunks: seq<bytes>)
    requires forall i | 0 <= i < |messages| :: |messages[i].payload| <= 0xffff
    requires Concat(chunks) == Wire(messages)
    ensures Feed(Initial([]), [], chunks) == (if messages == [] then Initial([]) else Boundary(Payloads(messages)), [])
  {
    ChunksDoNotMatter(Initial([]), [], chunks);
    assert [] + Concat(chunks) == Concat(chunks);
    if messages != [] {
      FramesFromInitial([], messages);
      assert [] + Payloads(messages) == Payloads(messages);
    }
  }

  // ------------------------------------------------------ the length field

  /** Messages are only ever appended. */
  lemma {:induction false} QueueGrows(d: Decoder, port: bytes)
    requires Valid(d)
    ensures d.queue <= Drain(d, port).0.queue
    decreases |port|, if d.state == RxPayload then 1 else 0
  {
    if |port| >= d.needed { QueueGrows(Take(d, port[..d.needed]), port[d.needed..]); }
  }

  /** A message survives the 16-bit length field exactly if it has at most 65535 bytes; of a longer one the
      receiver takes the length modulo 65536 as the whole message. */
  lemma LengthLimit(queue: seq<bytes>, kind: byte, payload: bytes)
    ensures Drain(Boundary(queue), Encode(kind, payload)).0.queue == queue + [payload] <==> |payload| <= 0xffff
  {
    var n := |payload| % 0x1_0000;
    var head, tail := payload[..n], payload[n..];
    assert Encode(kind, payload) == Header(kind, |payload|, CHECKSUM) + head + tail;
    HeaderThenPayload(queue, kind, |payload|, head, tail);
    if |payload| <= 0xffff {
      assert head == payload && tail == [];
      assert Drain(Boundary(queue + [payload]), []) == (Boundary(queue + [payload]), []);
    } else {
      QueueGrows(Boundary(queue + [head]), tail);
      var q := Drain(Boundary(queue), Encode(kind, payload)).0.queue;
      assert (queue + [head])[|queue|] == q[|queue|] == head;
      assert (queue + [payload])[|queue|] == payload;
    }
  }

  // ------------------------------------------------------ resynchronisation

  /** Bytes without a complete delimiter leave the decoder collecting: it holds something exactly if they end in
      a delimiter byte. */
  lemma {:induction false} GarbageSkipped(k: nat, queue: seq<bytes>, garbage: bytes, rest: bytes) returns (m: nat)
    requires k < 4 && NoDelimiter(Delimiters(k) + garbage)
    ensures m < 4 && (m > 0 <==> EndsInDelimiter(Delimiters(k) + garbage))
    ensures Drain(Collecting(k, queue), garbage + rest) == Drain(Collecting(m, queue), rest)
    decreases |garbage|
  {
    if garbage == [] {
      assert garbage + rest == rest && Delimiters(k) + garbage == Delimiters(k);
      return k;
    }
    var tail := garbage[1..];
    assert (garbage + rest)[..1] == [garbage[0]] && (garbage + rest)[1..] == tail + rest;
    var next := if garbage[0] == DELIMITER_BYTE then k + 1 else 0;
    CollectOne(k, garbage);
    assert Take(Collecting(k, queue), [garbage[0]]) == Collecting(next, queue);
    m := GarbageSkipped(next, queue, tail, rest);
  }

  /** Garbage without a complete delimiter costs no frame if it does not end in a delimiter byte. */
  lemma HostResynchronises(queue: seq<bytes>, garbage: bytes, rest: bytes)
    requires NoDelimiter(garbage) && !EndsInDelimiter(garbage)
    ensures Drain(Initial(queue), garbage + rest) == Drain(Initial(queue), rest)
  {
    assert Delimiters(0) + garbage == garbage;
    var m := GarbageSkipped(0, queue, garbage, rest);
  }

  /** And only then: a trailing delimiter byte makes the header start too early. */
  lemma ResynchronisesExactly(queue: seq<bytes>, garbage: bytes, kind: byte, payload: bytes)
    requires NoDelimiter(garbage) && |payload| <= 0xffff
    ensures Drain(Initial(queue), garbage + Encode(kind, payload)) == (Boundary(queue + [payload]), [])
            <==> !EndsInDelimiter(garbage)
  {
    assert Delimiters(0) + garbage == garbage;
    var frame := Encode(kind, payload);
    var m := GarbageSkipped(0, queue, garbage, frame);
    if m == 0 {
      FirstFrameDecodes(queue, kind, payload, []);
      assert frame + [] == frame;
      assert Drain(Boundary(queue + [payload]), []) == (Boundary(queue + [payload]), []);
    } else {
      var rest := Delimiters(m) + Header(kind, |payload|, CHECKSUM)[4..] + payload;
      assert frame == Delimiters(4 - m) + rest;
      DelimitersCollect(m, queue, rest);
      DelimitersThenHeader(queue, rest);
      EarlyHeader(queue, rest, payload, m);
    }
  }

  lemma EarlyHeader(queue: seq<bytes>, rest: bytes, payload: bytes, m: nat)
    requires 0 < m < 4 && |rest| == m + 4 + |payload|
    ensures Drain(Boundary(queue), Delimiters(4) + rest) != (Boundary(queue + [payload]), [])
  {
    var port := Delimiters(4) + rest;
    var h := port[..8];
    assert [] + h == h && h[..4] == Delimiters(4);
    var n, tail := PayloadLength(h), port[8..];
    assert |tail| == m + |payload|;
    assert Take(Boundary(queue), h) == Decoder(RxPayload, h, n, queue);
    if n <= |tail| {
      var first := tail[..n];
      assert (h + first)[8..] == first;
      QueueGrows(Boundary(queue + [first]), tail[n..]);
      if n == |payload| {
        assert Drain(Boundary(queue + [first]), tail[n..]) == (Boundary(queue + [first]), tail[n..]);
      } else {
        assert (queue + [first])[|queue|] == first && (queue + [payload])[|queue|] == payload;
      }
    }
  }

  // --------------------------------------------- after a header mismatch

  /** Eight bytes in place of a header: they stay in the buffer. */
  lemma HeaderMismatch(queue: seq<bytes>, h: bytes, rest: bytes)
    requires |h| == HEADER_SIZE && !Delimited(h)
    ensures Drain(Boundary(queue), h + rest) == Drain(Decoder(RxDelimiter, h, 1, queue), rest)
  {
    assert (h + rest)[..8] == h && (h + rest)[8..] == rest && [] + h == h;
  }

  lemma LostStep(buffer: bytes, b: byte, queue: seq<bytes>, rest: bytes)
    requires |buffer| >= HEADER_SIZE
    ensures Drain(Decoder(RxDelimiter, buffer, 1, queue), [b] + rest) ==
            Drain(if b == DELIMITER_BYTE then Decoder(RxDelimiter, buffer + [b], 1, queue) else Initial(queue), rest)
  {
    assert ([b] + rest)[..1] == [b] && ([b] + rest)[1..] == rest;
  }

  /** With that in the buffer, no number of delimiter bytes makes a delimiter. */
  lemma {:induction false} LostWaits(buffer: bytes, k: nat, queue: seq<bytes>, rest: bytes)
    requires |buffer| >= HEADER_SIZE
    ensures Drain(Decoder(RxDelimiter, buffer, 1, queue), Delimiters(k) + rest) ==
            Drain(Decoder(RxDelimiter, buffer + Delimiters(k), 1, queue), rest)
    decreases k
  {
    if k == 0 {
      assert Delimiters(0) + rest == rest && buffer + Delimiters(0) == buffer;
    } else {
      assert Delimiters(k) + rest == [DELIMITER_BYTE] + (Delimiters(k - 1) + rest);
      LostStep(buffer, DELIMITER_BYTE, queue, Delimiters(k - 1) + rest);
      LostWaits(buffer + [DELIMITER_BYTE], k - 1, queue, rest);
      assert buffer + [DELIMITER_BYTE] + Delimiters(k - 1) == buffer + Delimiters(k);
    }
  }

  lemma NoDelimiterInTail(s: bytes)
    requires s != [] && NoDelimiter(s)
    ensures NoDelimiter(s[1..])
  {
    forall i: nat ensures !DelimiterAt(s[1..], i) {
      var at := i + 1;
      assert !DelimiterAt(s, at);
    }
  }

  /** The first byte that is not a delimiter byte clears it. */
  lemma {:induction false} LostRecovers(buffer: bytes, noise: bytes, queue: seq<bytes>, rest: bytes)
    requires |buffer| >= HEADER_SIZE && noise != [] && NoDelimiter(noise) && !EndsInDelimiter(noise)
    ensures Drain(Decoder(RxDelimiter, buffer, 1, queue), noise + rest) == Drain(Initial(queue), rest)
    decreases |noise|
  {
    var b, tail := noise[0], noise[1..];
    assert noise + rest == [b] + (tail + rest);
    LostStep(buffer, b, queue, tail + rest);
    NoDelimiterInTail(noise);
    assert tail != [] ==> tail[|tail| - 1] == noise[|noise| - 1];
    if b == DELIMITER_BYTE {
      LostRecovers(buffer + [b], tail, queue, rest);
    } else {
      HostResynchronises(queue, tail, rest);
    }
  }

  /** Out of step between two frames: after eight bytes that are no header, any number of delimiter bytes and noise
      without a delimiter, which does not end in a delimiter byte, every frame is delivered. */
  lemma HostRecovers(queue: seq<bytes>, h: bytes, k: nat, noise: bytes, messages: seq<Message>)
    requires |h| == HEADER_SIZE && !Delimited(h)
    requires noise != [] && NoDelimiter(noise) && !EndsInDelimiter(noise)
    requires forall i | 0 <= i < |messages| :: |messages[i].payload| <= 0xffff
    ensures Drain(Boundary(queue), h + Delimiters(k) + noise + Wire(messages)) ==
            (if messages == [] then Initial(queue) else Boundary(queue + Payloads(messages)), [])
  {
    var rest := Wire(messages);
    assert h + Delimiters(k) + noise + rest == h + (Delimiters(k) + (noise + rest));
    HeaderMismatch(queue, h, Delimiters(k) + (noise + rest));
    LostWaits(h, k, queue, noise + rest);
    LostRecovers(h + Delimiters(k), noise, queue, rest);
    if messages != [] {
      FramesFromInitial(queue, messages);
    }
  }

  /** A frame that comes directly after those eight bytes is lost, because the buffer is not cleared before, and all
      frames after it are delivered. */
  lemma FrameAfterMismatchIsLost(queue: seq<bytes>, h: bytes, kind: byte, payload: bytes, after: seq<Message>)
    requires |h| == HEADER_SIZE && !Delimited(h)
    requires var tail := Encode(kind, payload)[DELIMITER_LENGTH..]; NoDelimiter(tail) && !EndsInDelimiter(tail)
    requires forall i | 0 <= i < |after| :: |after[i].payload| <= 0xffff
    ensures Drain(Boundary(queue), h + Encode(kind, payload) + Wire(after)).0.queue == queue + Payloads(after)
  {
    var tail := Encode(kind, payload)[DELIMITER_LENGTH..];
    assert Encode(kind, payload) == Delimiters(4) + tail;
    assert h + Encode(kind, payload) + Wire(after) == h + Delimiters(4) + tail + Wire(after);
    HostRecovers(queue, h, 4, tail, after);
    if after == [] { assert queue + [] == queue; }
  }

  /** So a stray byte between two frames costs the host the next one, where before the first frame it costs none. */
  lemma StrayByteCostsAFrame(queue: seq<bytes>, b: byte, kind: byte, payload: bytes, after: seq<Message>)
    requires b != DELIMITER_BYTE && |payload| > 0
    requires var tail := Encode(kind, payload)[HEADER_SIZE - 1..];
             NoDelimiter(tail) && !EndsInDelimiter(tail)
    requires forall i | 0 <= i < |after| :: |after[i].payload| <= 0xffff
    ensures Drain(Boundary(queue), [b] + Encode(kind, payload) + Wire(after)).0.queue == queue + Payloads(after)
  {
    var frame := Encode(kind, payload);
    var h, tail := [b] + frame[..HEADER_SIZE - 1], frame[HEADER_SIZE - 1..];
    assert h[..4][0] == b && Delimiters(4)[0] == DELIMITER_BYTE;
    assert [b] + frame + Wire(after) == h + Delimiters(0) + tail + Wire(after);
    HostRecovers(queue, h, 0, tail, after);
    if after == [] { assert queue + [] == queue; }
  }
}
