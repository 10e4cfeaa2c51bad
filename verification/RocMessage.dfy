/** ROC messages: an 8-byte header, then the payload. */
module RocMessages {
  import opened Frames
  import H = StpHosts
  import T = StpTargets

  const ROC_HEADER_SIZE: nat := 8

  /** The fields of the header; `payloadLength` is the length of the payload in the message that it belongs to. */
  datatype RocHeader = RocHeader(payloadLength: nat, kind: byte, transactionId: byte, objectId: nat)

  predicate Fits(h: RocHeader) {
    h.payloadLength < 0x1_0000 && h.objectId < 0x1_0000_0000
  }

  /** An unsigned number of `count` bytes, low byte first; higher bits are cut off. */
  function LittleEndian(n: nat, count: nat): (r: bytes)
    ensures |r| == count
  {
    if count == 0 then [] else [n % 256] + LittleEndian(n / 256, count - 1)
  }

  function Number(b: bytes): nat {
    if b == [] then 0 else b[0] as int + 256 * Number(b[1..])
  }

  function Power(count: nat): nat {
    if count == 0 then 1 else 256 * Power(count - 1)
  }

  lemma {:induction false} NumberOfBytes(n: nat, count: nat)
    requires n < Power(count)
    ensures Number(LittleEndian(n, count)) == n
  {
    if count > 0 {
      NumberOfBytes(n / 256, count - 1);
      assert LittleEndian(n, count)[1..] == LittleEndian(n / 256, count - 1);
    }
  }

  lemma {:induction false} BytesOfNumber(b: bytes)
    ensures Number(b) < Power(|b|) && LittleEndian(Number(b), |b|) == b
  {
    if b != [] {
      BytesOfNumber(b[1..]);
    }
  }

  /** The packed structure in memory. */
  function EncodeHeader(h: RocHeader): (r: bytes)
    ensures |r| == ROC_HEADER_SIZE
  {
    LittleEndian(h.payloadLength, 2) + [h.kind, h.transactionId] + LittleEndian(h.objectId, 4)
  }

  function DecodeHeader(b: bytes): RocHeader
    requires |b| >= ROC_HEADER_SIZE
  {
    RocHeader(Number(b[..2]), b[2], b[3], Number(b[4..8]))
  }

  /** Reading a header back gives the same header, and writing one that was read gives the same bytes. */
  lemma HeaderRoundTrip(h: RocHeader, payload: bytes)
    requires Fits(h)
    ensures DecodeHeader(EncodeHeader(h) + payload) == h
  {
    var b := EncodeHeader(h) + payload;
    assert b[..2] == LittleEndian(h.payloadLength, 2) && b[4..8] == LittleEndian(h.objectId, 4);
    assert Power(2) == 0x1_0000 && Power(4) == 0x1_0000_0000 by { Powers(); }
    NumberOfBytes(h.payloadLength, 2);
    NumberOfBytes(h.objectId, 4);
  }

  lemma Powers()
    ensures Power(2) == 0x1_0000 && Power(4) == 0x1_0000_0000
  {
    assert Power(1) == 256 && Power(2) == 256 * Power(1) && Power(3) == 256 * Power(2) && Power(4) == 256 * Power(3);
  }

  lemma BytesRoundTrip(b: bytes)
    requires |b| == ROC_HEADER_SIZE
    ensures Fits(DecodeHeader(b)) && EncodeHeader(DecodeHeader(b)) == b
  {
    Powers();
    BytesOfNumber(b[..2]);
    BytesOfNumber(b[4..8]);
    assert b == b[..2] + [b[2], b[3]] + b[4..8];
  }

  // ------------------------------------------------------------- messages

  /** What both sides hand to STP; the length field is cut to 16 bits. */
  function EncodeMessage(kind: byte, transactionId: byte, objectId: nat, payload: bytes): bytes {
    EncodeHeader(RocHeader(|payload|, kind, transactionId, objectId)) + payload
  }

  datatype Received = Ignored | Malformed | Message(header: RocHeader, payload: bytes)

  /** What the host makes of an STP payload: an empty one is skipped, one whose header does not tell its length, or
      that has no room for a header, runs into an assertion. */
  function DecodeMessage(message: bytes): Received {
    if message == [] then Ignored
    else if |message| < ROC_HEADER_SIZE then Malformed
    else
      var h := DecodeHeader(message);
      if h.payloadLength != |message| - ROC_HEADER_SIZE then Malformed
      else Message(h, message[ROC_HEADER_SIZE..])
  }

  lemma MessageRoundTrip(kind: byte, transactionId: byte, objectId: nat, payload: bytes)
    requires |payload| <= 0xffff && objectId < 0x1_0000_0000
    ensures DecodeMessage(EncodeMessage(kind, transactionId, objectId, payload))
            == Message(RocHeader(|payload|, kind, transactionId, objectId), payload)
  {
    var h := RocHeader(|payload|, kind, transactionId, objectId);
    HeaderRoundTrip(h, payload);
    assert (EncodeHeader(h) + payload)[8..] == payload;
  }

  /** From the probe to the host: a message of sendToHost survives STP exactly if its payload has at most 65527 bytes,
      because the ROC header goes in front. */
  lemma ReplyLengthLimit(queue: seq<bytes>, kind: byte, transactionId: byte, objectId: nat, payload: bytes)
    ensures var message := EncodeMessage(kind, transactionId, objectId, payload);
            H.Drain(H.Boundary(queue), Encode(ROC_MESSAGE, message)).0.queue == queue + [message] <==> |payload| <= 65527
  {
    H.LengthLimit(queue, ROC_MESSAGE, EncodeMessage(kind, transactionId, objectId, payload));
  }

  /** From the host to the probe: the host asserts that a payload has at most 65535 bytes; the probe gets the message
      exactly if it has at most 24. */
  lemma CommandLengthLimit(header: bytes, kind: byte, transactionId: byte, objectId: nat, payload: bytes)
    requires |header| == HEADER_SIZE
    ensures var message := EncodeMessage(kind, transactionId, objectId, payload);
            T.Drain(T.Boundary(header), Encode(ROC_MESSAGE, message)).2 == [T.Posted(message)] <==> |payload| <= 24
  {
    T.TargetLengthLimit(header, EncodeMessage(kind, transactionId, objectId, payload));
  }

  /** The shortest payload that passes the assertion of the host and stops the probe. */
  lemma PayloadStopsProbe(header: bytes, kind: byte, transactionId: byte, objectId: nat) returns (payload: bytes)
    requires |header| == HEADER_SIZE
    ensures |payload| == 25 <= 65535
    ensures var t := T.Drain(T.Boundary(header), Encode(ROC_MESSAGE, EncodeMessage(kind, transactionId, objectId, payload)));
            t.0.state == T.Stopped && t.2 == []
  {
    payload := seq(25, i => 0);
    T.StopsAt(header, EncodeMessage(kind, transactionId, objectId, payload));
  }
}
