/** The memory of a message: a byte array with headroom, so that headers can go in front of a payload. */
module MessageBuffers {
  import opened Frames
  import opened RocMessages

  class MessageBuffer {
    const memory: array<byte>
    const size: nat
    var frontPos: nat
    var tailPos: nat

    ghost predicate Valid()
      reads this
    {
      memory.Length == size && frontPos <= tailPos
    }

    /** Everything that was allocated lies in the memory. */
    ghost predicate Inside()
      reads this
    {
      Valid() && tailPos <= size
    }

    /** The bytes between front and tail. */
    ghost function Contents(): bytes
      requires Inside()
      reads this, memory
    {
      memory[frontPos..tailPos]
    }

    constructor (maxSize: nat, start: nat)
      requires start <= maxSize
      ensures Inside() && fresh(memory) && size == maxSize && frontPos == tailPos == start && Contents() == []
    {
      memory, size := new byte[maxSize](i => 0), maxSize;
      frontPos, tailPos := start, start;
    }

    function Size(): nat
      requires Valid()
      reads this
    {
      tailPos - frontPos
    }

    /** Room for some bytes behind the contents; the caller fills them in. The condition that the code asserts
        does not count the headroom: the new bytes are inside the memory exactly if there is room behind the tail. */
    method AllocateAtBack(count: nat) returns (address: nat)
      requires Inside() && size - Size() >= count
      modifies this`tailPos
      ensures Valid() && address == old(tailPos) && tailPos == old(tailPos) + count
      ensures Inside() <==> count <= size - old(tailPos)
      ensures old(frontPos) == 0 ==> Inside()
      ensures Inside() ==> Contents()[..address - frontPos] == old(Contents())
    {
      address := tailPos;
      tailPos := tailPos + count;
    }

    /** Where that matters: a new message whose memory is all headroom, and as many bytes as it is long. */
    static method HeadroomIsOverlooked() returns (m: MessageBuffer, address: nat)
      ensures fresh(m) && m.Valid() && m.size == 8 && m.tailPos == address + 8 && address == m.size && !m.Inside()
    {
      m := new MessageBuffer(8, 8);
      assert m.size - m.Size() >= 8;
      address := m.AllocateAtBack(8);
    }

    /** Room for some bytes in front of the contents. */
    method AllocateAtFront(count: nat) returns (address: nat)
      requires Inside() && frontPos >= count
      modifies this`frontPos
      ensures Inside() && address == frontPos == old(frontPos) - count && Size() == old(Size()) + count
      ensures Contents()[count..] == old(Contents())
    {
      frontPos := frontPos - count;
      address := frontPos;
    }

    /** memcpy to an address inside the contents. */
    method Copy(address: nat, data: bytes)
      requires Inside() && frontPos <= address && address + |data| <= tailPos
      modifies memory
      ensures Contents() == old(Contents())[..address - frontPos] + data + old(Contents())[address - frontPos + |data|..]
    {
      for i := 0 to |data|
        invariant forall k | 0 <= k < i :: memory[address + k] == data[k]
        invariant forall k | 0 <= k < size && !(address <= k < address + i) :: memory[k] == old(memory[k])
      {
        memory[address + i] := data[i];
      }
    }

    /** Copies a header out and moves past it. The tail plays no part: it stays where it is in a buffer that the
        driver filled, and is then behind the front. */
    method TakeAtFront(count: nat) returns (data: bytes)
      requires memory.Length == size && frontPos + count <= size
      modifies this`frontPos
      ensures frontPos == old(frontPos) + count && |data| == count
      ensures data + memory[frontPos..] == old(memory[frontPos..])
    {
      data := memory[frontPos..frontPos + count];
      frontPos := frontPos + count;
    }

    /** A header goes in front. */
    method Prefix(header: bytes)
      requires Inside() && frontPos >= |header|
      modifies this`frontPos, memory
      ensures Inside() && Contents() == header + old(Contents()) && frontPos == old(frontPos) - |header|
    {
      var address := AllocateAtFront(|header|);
      Copy(address, header);
    }
  }

  const HEADERS: nat := HEADER_SIZE + ROC_HEADER_SIZE

  /** sendToHost, up to write: a message with the ROC header, and room for exactly the STP header. */
  method Compose(kind: byte, transactionId: byte, objectId: nat, data: bytes) returns (message: MessageBuffer)
    ensures fresh(message) && fresh(message.memory) && message.Inside()
    ensures message.frontPos == HEADER_SIZE && message.tailPos == message.size
    ensures message.Contents() == EncodeMessage(kind, transactionId, objectId, data)
  {
    message := new MessageBuffer(|data| + HEADERS, HEADERS);
    var destination := message.AllocateAtBack(|data|);
    message.Copy(destination, data);
    assert message.Contents() == data;
    message.Prefix(EncodeHeader(RocHeader(|data|, kind, transactionId, objectId)));
  }

  /** write, up to the gated section. */
  method AddStpHeader(message: MessageBuffer, kind: byte)
    requires message.Inside() && message.frontPos >= HEADER_SIZE
    modifies message`frontPos, message.memory
    ensures message.Inside() && message.Contents() == Encode(kind, old(message.Contents()))
    ensures message.frontPos == old(message.frontPos) - HEADER_SIZE
  {
    var payloadLength := message.Size();
    message.Prefix(Header(kind, payloadLength, CHECKSUM));
  }

  /** What sendToHost puts on the wire: STP header, ROC header and payload, and they fill the buffer exactly. */
  method SendToHost(kind: byte, transactionId: byte, objectId: nat, data: bytes) returns (message: MessageBuffer)
    ensures fresh(message) && fresh(message.memory) && message.Inside()
    ensures message.frontPos == 0 && message.tailPos == message.size
    ensures message.Contents() == Encode(ROC_MESSAGE, EncodeMessage(kind, transactionId, objectId, data))
  {
    message := Compose(kind, transactionId, objectId, data);
    AddStpHeader(message, ROC_MESSAGE);
  }

  /** The reply to a reset request. */
  method ResetReply() returns (message: MessageBuffer)
    ensures fresh(message) && fresh(message.memory) && message.Inside()
    ensures message.frontPos == 0 && message.tailPos == message.size
    ensures message.Contents() == Encode(RESET_CONNECTION, [])
  {
    message := new MessageBuffer(HEADER_SIZE, HEADER_SIZE);
    AddStpHeader(message, RESET_CONNECTION);
  }

  /** processMessage: the header of a message that the host encoded, and where its payload begins. */
  method Open(message: MessageBuffer, ghost kind: byte, ghost transactionId: byte, ghost objectId: nat, ghost data: bytes)
    returns (header: RocHeader)
    requires |data| <= 0xffff && objectId < 0x1_0000_0000
    requires message.memory.Length == message.size && message.frontPos == 0
    requires message.memory[..] == EncodeMessage(kind, transactionId, objectId, data)
    modifies message`frontPos
    ensures header == RocHeader(|data|, kind, transactionId, objectId)
    ensures message.frontPos <= message.size && message.memory[message.frontPos..] == data
  {
    var front := message.TakeAtFront(ROC_HEADER_SIZE);
    header := DecodeHeader(front);
    HeaderRoundTrip(RocHeader(|data|, kind, transactionId, objectId), []);
    assert front == EncodeHeader(RocHeader(|data|, kind, transactionId, objectId)) + [];
  }
}
