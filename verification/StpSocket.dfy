/** The StpSocket class, proved against the decoder of StpHosts. */
module StpSockets {
  import opened Frames
  import opened StpHosts

  class StpSocket {
    /** The bytes that the serial port has received and not handed out, and those it was given to send. */
    var port: bytes
    var written: bytes
    var rxState: RxState
    var rxBuffer: bytes
    var rxBytesNeeded: nat
    var rxMessageQueue: seq<bytes>
    var connected: bool
    /** How often readyRead was emitted. */
    var readyReads: nat

    ghost function D(): Decoder
      reads this
    {
      Decoder(rxState, rxBuffer, rxBytesNeeded, rxMessageQueue)
    }

    constructor ()
      ensures D() == Initial([]) && Valid(D()) && !connected && port == [] && written == [] && readyReads == 0
    {
      port, written, readyReads := [], [], 0;
      rxState, rxBuffer, rxBytesNeeded, rxMessageQueue := RxDelimiter, [], 1, [];
      connected := false;
    }

    /** m_port.read(m_rxBytesNeeded). */
    method Read() returns (chunk: bytes)
      requires rxBytesNeeded <= |port|
      modifies this`port
      ensures chunk == old(port)[..rxBytesNeeded] && port == old(port)[rxBytesNeeded..]
    {
      chunk := port[..rxBytesNeeded];
      port := port[rxBytesNeeded..];
    }

    /** Reads frames as far as bytes are available. */
    method OnUartReadyRead()
      requires Valid(D())
      modifies this`port, this`rxState, this`rxBuffer, this`rxBytesNeeded, this`rxMessageQueue, this`readyReads
      ensures Valid(D()) && (D(), port) == Drain(old(D()), old(port))
      ensures |rxMessageQueue| >= |old(rxMessageQueue)|
      ensures readyReads == old(readyReads) + if connected then |rxMessageQueue| - |old(rxMessageQueue)| else 0
    {
      while |port| >= rxBytesNeeded
        invariant Valid(D()) && Drain(D(), port) == Drain(old(D()), old(port))
        invariant |rxMessageQueue| >= |old(rxMessageQueue)|
        invariant readyReads == old(readyReads) + if connected then |rxMessageQueue| - |old(rxMessageQueue)| else 0
        decreases |port|, if rxState == RxPayload then 1 else 0
      {
        ReadOnce();
      }
    }

    /** The body of the loop. */
    method ReadOnce()
      requires Valid(D()) && |port| >= rxBytesNeeded
      modifies this`port, this`rxState, this`rxBuffer, this`rxBytesNeeded, this`rxMessageQueue, this`readyReads
      ensures D() == Take(old(D()), old(port)[..old(rxBytesNeeded)]) && port == old(port)[old(rxBytesNeeded)..]
      ensures |rxMessageQueue| == |old(rxMessageQueue)| + if old(rxState) == RxPayload then 1 else 0
      ensures readyReads == old(readyReads) + if connected && old(rxState) == RxPayload then 1 else 0
    {
      var nextState := RxDelimiter;
      var chunk := Read();
      match rxState {
        case RxDelimiter =>
          rxBuffer := rxBuffer + chunk;
          if rxBuffer[|rxBuffer| - 1] != DELIMITER_BYTE {
            rxBuffer := [];
          }
          if |rxBuffer| == DELIMITER_LENGTH {
            nextState := RxHeader;
            rxBytesNeeded := HEADER_SIZE - DELIMITER_LENGTH;
          } else {
            nextState := RxDelimiter;
            rxBytesNeeded := 1;
          }
        case RxHeader =>
          rxBuffer := rxBuffer + chunk;
          if !Delimited(rxBuffer) {
            nextState := RxDelimiter;
            rxBytesNeeded := 1;
          } else {
            nextState := RxPayload;
            rxBytesNeeded := PayloadLength(rxBuffer);
          }
        case RxPayload =>
          rxBuffer := rxBuffer + chunk;
          rxMessageQueue := rxMessageQueue + [rxBuffer[HEADER_SIZE..]];
          rxBuffer := [];
          nextState := RxHeader;
          rxBytesNeeded := HEADER_SIZE;
          if connected {
            readyReads := readyReads + 1;
          }
      }
      rxState := nextState;
    }

    /** The header goes out first, then the message. */
    method SendMessage(message: bytes, kind: byte)
      modifies this`written
      ensures written == old(written) + Encode(kind, message)
    {
      var header := Header(kind, |message|, CHECKSUM);
      written := written + header;
      written := written + message;
    }

    method ReadNextMessage() returns (message: bytes)
      requires rxMessageQueue != []
      modifies this`rxMessageQueue
      ensures [message] + rxMessageQueue == old(rxMessageQueue)
    {
      message := rxMessageQueue[0];
      rxMessageQueue := rxMessageQueue[1..];
    }
  }
}
