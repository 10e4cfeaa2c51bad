/** STP frames: a delimiter, a little-endian payload length, a type and a checksum byte, then the payload. */
module Frames {

  type byte = b: int | 0 <= b < 256

  type bytes = seq<byte>

  const DELIMITER_BYTE: byte := 0x7d
  const DELIMITER_LENGTH: nat := 4
  const HEADER_SIZE: nat := 8
  const CHECKSUM: byte := 0x47

  // Message types on the wire.
  const RESET_CONNECTION: byte := 1
  const ROC_MESSAGE: byte := 2

  function Delimiters(k: nat): (r: bytes)
    ensures |r| == k && forall i | 0 <= i < k :: r[i] == DELIMITER_BYTE
  {
    seq(k, i => DELIMITER_BYTE)
  }

  /** The header that both encoders write; the length field holds 16 bits. */
  function Header(kind: byte, length: nat, checksum: byte): (h: bytes)
    ensures |h| == HEADER_SIZE
  {
    Delimiters(4) + [length % 0x1_0000 % 256, length % 0x1_0000 / 256, kind, checksum]
  }

  function Encode(kind: byte, payload: bytes): bytes {
    Header(kind, |payload|, CHECKSUM) + payload
  }

  predicate Delimited(header: bytes)
    requires |header| >= DELIMITER_LENGTH
  {
    header[..DELIMITER_LENGTH] == Delimiters(DELIMITER_LENGTH)
  }

  function PayloadLength(header: bytes): nat
    requires |header| >= HEADER_SIZE
  {
    header[4] as int + 256 * header[5] as int
  }

  lemma HeaderFields(kind: byte, length: nat, checksum: byte)
    ensures var h := Header(kind, length, checksum);
            Delimited(h) && PayloadLength(h) == length % 0x1_0000 && h[6] == kind && h[7] == checksum
  {
    var h := Header(kind, length, checksum);
    assert h[..4] == Delimiters(4);
    var n := length % 0x1_0000;
    assert n == n % 256 + 256 * (n / 256);
  }

  /** No four delimiter bytes in a row. */
  ghost predicate NoDelimiter(s: bytes) {
    forall i: nat {:trigger DelimiterAt(s, i)} :: !DelimiterAt(s, i)
  }

  predicate DelimiterAt(s: bytes, i: nat) {
    i + 4 <= |s| && s[i] == s[i + 1] == s[i + 2] == s[i + 3] == DELIMITER_BYTE
  }

  ghost predicate EndsInDelimiter(s: bytes) {
    s != [] && s[|s| - 1] == DELIMITER_BYTE
  }

  /** One more byte of garbage, after k delimiter bytes: collecting goes on or starts anew. */
  lemma CollectOne(k: nat, garbage: bytes)
    requires k < 4 && garbage != [] && NoDelimiter(Delimiters(k) + garbage)
    ensures var next := if garbage[0] == DELIMITER_BYTE then k + 1 else 0;
            && next < 4 && NoDelimiter(Delimiters(next) + garbage[1..])
            && (EndsInDelimiter(Delimiters(next) + garbage[1..]) <==> EndsInDelimiter(Delimiters(k) + garbage))
            && (next > 0 ==> Delimiters(k) + [garbage[0]] == Delimiters(next))
  {
    var whole := Delimiters(k) + garbage;
    if garbage[0] == DELIMITER_BYTE {
      assert Delimiters(k + 1) + garbage[1..] == whole;
      assert k == 3 ==> !DelimiterAt(whole, 0);
    } else {
      var t := Delimiters(0) + garbage[1..];
      assert t == whole[k + 1..];
      forall i: nat ensures !DelimiterAt(t, i) {
        var at := k + 1 + i;
        assert !DelimiterAt(whole, at);
      }
    }
  }

  function Concat(parts: seq<bytes>): bytes {
    if parts == [] then [] else parts[0] + Concat(parts[1..])
  }
}
