/** Bytes on the wire, the ISO-8859-1 character mapping and the errors the
    protocol engine can raise. */
module Wire {

  type byte = b: int | 0 <= b < 0x100

  /** The line terminator of every text line on the wire. */
  const LF: byte := 0x0A

  /** Positive and negative acknowledgement bytes. */
  const ACK: byte := 0x00
  const NAK: byte := 0x01

  /** The byte ISO-8859-1 substitutes for a character it cannot encode ('?'). */
  const REPLACEMENT: byte := 0x3F

  datatype Option<+T> = None | Some(value: T)

  /** Every exception the modelled code can raise, by cause. */
  datatype Error =
    | EndOfStream                     // Util.ERROR_END_OF_STREAM
    | NoQueueName                     // empty queue name / parameter line
    | UnknownSubcommand(code: byte)   // second-level code outside 1..3
    | InvalidParameters(line: string) // parameter line without exactly two tokens
    | NumberFormat(text: string)      // Long.parseLong rejected the length
    | ShortRead                       // the stub read fewer bytes than declared
    | NegativeArraySize(size: int)    // new byte[size] with size < 0
    | IllegalCapacity(capacity: int)  // new ArrayList<>(capacity) with capacity < 0

  datatype Result<+T> = Ok(value: T) | Err(error: Error)

  /** A character ISO-8859-1 can represent. */
  predicate IsLatin1(c: char) {
    c as int <= 0xFF
  }

  predicate AllLatin1(s: string) {
    forall i :: 0 <= i < |s| ==> IsLatin1(s[i])
  }

  /** The character a byte stands for: (char) readByte in Java. */
  function ByteToChar(b: byte): (c: char)
    ensures IsLatin1(c) && c as int == b
  {
    b as char
  }

  /** ISO-8859-1 decoding: one character per byte, with the byte's own code. */
  function Latin1Decode(bytes: seq<byte>): (s: string)
    ensures |s| == |bytes|
    ensures AllLatin1(s)
    ensures forall i :: 0 <= i < |bytes| ==> s[i] as int == bytes[i]
  {
    seq(|bytes|, i requires 0 <= i < |bytes| => ByteToChar(bytes[i]))
  }

  /** String.getBytes(ISO_8859_1): one byte per character; a character above
      0xFF becomes the replacement byte '?'. */
  function Latin1Encode(s: string): (bytes: seq<byte>)
    ensures |bytes| == |s|
    ensures forall i :: 0 <= i < |s| ==> bytes[i] == CharToByte(s[i])
  {
    seq(|s|, i requires 0 <= i < |s| => CharToByte(s[i]))
  }

  /** The ISO-8859-1 byte of one character. */
  function CharToByte(c: char): (b: byte)
    ensures IsLatin1(c) ==> b == c as int
    ensures !IsLatin1(c) ==> b == REPLACEMENT
  {
    if IsLatin1(c) then c as int else REPLACEMENT
  }

  /** Encoding after decoding gives back the bytes. */
  lemma EncodeDecode(bytes: seq<byte>)
    ensures Latin1Encode(Latin1Decode(bytes)) == bytes
  {
  }

  /** Decoding after encoding gives back a string of ISO-8859-1 characters. */
  lemma DecodeEncode(s: string)
    requires AllLatin1(s)
    ensures Latin1Decode(Latin1Encode(s)) == s
  {
  }

  /** Encoding distributes over concatenation. */
  lemma EncodeAppend(s: string, t: string)
    ensures Latin1Encode(s + t) == Latin1Encode(s) + Latin1Encode(t)
  {
  }
}
