/** The framing primitives: reading one LF-terminated line and writing a
    string as ISO-8859-1 bytes (Util.readLine / Util.writeString). */
module Util {
  import opened Wire
  import opened Streams

  /** The position of the first line feed at or after `pos`, if there is
      one. */
  function LineEnd(input: seq<byte>, pos: nat): (r: Option<nat>)
    requires pos <= |input|
    ensures r.Some? ==> pos <= r.value < |input| && input[r.value] == LF
    ensures r.Some? ==> forall k :: pos <= k < r.value ==> input[k] != LF
    ensures r.None? ==> forall k :: pos <= k < |input| ==> input[k] != LF
    decreases |input| - pos
  {
    if pos == |input| then None
    else if input[pos] == LF then Some(pos)
    else LineEnd(input, pos + 1)
  }

  /** What readLine does when the stream is at `pos`: the line it returns
      (or the end-of-stream error) and the position after it. */
  function ReadLineAt(input: seq<byte>, pos: nat): (r: (Result<string>, nat))
    requires pos <= |input|
    ensures pos <= r.1 <= |input|
    ensures r.0.Ok? ==> r.1 == pos + |r.0.value| + 1
    ensures r.0.Err? ==> r.0 == Err(EndOfStream) && r.1 == |input|
  {
    match LineEnd(input, pos)
    case Some(i) => (Ok(Latin1Decode(input[pos..i])), i + 1)
    case None => (Err(EndOfStream), |input|)
  }

  /** A line read never contains a line feed and only holds characters
      ISO-8859-1 can represent; it is the decoding of the bytes before the
      line feed that ends it. */
  lemma LineIsLatin1WithoutLF(input: seq<byte>, pos: nat)
    requires pos <= |input| && ReadLineAt(input, pos).0.Ok?
    ensures var line, next := ReadLineAt(input, pos).0.value, ReadLineAt(input, pos).1;
      && input[next - 1] == LF
      && line == Latin1Decode(input[pos..next - 1])
      && AllLatin1(line)
      && forall k :: 0 <= k < |line| ==> line[k] != '\n'
  {
    var line := ReadLineAt(input, pos).0.value;
    forall k | 0 <= k < |line|
      ensures line[k] != '\n'
    {
      assert line[k] as int == input[pos + k];
    }
  }

  /** readLine never looks past the line feed: bytes after it do not change
      the line or the position after it. */
  lemma {:induction false} ReadLineIgnoresTail(input: seq<byte>, pos: nat, tail: seq<byte>)
    requires pos <= |input| && ReadLineAt(input, pos).0.Ok?
    ensures ReadLineAt(input + tail, pos) == ReadLineAt(input, pos)
  {
    var i := LineEnd(input, pos).value;
    FirstLineFeed(input + tail, pos, i);
    assert (input + tail)[pos..i] == input[pos..i];
  }

  /** The first line feed from `pos` on is found. */
  lemma {:induction false} FirstLineFeed(input: seq<byte>, pos: nat, i: nat)
    requires pos <= i < |input| && input[i] == LF
    requires forall k :: pos <= k < i ==> input[k] != LF
    ensures LineEnd(input, pos) == Some(i)
    decreases i - pos
  {
    if pos < i {
      FirstLineFeed(input, pos + 1, i);
    }
  }

  /** Without a line feed from `pos` on, none is found. */
  lemma {:induction false} NoLineFeed(input: seq<byte>, pos: nat)
    requires pos <= |input|
    requires forall k :: pos <= k < |input| ==> input[k] != LF
    ensures LineEnd(input, pos) == None
    decreases |input| - pos
  {
    if pos < |input| {
      NoLineFeed(input, pos + 1);
    }
  }

  /** Round trip: a string without line feeds, all of whose characters are
      ISO-8859-1, written by writeString and terminated by LF, is read back
      by readLine unchanged, consuming exactly its bytes and the LF. */
  lemma WriteThenReadLine(line: string, tail: seq<byte>)
    requires AllLatin1(line)
    requires forall k :: 0 <= k < |line| ==> line[k] != '\n'
    ensures ReadLineAt(Latin1Encode(line) + [LF] + tail, 0) == (Ok(line), |line| + 1)
  {
    var body := Latin1Encode(line);
    var input := body + [LF] + tail;
    forall k | 0 <= k < |body|
      ensures input[k] != LF
    {
      assert input[k] == body[k] == line[k] as int;
    }
    FirstLineFeed(input, 0, |body|);
    assert input[0..|body|] == body;
    DecodeEncode(line);
  }

  /** The same round trip wherever the line starts: after any bytes
      already consumed, readLine returns the written string and stops right
      after its line feed. */
  lemma WriteThenReadLineAt(prefix: seq<byte>, line: string, tail: seq<byte>)
    requires AllLatin1(line)
    requires forall k :: 0 <= k < |line| ==> line[k] != '\n'
    ensures ReadLineAt(prefix + (Latin1Encode(line) + [LF] + tail), |prefix|)
         == (Ok(line), |prefix| + |line| + 1)
  {
    var body := Latin1Encode(line);
    var input := prefix + (body + [LF] + tail);
    var p := |prefix|;
    forall k | p <= k < p + |body|
      ensures input[k] != LF
    {
      assert input[k] == body[k - p] == line[k - p] as int;
    }
    assert input[p + |body|] == LF;
    FirstLineFeed(input, p, p + |body|);
    assert input[p..p + |body|] == body;
    DecodeEncode(line);
  }

  /** Util.readLine: reads bytes until a line feed and returns the bytes
      before it as characters; end of stream before the line feed is an
      error. */
  method ReadLine(input: InputStream) returns (r: Result<string>)
    requires input.Valid()
    modifies input
    ensures input.Valid()
    ensures (r, input.pos) == ReadLineAt(input.data, old(input.pos))
  {
    ghost var p0 := input.pos;
    ghost var q := input.pos;
    var sb: string := [];
    var readByte := input.Read();
    while readByte != -1
      invariant input.Valid() && p0 <= q <= |input.data|
      invariant sb == Latin1Decode(input.data[p0..q])
      invariant forall k :: p0 <= k < q ==> input.data[k] != LF
      invariant readByte != -1 ==> q < |input.data| && readByte == input.data[q] && input.pos == q + 1
      invariant readByte == -1 ==> q == input.pos == |input.data|
      decreases |input.data| - q
    {
      if readByte == 0x0A {
        LineFound(input.data, p0, q);
        return Ok(sb);
      }
      DecodeOneMore(input.data, p0, q);
      sb := sb + [ByteToChar(readByte as byte)];
      q := q + 1;
      readByte := input.Read();
    }
    NoLineFeed(input.data, p0);
    return Err(EndOfStream);
  }

  /** Reading one more byte extends the decoded line by its character. */
  lemma DecodeOneMore(input: seq<byte>, p0: nat, q: nat)
    requires p0 <= q < |input|
    ensures Latin1Decode(input[p0..q + 1]) == Latin1Decode(input[p0..q]) + [ByteToChar(input[q])]
  {
    assert input[p0..q + 1] == input[p0..q] + [input[q]];
  }

  /** The first line feed at or after `p0` ends the line readLine returns. */
  lemma LineFound(input: seq<byte>, p0: nat, q: nat)
    requires p0 <= q < |input| && input[q] == LF
    requires forall k :: p0 <= k < q ==> input[k] != LF
    ensures ReadLineAt(input, p0) == (Ok(Latin1Decode(input[p0..q])), q + 1)
  {
    FirstLineFeed(input, p0, q);
  }

  /** Util.writeString: writes the ISO-8859-1 encoding of the string. */
  method WriteString(text: string, output: OutputStream)
    modifies output
    ensures output.written == old(output.written) + Latin1Encode(text)
  {
    output.Write(Latin1Encode(text));
  }
}
