/** The connection's byte streams: an input stream is a fixed byte sequence
    with a read cursor, an output stream an append-only byte sequence. */
module Streams {
  import opened Wire

  /** What InputStream.read(byte[] b) returns for a buffer of `size` bytes
      when `available` bytes remain: 0 for an empty buffer, -1 at end of
      stream, otherwise the number of bytes copied (as many as fit). */
  function ReadCount(size: nat, available: nat): (n: int)
    ensures size == 0 ==> n == 0
    ensures size > 0 && available == 0 ==> n == -1
    ensures size > 0 && available > 0 ==> 0 < n <= size && n <= available
    ensures size > 0 && available > 0 ==> (n == size || n == available)
  {
    if size == 0 then 0
    else if available == 0 then -1
    else if size <= available then size
    else available
  }

  class InputStream {
    const data: seq<byte>
    var pos: nat

    ghost predicate Valid()
      reads this
    {
      pos <= |data|
    }

    /** The bytes not read yet. */
    function Rest(): seq<byte>
      reads this
      requires Valid()
    {
      data[pos..]
    }

    constructor (data: seq<byte>)
      ensures this.data == data && pos == 0 && Valid()
    {
      this.data := data;
      pos := 0;
    }

    /** InputStream.read(): the next byte as 0..255, or -1 at end of stream. */
    method Read() returns (b: int)
      requires Valid()
      modifies this
      ensures Valid()
      ensures old(pos) < |data| ==> b == data[old(pos)] && pos == old(pos) + 1
      ensures old(pos) == |data| ==> b == -1 && pos == old(pos)
    {
      if pos < |data| {
        b := data[pos];
        pos := pos + 1;
      } else {
        b := -1;
      }
    }

    /** InputStream.read(byte[] buffer): fills the front of the buffer in
        place and returns ReadCount of its length and the remaining input. */
    method ReadInto(buffer: array<byte>) returns (n: int)
      requires Valid()
      modifies this, buffer
      ensures Valid()
      ensures n == ReadCount(buffer.Length, |old(Rest())|)
      ensures var k := if n < 0 then 0 else n;
        && pos == old(pos) + k
        && buffer[..k] == old(Rest())[..k]
        && buffer[k..] == old(buffer[k..])
    {
      n := ReadCount(buffer.Length, |data| - pos);
      var k := if n < 0 then 0 else n;
      var i := 0;
      while i < k
        invariant 0 <= i <= k
        invariant pos == old(pos) + i
        invariant buffer[..i] == old(Rest())[..i]
        invariant buffer[k..] == old(buffer[k..])
      {
        buffer[i] := data[pos];
        pos := pos + 1;
        i := i + 1;
      }
    }
  }

  class OutputStream {
    var written: seq<byte>

    constructor ()
      ensures written == []
    {
      written := [];
    }

    /** OutputStream.write: appends the bytes, in order. */
    method Write(bytes: seq<byte>)
      modifies this
      ensures written == old(written) + bytes
    {
      written := written + bytes;
    }
  }
}
