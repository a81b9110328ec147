/** The read-to-end loop of SolrNet.Tests/HttpTests.cs. */
module ReadStreams {
  type byte = bv8

  /** A finite stream whose reads may return any number of the bytes that are left, but some unless at the end. */
  class Stream {
    var remaining: seq<byte>

    constructor (data: seq<byte>)
      ensures remaining == data
    {
      remaining := data;
    }

    method Read(buffer: array<byte>, offset: nat, count: nat) returns (n: int)
      requires offset + count <= buffer.Length && count > 0
      modifies this, buffer
      ensures 0 <= n <= count && n <= |old(remaining)|
      ensures n == 0 <==> old(remaining) == []
      ensures remaining == old(remaining)[n..]
      ensures buffer[offset..offset + n] == old(remaining)[..n]
      ensures buffer[..offset] == old(buffer[..offset]) && buffer[offset + n..] == old(buffer[..])[offset + n..]
    {
      if remaining == [] {
        return 0;
      }
      var most := if count < |remaining| then count else |remaining|;
      n :| 1 <= n <= most;
      for i := 0 to n
        invariant remaining == old(remaining)
        invariant buffer[offset..offset + i] == remaining[..i]
        invariant buffer[..offset] == old(buffer[..offset])
        invariant buffer[offset + i..] == old(buffer[..])[offset + i..]
      {
        buffer[offset + i] := remaining[i];
      }
      remaining := remaining[n..];
    }
  }

  /**
   The buffer is used again for every read, and what a short read leaves behind in it is old data; even so
   the result is the whole stream, in whatever pieces it came.
   */
  method ReadFully(stream: Stream) returns (r: seq<byte>)
    modifies stream
    ensures r == old(stream.remaining) && stream.remaining == []
  {
    var buffer := new byte[32768];
    var ms: seq<byte> := [];
    while true
      invariant ms + stream.remaining == old(stream.remaining)
      decreases |stream.remaining|
    {
      var read := stream.Read(buffer, 0, buffer.Length);
      if read <= 0 {
        return ms;
      }
      ms := ms + buffer[..read];
    }
  }
}
