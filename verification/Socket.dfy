/** One end of a connection: bytes that have arrived and bytes sent, with the full reads and writes of utils/misc.h. */
module Sockets {
  import opened Prelude
  import opened Wire

  class Socket {
    /** Bytes from the other end that have not been read yet. */
    var incoming: seq<Byte>
    var outgoing: seq<Byte>

    constructor ()
      ensures incoming == [] && outgoing == []
    {
      incoming, outgoing := [], [];
    }

    /** `readn`: the kernel may hand over as little as one byte at a time. */
    method Readn(size: nat) returns (buf: seq<Byte>)
      requires size <= |incoming|
      modifies this`incoming
      ensures buf == old(incoming)[..size] && incoming == old(incoming)[size..]
    {
      buf := [];
      var left: nat := size;
      while left > 0
        invariant left <= size && left <= |incoming| && |buf| == size - left
        invariant buf + incoming == old(incoming)
      {
        var r: nat :| 1 <= r <= left;
        SplitKeepsWhole(buf, incoming, r);
        buf, incoming, left := buf + incoming[..r], incoming[r..], left - r;
      }
      assert old(incoming)[..size] == buf;
    }

    /** `writen` */
    method Writen(bytes: seq<Byte>)
      modifies this`outgoing
      ensures outgoing == old(outgoing) + bytes
    {
      var left: nat := |bytes|;
      while left > 0
        invariant left <= |bytes| && outgoing == old(outgoing) + bytes[..|bytes| - left]
      {
        var r: nat :| 1 <= r <= left;
        var at := |bytes| - left;
        assert bytes[..at + r] == bytes[..at] + bytes[at..at + r];
        outgoing, left := outgoing + bytes[at..at + r], left - r;
      }
      assert bytes[..|bytes|] == bytes;
    }

    /** `getRequestPayloadSegment`, and the same two reads on the client's side. */
    method ReadSegment() returns (payload: seq<Byte>)
      requires TakeSegment(incoming).Some?
      modifies this`incoming
      ensures TakeSegment(old(incoming)) == Some((payload, incoming))
    {
      var metadata := Readn(METADATA_SIZE);
      var segmentLen := Atol(metadata);
      payload := Readn(segmentLen);
    }
  }
}
