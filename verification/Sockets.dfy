/** Sockets that deliver their bytes in pieces of any size. */
module Sockets {

  /** A connected socket; the peer closes it after the bytes in `incoming`. */
  class Socket<T> {
    var incoming: seq<T>

    constructor (incoming: seq<T>)
      ensures this.incoming == incoming
    {
      this.incoming := incoming;
    }

    /** Some of the next bytes, at most `size`; none only at the end of the stream. */
    method Recv(size: nat) returns (data: seq<T>)
      requires size > 0
      modifies this
      ensures data + incoming == old(incoming)
      ensures |data| <= size && (|data| == 0 <==> |old(incoming)| == 0)
    {
      if |incoming| == 0 {
        data := [];
      } else {
        var k: nat :| 1 <= k <= size && k <= |incoming|;
        data, incoming := incoming[..k], incoming[k..];
      }
    }

    /** Reads exactly `size` bytes, if there are as many. */
    method RecvExactly(size: nat) returns (ok: bool, data: seq<T>)
      modifies this
      ensures ok == (|old(incoming)| >= size)
      ensures ok ==> |data| == size && data + incoming == old(incoming)
      ensures !ok ==> |incoming| == 0
    {
      data := [];
      while |data| < size
        invariant data + incoming == old(incoming)
        invariant |data| <= size
        decreases size - |data|
      {
        var piece := Recv(size - |data|);
        if |piece| == 0 {
          return false, data;
        }
        assert data + piece + incoming == data + (piece + incoming);
        data := data + piece;
      }
      ok := true;
    }
  }
}
