/** The connection under a protocol stack: bytes arrive in fragments of any size, writes append. */
module Wire {
  import opened Octets

  datatype Status = Ok | Eof | Refused

  /** One read of at most `max` bytes takes them from the first fragment. */
  function Pull(incoming: seq<Bytes>, max: nat): (r: (Bytes, seq<Bytes>))
    requires incoming != [] && max > 0
    ensures r.0 + Flatten(r.1) == Flatten(incoming) && |r.0| <= max
    ensures |r.1| + |Flatten(r.1)| < |incoming| + |Flatten(incoming)|
  {
    var first, rest := incoming[0], incoming[1..];
    if |first| <= max then (first, rest) else
      FlattenCons(first[max..], rest);
      (first[..max], [first[max..]] + rest)
  }

  /** What successive reads of at most `max` bytes return. */
  function Arrivals(incoming: seq<Bytes>, max: nat): seq<Bytes>
    requires max > 0
    decreases |incoming| + |Flatten(incoming)|
  {
    if incoming == [] then [] else
      var (data, rest) := Pull(incoming, max);
      [data] + Arrivals(rest, max)
  }

  class Socket {
    var incoming: seq<Bytes>   // fragments not yet delivered; an empty one is a read of no bytes
    var sent: Bytes

    constructor (incoming: seq<Bytes>)
      ensures this.incoming == incoming && sent == []
    {
      this.incoming, sent := incoming, [];
    }

    /** All bytes still to arrive. */
    ghost function Coming(): Bytes
      reads this
    {
      Flatten(incoming)
    }

    /** At most `max` bytes of the next fragment. */
    method Read(max: nat) returns (data: Bytes, eof: bool)
      requires max > 0
      modifies this`incoming
      ensures data + Coming() == old(Coming()) && |data| <= max
      ensures eof <==> old(incoming) == []
      ensures eof ==> data == [] && incoming == [] && Coming() == []
      ensures !eof ==> |incoming| + |Coming()| < |old(incoming)| + |old(Coming())|
      ensures !eof ==> (data, incoming) == Pull(old(incoming), max)
    {
      if incoming == [] {
        return [], true;
      }
      var first := incoming[0];
      if |first| <= max {
        data, incoming := first, incoming[1..];
      } else {
        data := first[..max];
        incoming := [first[max..]] + incoming[1..];
        assert incoming[1..] == old(incoming)[1..];
      }
      eof := false;
    }

    /** Go's `io.ReadFull`: exactly `n` bytes, or the stream ends first and what was left is lost. */
    method ReadFull(n: nat) returns (data: Bytes, ok: bool)
      modifies this`incoming
      ensures ok <==> n <= |old(Coming())|
      ensures ok ==> |data| == n && data + Coming() == old(Coming())
      ensures !ok ==> Coming() == []
    {
      data := [];
      while |data| < n
        invariant |data| <= n && data + Coming() == old(Coming())
        decreases n - |data|, |incoming| + |Coming()|
      {
        var more, eof := Read(n - |data|);
        if eof {
          return data, false;
        }
        assert (data + more) + Coming() == old(Coming());
        data := data + more;
      }
      ok := true;
    }

    method Write(p: Bytes)
      modifies this`sent
      ensures sent == old(sent) + p
    {
      sent := sent + p;
    }
  }
}
