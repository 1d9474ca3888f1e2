/**
 Blocking reads from a stream of octets.
 */
module Streams {
  import opened Octets

  /** A connection or message body being read; `rest` is what has not been read yet. */
  class ByteStream {
    var rest: Bytes

    constructor (bytes: Bytes)
      ensures rest == bytes
    {
      rest := bytes;
    }

    /** `io.ReadFull` */
    method ReadFull(n: nat) returns (got: Option<Bytes>)
      modifies this
      ensures n <= |old(rest)| ==> got == Some(old(rest)[..n]) && rest == old(rest)[n..]
      ensures n > |old(rest)| ==> got == None && rest == []
    {
      if n > |rest| {
        rest := [];
        return None;
      }
      got := Some(rest[..n]);
      rest := rest[n..];
    }

    /** `Read` into one octet: whether it delivers something */
    method ReadExtra() returns (delivered: bool)
      modifies this
      ensures delivered <==> old(rest) != []
    {
      delivered := rest != [];
      rest := if delivered then rest[1..] else rest;
    }
  }
}
