/**
 WebSocket framing (section 5.2 of RFC 6455) as the two Python peers implement it: one
 writer with 7-, 16- and 64-bit lengths, and an incremental reader that keeps what it
 cannot parse yet.
 */
module WebSocket {
  import opened Octets
  import opened Incremental

  datatype Frame = Frame(fin: bool, opcode: nat, masked: bool, payload: Bytes)

  // ---------------------------------------------------------------- writing

  /** `0x80 | b` */
  function WithHighBit(b: byte): byte { if b < 128 then b + 128 else b }

  function First(fin: bool, opcode: byte): byte { if fin then WithHighBit(opcode) else opcode }

  function LengthField(n: nat, masked: bool): (s: Bytes)
    requires n < Pow256(8)
    ensures 1 <= |s| <= 9
  {
    var bit := if masked then 128 else 0;
    if n <= 125 then [bit + n]
    else if n <= 0xffff then [bit + 126] + ToBE(n, 2)
    else [bit + 127] + ToBE(n, 8)
  }

  function Header(fin: bool, opcode: byte, n: nat, masked: bool): (h: Bytes)
    requires n < Pow256(8)
    ensures 2 <= |h| <= 10
  {
    [First(fin, opcode)] + LengthField(n, masked)
  }

  function KeyOctets(key: Option<Bytes>): Bytes { if key.Some? then key.value else [] }

  function Masked(key: Option<Bytes>, payload: Bytes): (r: Bytes)
    requires key.Some? ==> |key.value| == 4
    ensures |r| == |payload|
  {
    if key.Some? then Mask(key.value, payload) else payload
  }

  /** A frame on the wire; a key makes it a masked one. */
  function Encode(fin: bool, opcode: byte, key: Option<Bytes>, payload: Bytes): Bytes
    requires |payload| < Pow256(8) && (key.Some? ==> |key.value| == 4)
  {
    Header(fin, opcode, |payload|, key.Some?) + KeyOctets(key) + Masked(key, payload)
  }

  /** `write_frame` of the client; the random masking key is an argument. */
  function ClientWriteFrame(opcode: byte, payload: Bytes, masked: bool, final: bool, key: Bytes): Bytes
    requires |payload| < Pow256(8) && |key| == 4
  {
    Encode(final, opcode, if masked then Some(key) else None, payload)
  }

  /** `write_frame` of the server, which never masks. */
  function ServerWriteFrame(opcode: byte, payload: Bytes, final: bool): Bytes
    requires |payload| < Pow256(8)
  {
    Encode(final, opcode, None, payload)
  }

  // ---------------------------------------------------------------- reading one frame

  /** The first two octets and the extended length the second one announces. */
  function HeaderSize(second: byte): nat
  {
    if Low7(second) == 126 then 4 else if Low7(second) == 127 then 10 else 2
  }

  function PayloadSize(header: Bytes): nat
    requires |header| >= 2
  {
    if |header| == 2 then Low7(header[1]) else FromBE(header[2..])
  }

  function KeySize(second: byte): nat { if HighBit(second) then 4 else 0 }

  function Unpack(header: Bytes, key: Bytes, raw: Bytes): Frame
    requires |header| >= 2 && |key| == KeySize(header[1])
  {
    var masked := HighBit(header[1]);
    Frame(HighBit(header[0]), Low4(header[0]), masked, if masked then Mask(key, raw) else raw)
  }

  /** The first frame of the buffer, if it is complete; a reserved bit is refused at once. */
  function Next(b: Bytes): Step<Frame>
  {
    if |b| < 2 then More
    else if Rsv(b[0]) != 0 then Refused
    else
      var h := HeaderSize(b[1]);
      if |b| < h then More
      else
        var k, n := h + KeySize(b[1]), PayloadSize(b[..h]);
        if |b| < k + n then More
        else Got(Unpack(b[..h], b[h..k], b[k..k + n]), k + n)
  }

  lemma SlicesAgree(b: Bytes, c: Bytes, m: nat, i: nat, j: nat)
    requires i <= j <= m <= |b| && m <= |c| && c[..m] == b[..m]
    ensures c[i..j] == b[i..j]
  {
    assert c[..m][i..j] == c[i..j] && b[..m][i..j] == b[i..j];
  }

  lemma OctetsAgree(b: Bytes, c: Bytes, m: nat, i: nat)
    requires i < m <= |b| && m <= |c| && c[..m] == b[..m]
    ensures c[i] == b[i]
  {
    assert c[..m][i] == c[i] && b[..m][i] == b[i];
  }

  /** A complete frame depends only on its own bytes. */
  lemma NextIsLocal(b: Bytes, c: Bytes)
    requires Next(b).Got? && Next(b).consumed <= |b|
    requires Next(b).consumed <= |c| && c[..Next(b).consumed] == b[..Next(b).consumed]
    ensures Next(c) == Next(b)
  {
    var m := Next(b).consumed;
    var h := HeaderSize(b[1]);
    var k := h + KeySize(b[1]);
    OctetsAgree(b, c, m, 0);
    OctetsAgree(b, c, m, 1);
    SlicesAgree(b, c, m, 0, h);
    SlicesAgree(b, c, m, h, k);
    SlicesAgree(b, c, m, k, m);
    assert b[0..h] == b[..h] && c[0..h] == c[..h];
  }

  lemma NextSized(b: Bytes)
    ensures Sized(Next, b)
  {
  }

  lemma {:induction false} NextSteady()
    ensures Steady(Next)
  {
    forall b ensures Sized(Next, b) {
      NextSized(b);
    }
    forall b, more ensures Stable(Next, b, more) {
      if Next(b).Got? {
        assert (b + more)[..Next(b).consumed] == b[..Next(b).consumed];
        NextIsLocal(b, b + more);
      }
    }
  }

  // ---------------------------------------------------------------- the incremental reader

  /** What a call returns; frames gathered before a refusal in the same call are lost. */
  datatype Fed = Frames(frames: seq<Frame>) | Raised

  /** The loop body of `feed`, up to the point where it takes the frame off the buffer. */
  method ParseFirst(buffer: Bytes) returns (p: Step<Frame>)
    ensures p == Next(buffer)
  {
    if |buffer| < 2 {
      return More;
    }
    var first, second := buffer[0], buffer[1];
    var masked := HighBit(second);
    var length, offset := Low7(second), 2;
    if Rsv(first) != 0 {
      return Refused;
    }
    if length == 126 {
      if |buffer| < offset + 2 {
        return More;
      }
      assert buffer[..4][2..] == buffer[2..4];
      length := U16(buffer[offset..offset + 2]);
      offset := offset + 2;
    } else if length == 127 {
      if |buffer| < offset + 8 {
        return More;
      }
      assert buffer[..10][2..] == buffer[2..10];
      length := FromBE(buffer[offset..offset + 8]);
      offset := offset + 8;
    }
    var key: Bytes := [];
    if masked {
      if |buffer| < offset + 4 {
        return More;
      }
      key := buffer[offset..offset + 4];
      offset := offset + 4;
    }
    if |buffer| < offset + length {
      return More;
    }
    var payload := buffer[offset..offset + length];
    if masked {
      payload := Mask(key, payload);
    }
    return Got(Frame(HighBit(first), Low4(first), masked, payload), offset + length);
  }

  class FrameReader {
    var buffer: Bytes

    constructor ()
      ensures buffer == []
    {
      buffer := [];
    }

    method Feed(data: Bytes) returns (r: Fed)
      modifies this
      ensures var d := Drain(Next, old(buffer) + data);
              buffer == d.rest && r == if d.refused then Raised else Frames(d.items)
    {
      buffer := buffer + data;
      ghost var whole := Drain(Next, buffer);
      var frames: seq<Frame> := [];
      Empty(whole.items);
      while true
        invariant Underway(Next, whole, frames, buffer)
        decreases |buffer|
      {
        var p := ParseFirst(buffer);
        if !p.Got? {
          TakeNone(Next, whole, frames, buffer);
          return if p.Refused? then Raised else Frames(frames);
        }
        NextSized(buffer);
        TakeOne(Next, whole, frames, buffer);
        frames, buffer := frames + [p.item], buffer[p.consumed..];
      }
    }
  }

  /**
   However a byte stream without reserved bits is cut into calls, the reader returns the
   same frames and keeps the same bytes as one call on the whole stream.  With a reserved
   bit every cutting raises, and returns no frame the stream does not hold.
   */
  lemma {:induction false} ChunkInvariant(chunks: seq<Bytes>)
    ensures var whole, fed := Drain(Next, Concat(chunks)), FeedAll(Next, [], chunks);
            && fed.refused == whole.refused
            && (!whole.refused ==> fed == whole)
            && fed.items <= whole.items
  {
    NextSteady();
    FeedAllFrom(Next, [], chunks);
    assert [] + Concat(chunks) == Concat(chunks);
  }

  /** The octets are one frame: its header, the key it announces and the payload it announces. */
  predicate WholeFrame(p: Bytes)
  {
    && |p| >= 2 && Rsv(p[0]) == 0 && |p| >= HeaderSize(p[1])
    && |p| == HeaderSize(p[1]) + KeySize(p[1]) + PayloadSize(p[..HeaderSize(p[1])])
  }

  /** At least one frame, and behind the frames an octet with a reserved bit and another one. */
  predicate LateRsv(stream: Bytes, frames: seq<Bytes>, tail: Bytes)
  {
    && stream == Concat(frames) + tail && frames != [] && (forall p :: p in frames ==> WholeFrame(p))
    && |tail| >= 2 && Rsv(tail[0]) != 0
  }

  lemma WholeFrameIsNext(p: Bytes, rest: Bytes)
    requires WholeFrame(p)
    ensures Next(p + rest).Got? && Next(p + rest).consumed == |p| && (p + rest)[|p|..] == rest
  {
    var b, h := p + rest, HeaderSize(p[1]);
    assert b[0] == p[0] && b[1] == p[1] && b[..h] == p[..h];
  }

  lemma NextIsWholeFrame(b: Bytes)
    requires Next(b).Got?
    ensures Next(b).consumed <= |b| && WholeFrame(b[..Next(b).consumed])
  {
    NextSized(b);
    var p, h := b[..Next(b).consumed], HeaderSize(b[1]);
    assert p[0] == b[0] && p[1] == b[1] && p[..h] == b[..h];
  }

  lemma {:induction false} FramesThenRsvDrains(stream: Bytes, frames: seq<Bytes>, tail: Bytes)
    requires stream == Concat(frames) + tail && forall p :: p in frames ==> WholeFrame(p)
    requires |tail| >= 2 && Rsv(tail[0]) != 0
    ensures var d := Drain(Next, stream); d.refused && |d.items| == |frames|
    decreases |frames|
  {
    if frames == [] {
      Empty(tail);
      DrainUnfolds(Next, tail);
    } else {
      var p, rest := frames[0], Concat(frames[1..]) + tail;
      assert p in frames && forall q :: q in frames[1..] ==> q in frames;
      Assoc(p, Concat(frames[1..]), tail);
      WholeFrameIsNext(p, rest);
      NextSized(stream);
      DrainUnfolds(Next, stream);
      FramesThenRsvDrains(rest, frames[1..], tail);
    }
  }

  lemma {:induction false} DrainIsFramesThenRsv(stream: Bytes) returns (frames: seq<Bytes>, tail: Bytes)
    requires Drain(Next, stream).refused
    ensures stream == Concat(frames) + tail && |frames| == |Drain(Next, stream).items|
    ensures (forall p :: p in frames ==> WholeFrame(p)) && |tail| >= 2 && Rsv(tail[0]) != 0
    decreases |stream|
  {
    NextSized(stream);
    DrainUnfolds(Next, stream);
    if Next(stream).Got? {
      var n := Next(stream).consumed;
      NextIsWholeFrame(stream);
      var rest, t := DrainIsFramesThenRsv(stream[n..]);
      frames, tail := [stream[..n]] + rest, t;
      assert frames[1..] == rest && stream == stream[..n] + stream[n..];
      Assoc(stream[..n], Concat(rest), tail);
    } else {
      frames, tail := [], stream;
      Empty(stream);
    }
  }

  /**
   The frames returned depend on the cutting if and only if the stream is at least one frame
   followed by octets that open with a reserved bit: one call then loses the frames, and two
   calls keep them.
   */
  lemma {:induction false} CuttingMattersExactlyWhen(stream: Bytes)
    ensures !AnyCutting(Next, stream) <==> exists frames, tail :: LateRsv(stream, frames, tail)
  {
    NextSteady();
    if !Drain(Next, stream).refused || Drain(Next, stream).items == [] {
      CuttingHarmless(Next, stream);
    } else {
      var frames, tail := DrainIsFramesThenRsv(stream);
      assert LateRsv(stream, frames, tail);
      NextSized(stream);
      NextIsLocal(stream, stream[..Next(stream).consumed]);
      CuttingHarmful(Next, stream);
    }
    forall frames, tail | LateRsv(stream, frames, tail) ensures !AnyCutting(Next, stream) {
      FramesThenRsvDrains(stream, frames, tail);
    }
  }

  // ---------------------------------------------------------------- round trip

  lemma FirstOctet(fin: bool, opcode: byte)
    requires opcode < 16
    ensures var b := First(fin, opcode); Rsv(b) == 0 && HighBit(b) == fin && Low4(b) == opcode
  {
  }

  /** An extended length reads back as the number written. */
  lemma LongLength(first: byte, second: byte, n: nat, width: nat)
    requires n < Pow256(width) && width > 0
    ensures PayloadSize([first, second] + ToBE(n, width)) == n
  {
    assert ([first, second] + ToBE(n, width))[2..] == ToBE(n, width);
    FromToBE(n, width);
  }

  lemma HeaderParts(fin: bool, opcode: byte, n: nat, masked: bool)
    requires opcode < 16 && n < Pow256(8)
    ensures var h := Header(fin, opcode, n, masked);
            && Rsv(h[0]) == 0 && HighBit(h[0]) == fin && Low4(h[0]) == opcode
            && HighBit(h[1]) == masked
            && HeaderSize(h[1]) == |h| && PayloadSize(h) == n
  {
    var h, first := Header(fin, opcode, n, masked), First(fin, opcode);
    var bit := if masked then 128 else 0;
    FirstOctet(fin, opcode);
    Widths();
    if n <= 125 {
      assert h == [first, bit + n];
    } else if n <= 0xffff {
      assert h == [first, bit + 126] + ToBE(n, 2);
      LongLength(first, bit + 126, n, 2);
    } else {
      assert h == [first, bit + 127] + ToBE(n, 8);
      LongLength(first, bit + 127, n, 8);
    }
  }

  /** A buffer made of a header, a key and a payload of the announced sizes. */
  lemma NextOfParts(header: Bytes, key: Bytes, raw: Bytes, tail: Bytes)
    requires |header| >= 2 && Rsv(header[0]) == 0 && HeaderSize(header[1]) == |header|
    requires |key| == KeySize(header[1]) && |raw| == PayloadSize(header)
    ensures Next(header + key + raw + tail) == Got(Unpack(header, key, raw), |header| + |key| + |raw|)
  {
    var b := header + key + raw + tail;
    var h, k, n := |header|, |header| + |key|, |raw|;
    assert b[0] == header[0] && b[1] == header[1];
    assert b[..h] == header && b[h..k] == key && b[k..k + n] == raw;
  }

  /** The reader's first frame of an encoding, whatever follows it, is the frame encoded. */
  lemma {:induction false} NextOfEncode(fin: bool, opcode: byte, key: Option<Bytes>, payload: Bytes, tail: Bytes)
    requires opcode < 16 && |payload| < Pow256(8) && (key.Some? ==> |key.value| == 4)
    ensures var wire := Encode(fin, opcode, key, payload);
            Next(wire + tail) == Got(Frame(fin, opcode, key.Some?, payload), |wire|)
  {
    var header := Header(fin, opcode, |payload|, key.Some?);
    HeaderParts(fin, opcode, |payload|, key.Some?);
    NextOfParts(header, KeyOctets(key), Masked(key, payload), tail);
    if key.Some? {
      MaskInvolution(key.value, payload);
    }
    assert Unpack(header, KeyOctets(key), Masked(key, payload)) == Frame(fin, opcode, key.Some?, payload);
  }

  /** The shortest length field that holds the length is written, as section 5.2 of RFC 6455 asks. */
  lemma {:induction false} EncodeSize(fin: bool, opcode: byte, key: Option<Bytes>, payload: Bytes)
    requires |payload| < Pow256(8) && (key.Some? ==> |key.value| == 4)
    ensures |Encode(fin, opcode, key, payload)| ==
            (if |payload| <= 125 then 2 else if |payload| <= 65535 then 4 else 10)
            + (if key.Some? then 4 else 0) + |payload|
  {
  }

  /** A frame together with the key it is to be masked with, or none. */
  datatype Outgoing = Outgoing(fin: bool, opcode: byte, key: Option<Bytes>, payload: Bytes)
  {
    predicate Valid() { opcode < 16 && |payload| < Pow256(8) && (key.Some? ==> |key.value| == 4) }

    function Wire(): Bytes
      requires Valid()
    {
      Encode(fin, opcode, key, payload)
    }

    function Sent(): Frame { Frame(fin, opcode, key.Some?, payload) }
  }

  predicate AllValid(out: seq<Outgoing>) { forall k :: 0 <= k < |out| ==> out[k].Valid() }

  function WireOf(out: seq<Outgoing>): Bytes
    requires AllValid(out)
  {
    if out == [] then [] else out[0].Wire() + WireOf(out[1..])
  }

  function FramesOf(out: seq<Outgoing>): seq<Frame>
  {
    if out == [] then [] else [out[0].Sent()] + FramesOf(out[1..])
  }

  lemma {:induction false} WireOfAppend(a: seq<Outgoing>, b: seq<Outgoing>)
    requires AllValid(a) && AllValid(b)
    ensures AllValid(a + b) && WireOf(a + b) == WireOf(a) + WireOf(b)
    ensures FramesOf(a + b) == FramesOf(a) + FramesOf(b)
  {
    if a == [] {
      assert a + b == b;
    } else {
      assert (a + b)[1..] == a[1..] + b;
      WireOfAppend(a[1..], b);
      Assoc(a[0].Wire(), WireOf(a[1..]), WireOf(b));
      Assoc([a[0].Sent()], FramesOf(a[1..]), FramesOf(b));
    }
  }

  lemma {:induction false} DrainOfWire(out: seq<Outgoing>)
    requires AllValid(out)
    ensures Drain(Next, WireOf(out)) == Drained(FramesOf(out), [], false)
  {
    if out != [] {
      var f, tail := out[0], WireOf(out[1..]);
      NextOfEncode(f.fin, f.opcode, f.key, f.payload, tail);
      DrainOfWire(out[1..]);
      assert (f.Wire() + tail)[|f.Wire()|..] == tail;
    }
  }

  /**
   Frames of every length class, masked or not, final or not, written one after another and
   cut into any chunks, come back as they were written, with nothing left over.
   */
  lemma {:induction false} ReaderInvertsWriter(out: seq<Outgoing>, chunks: seq<Bytes>)
    requires AllValid(out) && Concat(chunks) == WireOf(out)
    ensures FeedAll(Next, [], chunks) == Drained(FramesOf(out), [], false)
  {
    DrainOfWire(out);
    ChunkInvariant(chunks);
  }
}
