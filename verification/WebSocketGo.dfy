/**
 WebSocket framing as the Go programs implement it: the blocking reader and the writers of
 the HTTP/1.1 pair, and the parser and the masked writer of the HTTP/2 executor.  All are
 related to the codec of the Python peers.
 */
module WebSocketGo {
  import opened Octets
  import opened Bits
  import opened Streams
  import opened Incremental
  import opened WebSocket

  // ---------------------------------------------------------------- masking in place

  /** `for i := range p { p[i] ^= mask[i%4] }` */
  method MaskInPlace(p: array<byte>, key: Bytes)
    requires |key| == 4
    modifies p
    ensures p[..] == Mask(key, old(p[..]))
  {
    ghost var was := p[..];
    for i := 0 to p.Length
      invariant forall k :: 0 <= k < i ==> p[k] == Xor(was[k], key[k % 4])
      invariant forall k :: i <= k < p.Length ==> p[k] == was[k]
    {
      p[i] := Xor(p[i], key[i % 4]);
    }
  }

  method MaskedCopy(payload: Bytes, key: Bytes) returns (r: Bytes)
    requires |key| == 4
    ensures r == Mask(key, payload)
  {
    var p := new byte[|payload|](i requires 0 <= i < |payload| => payload[i]);
    assert p[..] == payload;
    MaskInPlace(p, key);
    r := p[..];
  }

  // ---------------------------------------------------------------- the writers

  lemma TwoOctets(n: nat)
    ensures ToBE(n, 2) == [n / 256 % 256, n % 256]
  {
    assert ToBE(n / 256, 1) == ToBE(n / 256 / 256, 0) + [n / 256 % 256];
  }

  lemma WritableSize(n: nat)
    requires n <= 65535
    ensures n < Pow256(8)
  {
    Widths();
  }

  /** `writeClientFrame` of the HTTP/1.1 executor; the random key is an argument. */
  method WriteClientFrame(opcode: byte, payload: Bytes, key: Bytes) returns (wire: Option<Bytes>)
    requires |key| == 4
    ensures |payload| > 65535 ==> wire == None
    ensures |payload| <= 65535 ==>
              |payload| < Pow256(8) && wire == Some(ClientWriteFrame(opcode, payload, true, true, key))
  {
    var header: Bytes := [WithHighBit(opcode)];
    if |payload| <= 125 {
      header := header + [128 + |payload|];
    } else if |payload| <= 65535 {
      TwoOctets(|payload|);
      header := header + [128 + 126, |payload| / 256, |payload| % 256];
    } else {
      return None;
    }
    WritableSize(|payload|);
    assert header == Header(true, opcode, |payload|, true);
    var masked := MaskedCopy(payload, key);
    return Some(header + key + masked);
  }

  /** `writeFrame` of the HTTP/1.1 target, which refuses to mask. */
  method WriteFrame(opcode: byte, payload: Bytes, masked: bool) returns (wire: Option<Bytes>)
    ensures masked || |payload| > 65535 ==> wire == None
    ensures !masked && |payload| <= 65535 ==>
              |payload| < Pow256(8) && wire == Some(ServerWriteFrame(opcode, payload, true))
  {
    var maskBit: nat := if masked then 128 else 0;
    var header: Bytes := [WithHighBit(opcode)];
    if |payload| <= 125 {
      header := header + [maskBit + |payload|];
    } else if |payload| <= 65535 {
      TwoOctets(|payload|);
      header := header + [maskBit + 126, |payload| / 256, |payload| % 256];
    } else {
      return None;
    }
    if masked {
      return None;
    }
    WritableSize(|payload|);
    assert header == Header(true, opcode, |payload|, false);
    assert header + [] + payload == header + payload;
    return Some(header + payload);
  }

  /** The length octets of `maskedFrame`: 16 bits of any length above 125. */
  function ShortLength(n: nat): Bytes { if n <= 125 then [128 + n] else [128 + 126] + ToBE(n, 2) }

  /** `maskedFrame` of the HTTP/2 executor */
  function MaskedFrame(opcode: byte, payload: Bytes, key: Bytes): Bytes
    requires |key| == 4
  {
    [WithHighBit(opcode)] + ShortLength(|payload|) + key + Mask(key, payload)
  }

  method WriteMaskedFrame(opcode: byte, payload: Bytes, key: Bytes) returns (out: Bytes)
    requires |key| == 4
    ensures out == MaskedFrame(opcode, payload, key)
  {
    out := [WithHighBit(opcode)];
    if |payload| <= 125 {
      out := out + [128 + |payload|];
    } else {
      out := out + [128 + 126];
      TwoOctets(|payload|);
      out := out + [|payload| / 256 % 256, |payload| % 256];
    }
    out := out + key;
    ghost var front := out;
    for i := 0 to |payload|
      invariant out == front + Mask(key, payload)[..i]
    {
      out := out + [Xor(payload[i], key[i % 4])];
    }
  }

  /** What is left of a payload when its length is kept modulo 65536. */
  function Kept(payload: Bytes): (r: Bytes)
    ensures r == payload <==> |payload| <= 65535
  {
    if |payload| <= 125 then payload else payload[..|payload| % 65536]
  }

  lemma TwoOctetsKeep(n: nat)
    ensures ToBE(n, 2) == ToBE(n % 65536, 2)
  {
    TwoOctets(n);
    TwoOctets(n % 65536);
  }

  lemma ShortHeader(opcode: byte, payload: Bytes)
    requires opcode < 16
    ensures var h := [WithHighBit(opcode)] + ShortLength(|payload|);
            && |h| >= 2 && Rsv(h[0]) == 0 && HighBit(h[0]) && Low4(h[0]) == opcode && HighBit(h[1])
            && HeaderSize(h[1]) == |h| && PayloadSize(h) == |Kept(payload)|
  {
    var first := WithHighBit(opcode);
    FirstOctet(true, opcode);
    if |payload| <= 125 {
      assert [first] + ShortLength(|payload|) == [first, 128 + |payload|];
    } else {
      var n := |payload| % 65536;
      assert [first] + ShortLength(|payload|) == [first, 254] + ToBE(n, 2) by { TwoOctetsKeep(|payload|); }
      assert n < Pow256(2) by { Widths(); }
      LongLength(first, 254, n, 2);
    }
  }

  lemma MaskOfFront(key: Bytes, payload: Bytes, n: nat)
    requires |key| == 4 && n <= |payload|
    ensures Mask(key, payload)[..n] == Mask(key, payload[..n])
  {
  }

  lemma Regroup(header: Bytes, key: Bytes, raw: Bytes, n: nat, tail: Bytes)
    requires n <= |raw|
    ensures header + key + raw + tail == header + key + raw[..n] + (raw[n..] + tail)
  {
    SplitAt(header + key, raw, n);
  }

  /** The readers see a masked frame whose payload is what the 16-bit length keeps. */
  lemma {:induction false} MaskedFrameReads(opcode: byte, payload: Bytes, key: Bytes, tail: Bytes)
    requires opcode < 16 && |key| == 4
    ensures Next(MaskedFrame(opcode, payload, key) + tail) ==
            Got(Frame(true, opcode, true, Kept(payload)), |ShortLength(|payload|)| + 5 + |Kept(payload)|)
  {
    var header, kept := [WithHighBit(opcode)] + ShortLength(|payload|), Kept(payload);
    var n, masked := |kept|, Mask(key, payload);
    ShortHeader(opcode, payload);
    MaskOfFront(key, payload, n);
    assert kept == payload[..n];
    MaskInvolution(key, kept);
    Regroup(header, key, masked, n, tail);
    NextOfParts(header, key, masked[..n], masked[n..] + tail);
  }

  /** A masked frame of the HTTP/2 executor brings its payload over exactly up to 65535 octets. */
  lemma {:induction false} MaskedFrameRoundTrip(opcode: byte, payload: Bytes, key: Bytes, tail: Bytes)
    requires opcode < 16 && |key| == 4
    ensures var wire := MaskedFrame(opcode, payload, key);
            Next(wire + tail) == Got(Frame(true, opcode, true, payload), |wire|) <==> |payload| <= 65535
  {
    MaskedFrameReads(opcode, payload, key, tail);
  }

  lemma MaskedFrameIsEncode(opcode: byte, payload: Bytes, key: Bytes)
    requires |key| == 4 && |payload| <= 65535
    ensures |payload| < Pow256(8)
    ensures MaskedFrame(opcode, payload, key) == ClientWriteFrame(opcode, payload, true, true, key)
  {
    WritableSize(|payload|);
    assert Header(true, opcode, |payload|, true) == [WithHighBit(opcode)] + ShortLength(|payload|);
  }

  /** On the wire a masked payload octet differs from its own in exactly the bits of its key octet. */
  lemma {:induction false} WireIsMasked(fin: bool, opcode: byte, key: Bytes, payload: Bytes, k: nat, i: nat)
    requires |payload| < Pow256(8) && |key| == 4 && k < |payload| && i < 8
    ensures var wire := Encode(fin, opcode, Some(key), payload);
            var sent := wire[|wire| - |payload| + k];
            Bit(sent, i) != Bit(payload[k], i) <==> Bit(key[k % 4], i) == 1
  {
    MaskMeans(key, payload, k, i);
  }

  lemma {:induction false} MaskedFrameIsMasked(opcode: byte, key: Bytes, payload: Bytes, k: nat, i: nat)
    requires |key| == 4 && k < |payload| && i < 8
    ensures var wire := MaskedFrame(opcode, payload, key);
            var sent := wire[|wire| - |payload| + k];
            Bit(sent, i) != Bit(payload[k], i) <==> Bit(key[k % 4], i) == 1
  {
    MaskMeans(key, payload, k, i);
  }

  // ---------------------------------------------------------------- the HTTP/2 parser

  /** The frames the parser wants: whole, without reserved bits and 64-bit lengths. */
  function NextWhole(b: Bytes): Step<Frame>
  {
    if |b| < 2 then More
    else if !HighBit(b[0]) || Rsv(b[0]) != 0 || Low7(b[1]) == 127 then Refused
    else Next(b)
  }

  /** `parseFrameConsumed` */
  method ParseFrameConsumed(data: Bytes) returns (p: Step<Frame>)
    ensures p == NextWhole(data)
  {
    if |data| < 2 {
      return More;
    }
    var first, second := data[0], data[1];
    if !HighBit(first) || Rsv(first) != 0 {
      return Refused;
    }
    var masked := HighBit(second);
    var length, offset := Low7(second), 2;
    if length == 126 {
      if |data| < 4 {
        return More;
      }
      assert data[..4][2..] == data[2..4];
      length, offset := U16(data[2..4]), 4;
    } else if length == 127 {
      return Refused;
    }
    var maskBytes := if masked then 4 else 0;
    if |data| < offset + maskBytes + length {
      return More;
    }
    var payload := data[offset + maskBytes..offset + maskBytes + length];
    if masked {
      payload := MaskedCopy(payload, data[offset..offset + 4]);
    }
    return Got(Frame(true, Low4(first), masked, payload), offset + maskBytes + length);
  }

  lemma {:induction false} NextWholeSteady()
    ensures Steady(NextWhole)
  {
    NextSteady();
    forall b ensures Sized(NextWhole, b) {
      NextSized(b);
    }
    forall b, more ensures Stable(NextWhole, b, more) {
      assert Stable(Next, b, more);
    }
  }

  // ---------------------------------------------------------------- the HTTP/1.1 reader

  const LIMIT: nat := 0x10_0000

  datatype Taken = Error | Taken(fin: bool, rsv: nat, opcode: nat, masked: bool, payload: Bytes, octets: nat)

  /** The same stream with the reserved bits of its first octet cleared. */
  function WithoutRsv(s: Bytes): Bytes
    requires s != []
  {
    var first: nat := s[0];
    [first % 16 + if first >= 128 then 128 else 0] + s[1..]
  }

  lemma WithoutRsvParts(s: Bytes)
    requires |s| >= 2
    ensures var t := WithoutRsv(s);
            && |t| == |s| && Rsv(t[0]) == 0 && HighBit(t[0]) == HighBit(s[0]) && Low4(t[0]) == Low4(s[0])
            && t[1] == s[1] && t[1..] == s[1..]
  {
  }

  predicate Admissible(f: Frame, requireMask: bool)
  {
    && f.masked == requireMask && |f.payload| <= 0x10_0000
    && (f.opcode >= 8 ==> f.fin && |f.payload| <= 125)
  }

  /** What the HTTP/1.1 reader makes of a stream: reserved bits are reported, not refused. */
  function ReadOf(s: Bytes, requireMask: bool): Taken
  {
    if |s| < 2 then Error else Judged(Next(WithoutRsv(s)), Rsv(s[0]), requireMask)
  }

  function Judged(n: Step<Frame>, rsv: nat, requireMask: bool): Taken
  {
    if !n.Got? || !Admissible(n.item, requireMask) then Error
    else Taken(n.item.fin, rsv, n.item.opcode, n.item.masked, n.item.payload, n.consumed)
  }

  /** `readPayloadLength`: the length, and the octets it took. */
  method ReadPayloadLength(reader: ByteStream, encoded: nat) returns (r: Option<nat>, octets: nat)
    requires encoded < 128
    modifies reader
    ensures var w, s := octets, old(reader.rest);
            && w == (if encoded == 126 then 2 else if encoded == 127 then 8 else 0)
            && (r.Some? <==> |s| >= w && (w == 8 ==> FromBE(s[..8]) < 0x8000_0000_0000_0000))
            && (r.Some? ==> reader.rest == s[w..] && r.value == if w == 0 then encoded else FromBE(s[..w]))
  {
    if encoded == 126 {
      var value := reader.ReadFull(2);
      return if value.None? then None else Some(U16(value.value)), 2;
    } else if encoded == 127 {
      var value := reader.ReadFull(8);
      if value.None? {
        return None, 8;
      }
      var length := FromBE(value.value);
      return if length > 0x7fff_ffff_ffff_ffff then None else Some(length), 8;
    }
    return Some(encoded), 0;
  }

  /** What stands in front of mask and payload: two octets and the length. */
  datatype Head = Head(first: byte, second: byte, size: nat, length: nat)

  function HeadOf(s: Bytes): Option<Head>
  {
    if |s| < 2 || |s| < HeaderSize(s[1]) then None
    else Some(Head(s[0], s[1], HeaderSize(s[1]), PayloadSize(s[..HeaderSize(s[1])])))
  }

  /** What the head and the rest of the stream make. */
  function FrameBehind(s: Bytes, head: Head, requireMask: bool): Taken
  {
    var masked, fin, opcode := HighBit(head.second), HighBit(head.first), Low4(head.first);
    var k, n := head.size + KeySize(head.second), head.length;
    if masked != requireMask || n > LIMIT || |s| < k + n || (opcode >= 8 && (!fin || n > 125)) then Error
    else
      Taken(fin, Rsv(head.first), opcode, masked,
            if masked then Mask(s[head.size..k], s[k..k + n]) else s[k..k + n], k + n)
  }

  lemma BehindFirst(s: Bytes, i: nat, j: nat)
    requires |s| >= 2 && 1 <= i <= j <= |s|
    ensures WithoutRsv(s)[i..j] == s[i..j]
  {
  }

  lemma HeadsAgree(s: Bytes, t: Bytes)
    requires |s| >= 2 && t == WithoutRsv(s)
    ensures HeadOf(t).Some? <==> HeadOf(s).Some?
    ensures HeadOf(s).Some? ==> HeadOf(t) == Some(HeadOf(s).value.(first := t[0]))
  {
    WithoutRsvParts(s);
    var h := HeaderSize(s[1]);
    if |s| >= h {
      BehindFirst(s, 2, h);
      assert t[..h][2..] == t[2..h] && s[..h][2..] == s[2..h];
    }
  }

  /** The octets of a frame with this head. */
  function Extent(head: Head): nat { head.size + KeySize(head.second) + head.length }

  /** The frame that stands behind a head, in a stream long enough. */
  function FrameAt(t: Bytes, head: Head): Frame
    requires |t| >= Extent(head)
  {
    var masked, k := HighBit(head.second), head.size + KeySize(head.second);
    var raw := t[k..k + head.length];
    Frame(HighBit(head.first), Low4(head.first), masked, if masked then Mask(t[head.size..k], raw) else raw)
  }

  /** The first frame of a stream, by its head. */
  lemma NextByHead(t: Bytes)
    requires |t| >= 2 && Rsv(t[0]) == 0
    ensures HeadOf(t).None? ==> Next(t) == More
    ensures HeadOf(t).Some? ==>
              var head := HeadOf(t).value;
              Next(t) == if |t| < Extent(head) then More else Got(FrameAt(t, head), Extent(head))
  {
    var h := HeaderSize(t[1]);
    if |t| >= h {
      var k, n := h + KeySize(t[1]), PayloadSize(t[..h]);
      if |t| >= k + n {
        assert Next(t) == Got(Unpack(t[..h], t[h..k], t[k..k + n]), k + n);
      }
    }
  }

  lemma SameFrameAt(s: Bytes, t: Bytes, head: Head)
    requires |s| >= 2 && t == WithoutRsv(s) && |t| == |s| >= Extent(head) && head.size >= 1 && head.first == s[0]
    ensures FrameAt(t, head.(first := t[0])) == FrameAt(s, head)
  {
    WithoutRsvParts(s);
    var h, k, n := head.size, head.size + KeySize(head.second), head.length;
    BehindFirst(s, h, k);
    BehindFirst(s, k, k + n);
  }

  lemma JudgedBehind(s: Bytes, head: Head, requireMask: bool)
    ensures var n := if |s| < Extent(head) then More else Got(FrameAt(s, head), Extent(head));
            Judged(n, Rsv(head.first), requireMask) == FrameBehind(s, head, requireMask)
  {
  }

  lemma ReadWithHead(s: Bytes, t: Bytes, requireMask: bool)
    requires |s| >= 2 && t == WithoutRsv(s) && HeadOf(s).Some?
    ensures Judged(Next(t), Rsv(s[0]), requireMask) == FrameBehind(s, HeadOf(s).value, requireMask)
  {
    WithoutRsvParts(s);
    var head := HeadOf(s).value;
    assert Next(t) == if |s| < Extent(head) then More else Got(FrameAt(s, head), Extent(head)) by {
      HeadsAgree(s, t);
      NextByHead(t);
      if |s| >= Extent(head) {
        SameFrameAt(s, t, head);
      }
    }
    JudgedBehind(s, head, requireMask);
  }

  lemma ReadByHead(s: Bytes, requireMask: bool)
    ensures ReadOf(s, requireMask) ==
            if HeadOf(s).None? then Error else FrameBehind(s, HeadOf(s).value, requireMask)
  {
    if |s| >= 2 {
      var t := WithoutRsv(s);
      WithoutRsvParts(s);
      if HeadOf(s).Some? {
        ReadWithHead(s, t, requireMask);
      } else {
        HeadsAgree(s, t);
        NextByHead(t);
      }
    }
  }

  lemma Behind(s: Bytes, o: nat, n: nat)
    requires o + n <= |s|
    ensures s[o..][..n] == s[o..o + n] && s[o..][n..] == s[o + n..]
  {
  }

  lemma LengthBehind(s: Bytes, w: nat)
    requires |s| >= 2 + w
    ensures s[2..][..w] == s[..2 + w][2..] && s[2..][w..] == s[2 + w..]
  {
  }

  lemma NotBehind(s: Bytes)
    requires |s| >= 10 && HeaderSize(s[1]) == 10 && FromBE(s[2..][..8]) > LIMIT
    ensures HeadOf(s).Some? && HeadOf(s).value.length > LIMIT
  {
    LengthBehind(s, 8);
  }

  /** `readFrame` of the HTTP/1.1 pair up to the length, which includes the mask direction. */
  method TakeHead(reader: ByteStream, requireMask: bool) returns (r: Option<Head>)
    modifies reader
    ensures var s := old(reader.rest);
            if r.Some? then
              && HeadOf(s) == r && HighBit(r.value.second) == requireMask
              && r.value.size <= |s| && reader.rest == s[r.value.size..]
            else HeadOf(s).None? || FrameBehind(s, HeadOf(s).value, requireMask) == Error
  {
    ghost var s := reader.rest;
    var header := reader.ReadFull(2);
    if header.None? {
      return None;
    }
    var first, second := header.value[0], header.value[1];
    if HighBit(second) != requireMask {
      return None;
    }
    var length, octets := ReadPayloadLength(reader, Low7(second));
    if length.None? {
      if |s| >= 10 && HeaderSize(second) == 10 {
        NotBehind(s);
      }
      return None;
    }
    LengthBehind(s, octets);
    return Some(Head(first, second, 2 + octets, length.value));
  }

  /** And behind it: mask, payload, unmasking in place, and the rules for control frames. */
  method TakeBody(reader: ByteStream, head: Head, requireMask: bool, ghost s: Bytes) returns (r: Taken)
    requires head.size <= |s| && reader.rest == s[head.size..] && HighBit(head.second) == requireMask
    modifies reader
    ensures r == FrameBehind(s, head, requireMask)
    ensures r.Taken? ==> r.octets <= |s| && reader.rest == s[r.octets..]
  {
    var octets, length := head.size, head.length;
    if length > LIMIT {
      return Error;
    }
    var mask: Bytes := [0, 0, 0, 0];
    if requireMask {
      var m := reader.ReadFull(4);
      if m.None? {
        return Error;
      }
      Behind(s, octets, 4);
      mask := m.value;
      octets := octets + 4;
    }
    var raw := reader.ReadFull(length);
    if raw.None? {
      return Error;
    }
    Behind(s, octets, length);
    octets := octets + length;
    var payload := raw.value;
    if requireMask {
      payload := MaskedCopy(payload, mask);
    }
    var fin, opcode := HighBit(head.first), Low4(head.first);
    if opcode >= 8 && (!fin || |payload| > 125) {
      return Error;
    }
    return Taken(fin, Rsv(head.first), opcode, requireMask, payload, octets);
  }

  /** `readFrame`, with the executor's count of octets, in terms of the codec of the Python peers. */
  method ReadFrame(reader: ByteStream, requireMask: bool) returns (r: Taken)
    modifies reader
    ensures r == ReadOf(old(reader.rest), requireMask)
    ensures r.Taken? ==> r.octets <= |old(reader.rest)| && reader.rest == old(reader.rest)[r.octets..]
  {
    ghost var s := reader.rest;
    ReadByHead(s, requireMask);
    var head := TakeHead(reader, requireMask);
    if head.None? {
      return Error;
    }
    r := TakeBody(reader, head.value, requireMask, s);
  }

  // ---------------------------------------------------------------- the codecs together

  /** Frames every codec carries: up to 65535 octets, control frames up to 125. */
  predicate Common(opcode: byte, payload: Bytes)
  {
    opcode < 16 && |payload| <= 65535 && (opcode >= 8 ==> |payload| <= 125)
  }

  /**
   On the frames every codec carries, from the executors to the servers: the three masked
   writers agree octet for octet, and the three readers take the same frame off the front
   of whatever follows.
   */
  lemma {:induction false} MaskedInterop(opcode: byte, payload: Bytes, key: Bytes, tail: Bytes)
    requires Common(opcode, payload) && |key| == 4
    ensures |payload| < Pow256(8)
    ensures var wire := ClientWriteFrame(opcode, payload, true, true, key);
            && MaskedFrame(opcode, payload, key) == wire
            && Next(wire + tail) == Got(Frame(true, opcode, true, payload), |wire|)
            && NextWhole(wire + tail) == Got(Frame(true, opcode, true, payload), |wire|)
            && ReadOf(wire + tail, true) == Taken(true, 0, opcode, true, payload, |wire|)
  {
    MaskedFrameIsEncode(opcode, payload, key);
    FrontOfEncode(opcode, Some(key), payload, tail);
  }

  /** And from the servers back. */
  lemma {:induction false} UnmaskedInterop(opcode: byte, payload: Bytes, tail: Bytes)
    requires Common(opcode, payload)
    ensures |payload| < Pow256(8)
    ensures var wire := ServerWriteFrame(opcode, payload, true);
            && Next(wire + tail) == Got(Frame(true, opcode, false, payload), |wire|)
            && NextWhole(wire + tail) == Got(Frame(true, opcode, false, payload), |wire|)
            && ReadOf(wire + tail, false) == Taken(true, 0, opcode, false, payload, |wire|)
  {
    WritableSize(|payload|);
    FrontOfEncode(opcode, None, payload, tail);
  }

  lemma EncodeOpens(opcode: byte, key: Option<Bytes>, payload: Bytes, tail: Bytes)
    requires Common(opcode, payload) && |payload| < Pow256(8) && (key.Some? ==> |key.value| == 4)
    ensures var s := Encode(true, opcode, key, payload) + tail;
            |s| >= 2 && HighBit(s[0]) && Rsv(s[0]) == 0 && Low7(s[1]) != 127
  {
    var h := Header(true, opcode, |payload|, key.Some?);
    HeaderParts(true, opcode, |payload|, key.Some?);
    assert Low7(h[1]) != 127;
  }

  lemma NothingToClear(s: Bytes)
    requires |s| >= 2 && Rsv(s[0]) == 0
    ensures WithoutRsv(s) == s
  {
    assert s == [s[0]] + s[1..];
  }

  lemma FrontOfEncode(opcode: byte, key: Option<Bytes>, payload: Bytes, tail: Bytes)
    requires Common(opcode, payload) && |payload| < Pow256(8) && (key.Some? ==> |key.value| == 4)
    ensures var wire := Encode(true, opcode, key, payload);
            && Next(wire + tail) == Got(Frame(true, opcode, key.Some?, payload), |wire|)
            && NextWhole(wire + tail) == Next(wire + tail)
            && ReadOf(wire + tail, key.Some?) == Taken(true, 0, opcode, key.Some?, payload, |wire|)
  {
    NextOfEncode(true, opcode, key, payload, tail);
    EncodeOpens(opcode, key, payload, tail);
    NothingToClear(Encode(true, opcode, key, payload) + tail);
  }

  // ---------------------------------------------------------------- what the readers turn down

  lemma {:induction false} WireOpens(fin: bool, opcode: byte, key: Option<Bytes>, payload: Bytes, tail: Bytes)
    requires opcode < 16 && |payload| < Pow256(8) && (key.Some? ==> |key.value| == 4)
    ensures var s := Encode(fin, opcode, key, payload) + tail;
            && |s| >= 2 && Rsv(s[0]) == 0 && HighBit(s[0]) == fin
            && (Low7(s[1]) == 127 <==> |payload| > 65535)
  {
    var h := Header(fin, opcode, |payload|, key.Some?);
    HeaderParts(fin, opcode, |payload|, key.Some?);
    assert h[1] == LengthField(|payload|, key.Some?)[0];
  }

  /**
   Of all frames anybody can write, the HTTP/1.1 reader takes exactly those masked the way it
   requires, of at most 2^20 octets and, if they are control frames, whole and of at most 125.
   */
  lemma {:induction false} ReadsExactly(fin: bool, opcode: byte, key: Option<Bytes>, payload: Bytes,
                                        requireMask: bool, tail: Bytes)
    requires opcode < 16 && |payload| < Pow256(8) && (key.Some? ==> |key.value| == 4)
    ensures var wire := Encode(fin, opcode, key, payload);
            ReadOf(wire + tail, requireMask) ==
              if key.Some? == requireMask && |payload| <= 0x10_0000 && (opcode >= 8 ==> fin && |payload| <= 125)
              then Taken(fin, 0, opcode, requireMask, payload, |wire|) else Error
  {
    NextOfEncode(fin, opcode, key, payload, tail);
    WireOpens(fin, opcode, key, payload, tail);
    NothingToClear(Encode(fin, opcode, key, payload) + tail);
  }

  /** The HTTP/2 parser takes exactly the whole frames of at most 65535 octets, and refuses all others. */
  lemma {:induction false} ParsesExactly(fin: bool, opcode: byte, key: Option<Bytes>, payload: Bytes, tail: Bytes)
    requires opcode < 16 && |payload| < Pow256(8) && (key.Some? ==> |key.value| == 4)
    ensures var wire := Encode(fin, opcode, key, payload);
            NextWhole(wire + tail) ==
              if fin && |payload| <= 65535 then Got(Frame(true, opcode, key.Some?, payload), |wire|) else Refused
  {
    NextOfEncode(fin, opcode, key, payload, tail);
    WireOpens(fin, opcode, key, payload, tail);
  }
}
