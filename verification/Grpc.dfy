/**
 Length-prefixed gRPC messages without compression: the streaming handlers of the server,
 the response reader of the executor, and both together.
 */
module Grpc {
  import opened Octets
  import opened Streams
  import opened Protobuf

  // ---------------------------------------------------------------- frames

  /** `encodeFrame` for identity: flag 0, the length modulo 2^32, the message. */
  function FrameOf(message: Bytes): Bytes { [0] + ToBE(|message|, 4) + message }

  datatype Envelope = Envelope(protobuf: Bytes, payload: Bytes)

  /** `decodeFrame` for identity */
  function DecodeFrame(frame: Bytes): Option<Envelope>
  {
    if |frame| < 5 || FromBE(frame[1..5]) != |frame| - 5 || frame[0] != 0 then None
    else
      var payload := Decoded(frame[5..]);
      if payload.None? then None else Some(Envelope(frame[5..], payload.value))
  }

  /** The prefix tells the length. */
  predicate Framed(f: Bytes) { |f| >= 5 && FromBE(f[1..5]) == |f| - 5 }

  lemma FrameParts(message: Bytes)
    ensures var f := FrameOf(message);
            && |f| == 5 + |message| && f[0] == 0 && f[5..] == message && f[1..5] == ToBE(|message|, 4)
  {
  }

  /** The octets of a frame: flag 0, the length modulo 2^32 with its highest octet first, the message. */
  lemma {:induction false} FrameOctets(message: Bytes)
    ensures var f, n := FrameOf(message), |message|;
            && |f| == 5 + n && f[0] == 0 && f[5..] == message
            && f[1..5] == [n / 0x100_0000 % 256, n / 0x1_0000 % 256, n / 0x100 % 256, n % 256]
  {
    FrameParts(message);
    FourOctets(|message|);
  }

  lemma FourOctets(n: nat)
    ensures ToBE(n, 4) == [n / 0x100_0000 % 256, n / 0x1_0000 % 256, n / 0x100 % 256, n % 256]
  {
    assert n / 256 / 256 == n / 0x1_0000 && n / 256 / 256 / 256 == n / 0x100_0000;
    assert ToBE(n / 0x100_0000, 1) == ToBE(n / 0x100_0000 / 256, 0) + [n / 0x100_0000 % 256];
    assert ToBE(n / 0x1_0000, 2) == ToBE(n / 0x100_0000, 1) + [n / 0x1_0000 % 256];
    assert ToBE(n / 0x100, 3) == ToBE(n / 0x1_0000, 2) + [n / 0x100 % 256];
  }

  lemma FrameFromParts(f: Bytes)
    requires |f| >= 5 && f[0] == 0 && FromBE(f[1..5]) == |f| - 5
    ensures f == FrameOf(f[5..])
  {
    ToFromBE(f[1..5]);
    assert f == [f[0]] + f[1..5] + f[5..];
  }

  lemma PrefixHolds(n: nat)
    ensures FromBE(ToBE(n, 4)) == n <==> n < 0x1_0000_0000
  {
    Widths();
    if n < 0x1_0000_0000 {
      FromToBE(n, 4);
    }
    assert FromBE(ToBE(n, 4)) < Pow256(4);
  }

  /** A payload comes back from its frame exactly when the 32-bit prefix can hold its length. */
  lemma {:induction false} FrameRoundTrip(payload: Bytes)
    requires |payload| < TWO_63
    ensures DecodeFrame(FrameOf(Encoded(payload))) == Some(Envelope(Encoded(payload), payload)) <==>
            |Encoded(payload)| < 0x1_0000_0000
  {
    FrameParts(Encoded(payload));
    PrefixHolds(|Encoded(payload)|);
    DecodeUndoesEncode(payload);
  }

  /** The frame of a payload is the only one that decodes to it with the canonical length. */
  lemma {:induction false} OnlyCanonicalFrame(frame: Bytes, payload: Bytes)
    requires |Encoded(payload)| < 0x1_0000_0000
    ensures (DecodeFrame(frame).Some? && DecodeFrame(frame).value.payload == payload
             && |DecodeFrame(frame).value.protobuf| == |Encoded(payload)|)
            <==> frame == FrameOf(Encoded(payload))
  {
    FrameRoundTrip(payload);
    if DecodeFrame(frame).Some? && |frame| == 5 + |Encoded(payload)| && Decoded(frame[5..]) == Some(payload) {
      CanonicalExactlyWhenSameLength(frame[5..]);
      FrameFromParts(frame);
    }
  }

  // ---------------------------------------------------------------- streams of frames

  /** What frames of one size in front of a stream satisfy a test, up to `n` of them. */
  datatype Lead = Lead(count: nat, rest: Bytes)

  function Leading(good: Bytes -> bool, size: nat, s: Bytes, n: nat): (l: Lead)
    ensures l.count <= n
    decreases n
  {
    if n == 0 || |s| < size || !good(s[..size]) then Lead(0, s)
    else
      var l := Leading(good, size, s[size..], n - 1);
      Lead(l.count + 1, l.rest)
  }

  /** After `index` good frames, `rest` holds what is left of `all`. */
  predicate Ahead(good: Bytes -> bool, size: nat, all: Lead, rest: Bytes, index: nat, n: nat)
  {
    index <= n &&
    var l := Leading(good, size, rest, n - index);
    all.count == index + l.count && all.rest == l.rest
  }

  lemma AheadSteps(good: Bytes -> bool, size: nat, all: Lead, rest: Bytes, index: nat, n: nat)
    requires Ahead(good, size, all, rest, index, n)
    ensures index < n && |rest| >= size && good(rest[..size]) ==> Ahead(good, size, all, rest[size..], index + 1, n)
    ensures index == n || |rest| < size || !good(rest[..size]) ==> all == Lead(index, rest)
  {
  }

  function Copies(c: Bytes, n: nat): Bytes
  {
    if n == 0 then [] else c + Copies(c, n - 1)
  }

  predicate Starts(c: Bytes, s: Bytes) { |c| <= |s| && s[..|c|] == c }

  /**
   Counting the copies of `c` in front: the stream holds that many, not one more unless the
   count is full, and what is behind them is left.
   */
  lemma {:induction false} LeadingCopies(good: Bytes -> bool, c: Bytes, s: Bytes, n: nat)
    requires forall f :: |f| == |c| ==> (good(f) <==> f == c)
    ensures var l := Leading(good, |c|, s, n);
            && s == Copies(c, l.count) + l.rest
            && (l.count < n ==> !Starts(c, l.rest))
            && (l.count == n && l.rest == [] <==> s == Copies(c, n))
    decreases n
  {
    if n == 0 {
    } else if Starts(c, s) {
      var tail := s[|c|..];
      LeadingCopies(good, c, tail, n - 1);
      var l := Leading(good, |c|, tail, n - 1);
      assert s == c + tail;
      Assoc(c, Copies(c, l.count), l.rest);
      if s == Copies(c, n) {
        assert tail == Copies(c, n - 1);
      }
    } else {
      assert Copies(c, n)[..|c|] == c;
    }
  }

  // ---------------------------------------------------------------- the server

  const MAX_FRAME_BYTES: nat := 1048585

  /** The trailers of a response; a handler whose write fails returns without setting them. */
  datatype Status = Ok | InvalidArgument | Unset

  function Min(a: nat, b: nat): nat { if a < b then a else b }

  /** A frame `readIdentityFrame` takes off the stream. */
  datatype Received = Refused | Received(frame: Bytes, protobuf: Bytes, payload: Bytes)

  /** A frame taken is a frame in front; none is taken only if none is in front. */
  ghost predicate TakenOff(s: Bytes, r: Received)
  {
    if r.Received? then
      && Starts(r.frame, s) && |r.frame| <= MAX_FRAME_BYTES
      && DecodeFrame(r.frame) == Some(Envelope(r.protobuf, r.payload))
    else
      forall f :: Starts(f, s) && |f| <= MAX_FRAME_BYTES ==> DecodeFrame(f).None?
  }

  /** Two frames in front of one stream are one frame. */
  lemma OneFrontFrame(f: Bytes, g: Bytes, s: Bytes)
    ensures Starts(f, s) && Starts(g, s) && Framed(f) && Framed(g) ==> f == g
  {
    if Starts(f, s) && Starts(g, s) && Framed(f) && Framed(g) {
      assert f[1..5] == s[1..5] && g[1..5] == s[1..5];
    }
  }

  lemma OnlyFrame(s: Bytes, frame: Bytes)
    requires Starts(frame, s) && Framed(frame) && DecodeFrame(frame).None?
    ensures TakenOff(s, Refused)
  {
    forall f | Starts(f, s) && |f| <= MAX_FRAME_BYTES ensures DecodeFrame(f).None? {
      OneFrontFrame(f, frame, s);
    }
  }

  /** A header whose flag or length is refused, or whose message is cut short. */
  lemma HeaderRefused(s: Bytes)
    requires |s| < 5 || s[0] != 0 || FromBE(s[1..5]) > MAX_FRAME_BYTES - 5 || FromBE(s[1..5]) > |s| - 5
    ensures TakenOff(s, Refused)
  {
    forall f | Starts(f, s) && |f| <= MAX_FRAME_BYTES ensures DecodeFrame(f).None? {
      if |f| >= 5 {
        assert f[0] == s[0] && f[1..5] == s[1..5];
      }
    }
  }

  /** `readIdentityFrame` */
  method ReadIdentityFrame(body: ByteStream) returns (r: Received)
    modifies body
    ensures TakenOff(old(body.rest), r)
    ensures r.Received? ==> body.rest == old(body.rest)[|r.frame|..]
  {
    ghost var s := body.rest;
    var header := body.ReadFull(5);
    if header.None? {
      HeaderRefused(s);
      return Refused;
    }
    if header.value[0] != 0 {
      HeaderRefused(s);
      return Refused;
    }
    assert header.value[1..] == s[1..5];
    var length := FromBE(header.value[1..]);
    if length > MAX_FRAME_BYTES - 5 {
      HeaderRefused(s);
      return Refused;
    }
    var protobuf := body.ReadFull(length);
    if protobuf.None? {
      HeaderRefused(s);
      return Refused;
    }
    assert protobuf.value == s[5..5 + length];
    var payload := DecodeProtobuf(protobuf.value);
    var frame := header.value + protobuf.value;
    assert frame == s[..5 + length] && frame[5..] == protobuf.value && frame[1..5] == s[1..5];
    if payload.None? {
      OnlyFrame(s, frame);
      return Refused;
    }
    assert s[5..][length..] == s[5 + length..];
    return Received(frame, protobuf.value, payload.value);
  }

  /** `validStreamingPayload` and each case of `validScenarioPayload`, for the expected payload */
  predicate ValidPayload(expected: Bytes, payload: Bytes, protobuf: Bytes)
  {
    payload == expected && |protobuf| == |Encoded(expected)|
  }

  /** The payloads the server can be asked for: their frames are not too long. */
  predicate Streamable(expected: Bytes) { |Encoded(expected)| <= MAX_FRAME_BYTES - 5 }

  /** A request is right exactly when the canonical frame is in front. */
  lemma RightRequest(s: Bytes, expected: Bytes, r: Received)
    requires Streamable(expected) && TakenOff(s, r)
    ensures var c := FrameOf(Encoded(expected));
            && (Starts(c, s) <==> r.Received? && ValidPayload(expected, r.payload, r.protobuf))
            && (Starts(c, s) ==> r.frame == c)
  {
    var c := FrameOf(Encoded(expected));
    OnlyCanonicalFrame(c, expected);
    FrameParts(Encoded(expected));
    if r.Received? {
      OnlyCanonicalFrame(r.frame, expected);
      OneFrontFrame(c, r.frame, s);
    }
  }

  /** Reading and checking one request; `c` is the canonical frame. */
  method ReadRequest(body: ByteStream, expected: Bytes, ghost c: Bytes) returns (r: Option<Bytes>)
    requires Streamable(expected) && c == FrameOf(Encoded(expected))
    modifies body
    ensures if Starts(c, old(body.rest)) then r == Some(c) && body.rest == old(body.rest)[|c|..] else r == None
  {
    ghost var s := body.rest;
    var got := ReadIdentityFrame(body);
    RightRequest(s, expected, got);
    if got.Refused? || !ValidPayload(expected, got.payload, got.protobuf) {
      return None;
    }
    return Some(got.frame);
  }

  function IsFrame(c: Bytes): Bytes -> bool { (f: Bytes) => f == c }

  /**
   `handleBidirectionalStreaming`: the server writes back the canonical frames in front of
   the request, at once and up to `n`, and reports success exactly when the request is `n`
   of them and its end.  The client takes `room` writes; the next one fails, and with it the
   handler.  The response header is written once.
   */
  method HandleBidirectional(body: ByteStream, n: nat, room: nat, expected: Bytes, ghost c: Bytes)
    returns (written: seq<Bytes>, status: Status, headers: nat)
    requires Streamable(expected) && c == FrameOf(Encoded(expected))
    modifies body
    ensures var good := Leading(IsFrame(c), |c|, old(body.rest), n).count;
            && |written| == Min(good, room)
            && (status == Unset <==> room < good)
            && (status == Ok <==> room >= n && old(body.rest) == Copies(c, n))
    ensures Concat(written) == Copies(c, |written|)
    ensures headers == if n == 0 then 0 else 1
  {
    ghost var s := body.rest;
    ghost var all := Leading(IsFrame(c), |c|, s, n);
    LeadingCopies(IsFrame(c), c, s, n);
    written, headers := [], 0;
    for index := 0 to n
      invariant |written| == index <= room && Concat(written) == Copies(c, index)
      invariant headers == if index == 0 then 0 else 1
      invariant Ahead(IsFrame(c), |c|, all, body.rest, index, n)
    {
      AheadSteps(IsFrame(c), |c|, all, body.rest, index, n);
      var frame := ReadRequest(body, expected, c);
      if frame.None? {
        if headers == 0 {
          headers := headers + 1;
        }
        return written, InvalidArgument, headers;
      }
      if headers == 0 {
        headers := headers + 1;
      }
      if index == room {
        return written, Unset, headers;
      }
      ConcatSnoc(written, c);
      CopiesSnoc(c, index);
      written := written + [frame.value];
    }
    AheadSteps(IsFrame(c), |c|, all, body.rest, n, n);
    var extra := body.ReadExtra();
    status := if extra then InvalidArgument else Ok;
  }

  lemma {:induction false} CopiesSnoc(c: Bytes, n: nat)
    ensures Copies(c, n + 1) == Copies(c, n) + c
  {
    if n == 0 {
      Empty(c);
    } else {
      CopiesSnoc(c, n - 1);
      Assoc(c, Copies(c, n - 1), c);
    }
  }

  /**
   `handleStreaming` for the other two methods: one request and `n` responses, or `n` requests
   and one response.  Nothing is written unless the whole request is right; the client takes
   `room` writes.
   */
  method HandleStreaming(body: ByteStream, serverStreaming: bool, n: nat, room: nat, expected: Bytes)
    returns (written: seq<Bytes>, status: Status)
    requires Streamable(expected) && n > 0
    modifies body
    ensures var c, s, r := FrameOf(Encoded(expected)), old(body.rest), if serverStreaming then n else 1;
            var right := s == Copies(c, if serverStreaming then 1 else n);
            && Concat(written) == (if right then Copies(c, Min(r, room)) else [])
            && status == if !right then InvalidArgument else if room < r then Unset else Ok
  {
    ghost var c := FrameOf(Encoded(expected));
    var frames := ReadRequests(body, if serverStreaming then 1 else n, expected, c);
    if frames.None? {
      return [], InvalidArgument;
    }
    written, status := WriteResponses(frames.value, serverStreaming, n, room, c);
  }

  /** The requests and the half-close behind them. */
  method ReadRequests(body: ByteStream, n: nat, expected: Bytes, ghost c: Bytes) returns (r: Option<seq<Bytes>>)
    requires Streamable(expected) && c == FrameOf(Encoded(expected))
    modifies body
    ensures r.Some? <==> old(body.rest) == Copies(c, n)
    ensures r.Some? ==> |r.value| == n && forall f :: f in r.value ==> f == c
  {
    ghost var s := body.rest;
    ghost var all := Leading(IsFrame(c), |c|, s, n);
    LeadingCopies(IsFrame(c), c, s, n);
    var frames := [];
    for index := 0 to n
      invariant |frames| == index && forall f :: f in frames ==> f == c
      invariant Ahead(IsFrame(c), |c|, all, body.rest, index, n)
    {
      AheadSteps(IsFrame(c), |c|, all, body.rest, index, n);
      var frame := ReadRequest(body, expected, c);
      if frame.None? {
        return None;
      }
      frames := frames + [frame.value];
    }
    AheadSteps(IsFrame(c), |c|, all, body.rest, n, n);
    var extra := body.ReadExtra();
    return if extra then None else Some(frames);
  }

  method WriteResponses(frames: seq<Bytes>, serverStreaming: bool, n: nat, room: nat, ghost c: Bytes)
    returns (written: seq<Bytes>, status: Status)
    requires frames != [] && forall f :: f in frames ==> f == c
    ensures var r := if serverStreaming then n else 1;
            Concat(written) == Copies(c, Min(r, room)) && status == if room < r then Unset else Ok
  {
    written := [];
    assert frames[0] in frames && frames[|frames| - 1] in frames;
    if serverStreaming {
      for index := 0 to n
        invariant index <= room && Concat(written) == Copies(c, index)
      {
        if index == room {
          return written, Unset;
        }
        ConcatSnoc(written, c);
        CopiesSnoc(c, index);
        written := written + [frames[0]];
      }
    } else {
      if room == 0 {
        return written, Unset;
      }
      ConcatSnoc([], c);
      CopiesSnoc(c, 0);
      written := written + [frames[|frames| - 1]];
    }
    status := Ok;
  }

  // ---------------------------------------------------------------- the executor

  const MAX_RESPONSE: nat := 0x20_0000

  /** `scenarioSpec`: the hashes are `sha256Hex`, which is a parameter here. */
  datatype Spec = Spec(payload: Bytes, payloadHash: Bytes, protobufHash: Bytes, frameHash: Bytes,
                       protobufBytes: nat, frameBytes: nat, responseCount: nat)

  function SpecFor(hash: Bytes -> Bytes, payload: Bytes, responses: nat): Spec
  {
    var protobuf := Encoded(payload);
    var frame := FrameOf(protobuf);
    Spec(payload, hash(payload), hash(protobuf), hash(frame), |protobuf|, |frame|, responses)
  }

  /** `validateResponseFrame` for identity */
  predicate Passes(hash: Bytes -> Bytes, spec: Spec, frame: Bytes)
  {
    var e := DecodeFrame(frame);
    && e.Some?
    && |e.value.payload| == |spec.payload| && hash(e.value.payload) == spec.payloadHash
    && |e.value.protobuf| == spec.protobufBytes && hash(e.value.protobuf) == spec.protobufHash
    && |frame| == spec.frameBytes && hash(frame) == spec.frameHash
  }

  /** A frame that passes is the canonical frame of a payload of the same length and digests. */
  lemma {:induction false} PassesOnlyTwins(hash: Bytes -> Bytes, payload: Bytes, n: nat, frame: Bytes)
    requires |Encoded(payload)| < 0x1_0000_0000
    ensures Passes(hash, SpecFor(hash, payload, n), frame) <==>
            exists twin :: Twin(hash, payload, twin) && frame == FrameOf(Encoded(twin))
  {
    var spec := SpecFor(hash, payload, n);
    if Passes(hash, spec, frame) {
      var twin := DecodeFrame(frame).value.payload;
      SameLengths(payload, twin);
      OnlyCanonicalFrame(frame, twin);
      assert Twin(hash, payload, twin);
    }
    forall twin | Twin(hash, payload, twin) && frame == FrameOf(Encoded(twin)) ensures Passes(hash, spec, frame) {
      SameLengths(payload, twin);
      OnlyCanonicalFrame(frame, twin);
    }
  }

  lemma SameLengths(a: Bytes, b: Bytes)
    requires |a| == |b|
    ensures |Encoded(a)| == |Encoded(b)|
  {
  }

  ghost predicate Twin(hash: Bytes -> Bytes, payload: Bytes, twin: Bytes)
  {
    && |twin| == |payload| && hash(twin) == hash(payload)
    && hash(Encoded(twin)) == hash(Encoded(payload))
    && hash(FrameOf(Encoded(twin))) == hash(FrameOf(Encoded(payload)))
  }

  /** No other payload of this length has the same digests. */
  ghost predicate Distinguishes(hash: Bytes -> Bytes, payload: Bytes)
  {
    forall twin :: Twin(hash, payload, twin) ==> twin == payload
  }

  function Passing(hash: Bytes -> Bytes, spec: Spec): Bytes -> bool
  {
    (f: Bytes) => |f| - 5 <= MAX_RESPONSE && Passes(hash, spec, f)
  }

  /** What passes `check` has the announced size, which is `size`. */
  ghost predicate Sizes(check: Bytes -> bool, size: nat)
  {
    forall f :: check(f) ==> Framed(f) && |f| == size <= MAX_RESPONSE + 5
  }

  /** A frame in front that passes is the one the header announces. */
  lemma AnnouncedFrame(check: Bytes -> bool, size: nat, s: Bytes)
    requires Sizes(check, size)
    ensures |s| >= size && check(s[..size]) ==>
              |s| >= 5 && size == 5 + FromBE(s[1..5]) && FromBE(s[1..5]) <= MAX_RESPONSE
  {
    if |s| >= size && check(s[..size]) {
      assert s[..size][1..5] == s[1..5];
    }
  }

  /** One response: the frame in front, if it passes. */
  method ReadResponse(body: ByteStream, check: Bytes -> bool, ghost size: nat) returns (r: Option<Bytes>)
    requires Sizes(check, size)
    modifies body
    ensures r.Some? <==> |old(body.rest)| >= size && check(old(body.rest)[..size])
    ensures r.Some? ==> r.value == old(body.rest)[..size] && body.rest == old(body.rest)[size..]
  {
    ghost var s := body.rest;
    AnnouncedFrame(check, size, s);
    var header := body.ReadFull(5);
    if header.None? {
      return None;
    }
    assert header.value[1..] == s[1..5];
    var length := FromBE(header.value[1..]);
    if length > MAX_RESPONSE {
      return None;
    }
    var message := body.ReadFull(length);
    if message.None? {
      return None;
    }
    var frame := header.value + message.value;
    assert frame == s[..5 + length];
    assert s[5..][length..] == s[5 + length..];
    if !check(frame) {
      return None;
    }
    return Some(frame);
  }

  /** The frames in front that pass `check`, and whether nothing is behind the last. */
  method ReadFrames(body: ByteStream, check: Bytes -> bool, ghost size: nat, n: nat)
    returns (aggregate: Bytes, count: nat, passed: bool)
    requires Sizes(check, size)
    modifies body
    ensures var s, l := old(body.rest), Leading(check, size, old(body.rest), n);
            && count == l.count && s == aggregate + l.rest
            && (passed <==> l.count == n && l.rest == [])
  {
    ghost var s := body.rest;
    ghost var all := Leading(check, size, s, n);
    aggregate := [];
    for index := 0 to n
      invariant s == aggregate + body.rest
      invariant Ahead(check, size, all, body.rest, index, n)
    {
      ghost var rest := body.rest;
      AheadSteps(check, size, all, rest, index, n);
      var frame := ReadResponse(body, check, size);
      if frame.None? {
        return aggregate, index, false;
      }
      SplitAt(aggregate, rest, size);
      aggregate := aggregate + frame.value;
    }
    AheadSteps(check, size, all, body.rest, n, n);
    var extra := body.ReadExtra();
    return aggregate, n, !extra;
  }

  /** `readAndValidateResponseFrames`: the passing frames in front, and the end behind the last. */
  method ReadAndValidate(body: ByteStream, hash: Bytes -> Bytes, spec: Spec)
    returns (aggregate: Bytes, count: nat, passed: bool)
    modifies body
    ensures var s := old(body.rest);
            var l := Leading(Passing(hash, spec), spec.frameBytes, s, spec.responseCount);
            && count == l.count && s == aggregate + l.rest
            && (passed <==> l.count == spec.responseCount && l.rest == [])
  {
    aggregate, count, passed := ReadFrames(body, Passing(hash, spec), spec.frameBytes, spec.responseCount);
  }

  /** With digests that distinguish the payload, only the canonical frame passes. */
  lemma PassingIsCanonical(hash: Bytes -> Bytes, payload: Bytes, n: nat, f: Bytes)
    requires |Encoded(payload)| <= MAX_RESPONSE && Distinguishes(hash, payload)
    ensures Passing(hash, SpecFor(hash, payload, n))(f) <==> f == FrameOf(Encoded(payload))
  {
    PassesOnlyTwins(hash, payload, n, f);
    assert Twin(hash, payload, payload);
    FrameParts(Encoded(payload));
  }

  predicate ClientAccepts(hash: Bytes -> Bytes, payload: Bytes, n: nat, s: Bytes)
  {
    var spec := SpecFor(hash, payload, n);
    Leading(Passing(hash, spec), spec.frameBytes, s, n) == Lead(n, [])
  }

  lemma AcceptsCopies(hash: Bytes -> Bytes, payload: Bytes, n: nat, s: Bytes)
    requires |Encoded(payload)| <= MAX_RESPONSE && Distinguishes(hash, payload)
    ensures ClientAccepts(hash, payload, n, s) <==> s == Copies(FrameOf(Encoded(payload)), n)
  {
    var spec, c := SpecFor(hash, payload, n), FrameOf(Encoded(payload));
    forall f: Bytes | |f| == |c| ensures Passing(hash, spec)(f) <==> f == c {
      PassingIsCanonical(hash, payload, n, f);
    }
    LeadingCopies(Passing(hash, spec), c, s, n);
  }

  lemma OneThenCopies(good: Bytes -> bool, f: Bytes, c: Bytes, n: nat)
    requires good(f) && good(c) && |f| == |c| > 0 && n > 0
    ensures Leading(good, |c|, f + Copies(c, n - 1), n) == Lead(n, [])
  {
    CopiesPass(good, c, n - 1, n - 1);
    LeadTakes(good, f, Copies(c, n - 1), n);
  }

  lemma LeadTakes(good: Bytes -> bool, f: Bytes, tail: Bytes, n: nat)
    requires good(f) && n > 0
    ensures var l := Leading(good, |f|, tail, n - 1); Leading(good, |f|, f + tail, n) == Lead(l.count + 1, l.rest)
  {
    assert (f + tail)[..|f|] == f && (f + tail)[|f|..] == tail;
  }

  lemma TwinPasses(hash: Bytes -> Bytes, payload: Bytes, n: nat, twin: Bytes)
    requires |Encoded(payload)| <= MAX_RESPONSE && Twin(hash, payload, twin)
    ensures Passing(hash, SpecFor(hash, payload, n))(FrameOf(Encoded(twin)))
    ensures |FrameOf(Encoded(twin))| == 5 + |Encoded(payload)|
  {
    SameLengths(payload, twin);
    FrameParts(Encoded(twin));
    PassesOnlyTwins(hash, payload, n, FrameOf(Encoded(twin)));
  }

  /** A twin's frame in front of the canonical ones passes as well. */
  lemma AcceptsTwin(hash: Bytes -> Bytes, payload: Bytes, n: nat, twin: Bytes)
    requires |Encoded(payload)| <= MAX_RESPONSE && n > 0 && Twin(hash, payload, twin)
    ensures ClientAccepts(hash, payload, n, FrameOf(Encoded(twin)) + Copies(FrameOf(Encoded(payload)), n - 1))
  {
    var c, f := FrameOf(Encoded(payload)), FrameOf(Encoded(twin));
    TwinPasses(hash, payload, n, twin);
    TwinPasses(hash, payload, n, payload);
    OneThenCopies(Passing(hash, SpecFor(hash, payload, n)), f, c, n);
  }

  lemma FrameOfIsOneToOne(a: Bytes, b: Bytes)
    requires |Encoded(a)| < 0x1_0000_0000 && FrameOf(Encoded(a)) == FrameOf(Encoded(b)) && |a| == |b|
    ensures a == b
  {
    SameLengths(a, b);
    OnlyCanonicalFrame(FrameOf(Encoded(a)), a);
    OnlyCanonicalFrame(FrameOf(Encoded(b)), b);
  }

  lemma SameFront(a: Bytes, b: Bytes, tail: Bytes)
    requires |Encoded(a)| < 0x1_0000_0000 && |a| == |b|
    requires FrameOf(Encoded(b)) + tail == FrameOf(Encoded(a)) + tail
    ensures a == b
  {
    var f, g := FrameOf(Encoded(b)), FrameOf(Encoded(a));
    SameLengths(a, b);
    FrameParts(Encoded(a));
    FrameParts(Encoded(b));
    assert f == (f + tail)[..|f|] && g == (g + tail)[..|g|];
    FrameOfIsOneToOne(a, b);
  }

  /**
   The executor passes `n` canonical frames and their end, and no other response, if and only
   if the digests distinguish the payload.
   */
  lemma {:induction false} ClientAcceptsExactlyWhen(hash: Bytes -> Bytes, payload: Bytes, n: nat)
    requires |Encoded(payload)| <= MAX_RESPONSE && n > 0
    ensures (forall s :: ClientAccepts(hash, payload, n, s) <==> s == Copies(FrameOf(Encoded(payload)), n)) <==>
            Distinguishes(hash, payload)
  {
    var c := FrameOf(Encoded(payload));
    if Distinguishes(hash, payload) {
      forall s ensures ClientAccepts(hash, payload, n, s) <==> s == Copies(c, n) {
        AcceptsCopies(hash, payload, n, s);
      }
    }
    if forall s :: ClientAccepts(hash, payload, n, s) <==> s == Copies(c, n) {
      forall twin | Twin(hash, payload, twin) ensures twin == payload {
        AcceptsTwin(hash, payload, n, twin);
        SameFront(payload, twin, Copies(c, n - 1));
      }
    }
  }

  /** Whatever the digests, canonical frames pass, as many as there are. */
  lemma {:induction false} CopiesPass(good: Bytes -> bool, c: Bytes, k: nat, n: nat)
    requires good(c) && c != [] && k <= n
    ensures Leading(good, |c|, Copies(c, k), n) == Lead(k, [])
    decreases k
  {
    if k > 0 {
      var s := Copies(c, k);
      assert s[..|c|] == c && s[|c|..] == Copies(c, k - 1);
      CopiesPass(good, c, k - 1, n - 1);
    }
  }

  // ---------------------------------------------------------------- both together

  datatype Method = ServerStreaming | ClientStreaming | Bidirectional

  function Requests(kind: Method, n: nat): nat { if kind == ServerStreaming then 1 else n }

  function Responses(kind: Method, n: nat): nat { if kind == ClientStreaming then 1 else n }

  /** The server's side of a call whose request is the canonical one. */
  method ServeCall(kind: Method, n: nat, room: nat, payload: Bytes, request: ByteStream, ghost c: Bytes)
    returns (response: Bytes, status: Status)
    requires n > 0 && Streamable(payload) && c == FrameOf(Encoded(payload))
    requires request.rest == Copies(c, Requests(kind, n))
    modifies request
    ensures response == Copies(c, Min(Responses(kind, n), room))
    ensures status == if room < Responses(kind, n) then Unset else Ok
  {
    var written;
    if kind == Bidirectional {
      var headers;
      CopiesPass(IsFrame(c), c, n, n);
      written, status, headers := HandleBidirectional(request, n, room, payload, c);
    } else {
      written, status := HandleStreaming(request, kind == ServerStreaming, n, room, payload);
    }
    response := Concat(written);
  }

  /** The executor's side of a call whose response is `k` of the `n` canonical frames. */
  method ReadCall(n: nat, ghost k: nat, payload: Bytes, hash: Bytes -> Bytes, response: ByteStream, ghost c: Bytes)
    returns (count: nat, passed: bool, received: Bytes)
    requires Streamable(payload) && c == FrameOf(Encoded(payload)) && k <= n && response.rest == Copies(c, k)
    modifies response
    ensures passed == (k == n) && count == k && received == Copies(c, k)
  {
    var spec := SpecFor(hash, payload, n);
    OnlyCanonicalFrame(c, payload);
    CopiesPass(Passing(hash, spec), c, k, n);
    received, count, passed := ReadAndValidate(response, hash, spec);
    Empty(received);
  }

  /**
   A whole call, for every method, message count, payload and digest: the executor reads every
   response the transport takes, and server and executor succeed exactly when it takes all.
   */
  method StreamingCall(kind: Method, n: nat, room: nat, payload: Bytes, hash: Bytes -> Bytes)
    returns (status: Status, count: nat, passed: bool, received: Bytes)
    requires n > 0 && Streamable(payload)
    ensures passed == (room >= Responses(kind, n)) && (status == Ok <==> passed)
    ensures count == Min(Responses(kind, n), room) && received == Copies(FrameOf(Encoded(payload)), count)
  {
    ghost var c := FrameOf(Encoded(payload));
    var protobuf := EncodeProtobuf(payload);
    var request := new ByteStream(Copies(FrameOf(protobuf), Requests(kind, n)));
    var response;
    response, status := ServeCall(kind, n, room, payload, request, c);
    var body := new ByteStream(response);
    var responses := Responses(kind, n);
    count, passed, received := ReadCall(responses, Min(responses, room), payload, hash, body, c);
  }

  // ---------------------------------------------------------------- the scenarios

  function Repeat(b: byte, n: nat): (r: Bytes)
    ensures |r| == n
  {
    seq(n, _ => b)
  }

  /** The lengths written out in the server are those of the canonical messages. */
  lemma {:induction false} ScenarioLengths()
    ensures |Encoded(Repeat(66, 1024))| == 1027
    ensures |Encoded(Repeat(71, 128))| == 131
    ensures |Encoded([])| == 0
    ensures |Encoded(Repeat(76, 0x10_0000))| == 1048580 == MAX_FRAME_BYTES - 5
  {
    assert |VarintOf(8)| == 1 && |VarintOf(1)| == 1 && |VarintOf(64)| == 1;
    assert |VarintOf(1024)| == 2 && |VarintOf(128)| == 2;
    assert |VarintOf(0x2000)| == 2 && |VarintOf(0x10_0000)| == 3;
  }
}
