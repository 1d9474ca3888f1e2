/**
 WebSocket over HTTP/3 (RFC 9220): the server's per-stream state machine with its
 fragmented binary message, and the client's lock-step operations.
 */
module Rfc9220 {
  import opened Octets
  import opened Incremental
  import opened WebSocket
  import opened Lockstep

  const CONTINUATION: byte := 0x0
  const TEXT: byte := 0x1
  const BINARY: byte := 0x2
  const CLOSE: byte := 0x8
  const PING: byte := 0x9
  const PONG: byte := 0xA

  /** "protocol-lab" */
  const TEXT_PAYLOAD: Bytes := [112, 114, 111, 116, 111, 99, 111, 108, 45, 108, 97, 98]

  /** "protocol-lab-ping" */
  const CONTROL_PAYLOAD: Bytes := TEXT_PAYLOAD + [45, 112, 105, 110, 103]

  /** 6000 octets 0xA5. */
  function BinaryPayload(): (p: Bytes)
    ensures |p| == 6000
  {
    seq(6000, _ => 0xA5)
  }

  /** Status 1000 in network byte order. */
  const CLOSE_PAYLOAD: Bytes := [0x03, 0xE8]

  const FRAGMENT_BYTES: seq<nat> := [1024, 2048, 2928]

  // ---------------------------------------------------------------- the server

  /** The fragments of an unfinished message and their sizes; closed once the close was answered. */
  datatype Server = Server(fragments: seq<Bytes>, sizes: seq<nat>, closed: bool)

  const FRESH: Server := Server([], [], false)

  function Reply(opcode: byte, payload: Bytes): Outgoing { Outgoing(true, opcode, None, payload) }

  /** What one client frame does: the body of the loop in `_handle_websocket_data`. */
  function React(s: Server, f: Frame): Reaction<Server>
  {
    if !f.masked then Raises
    else if s.fragments != [] && f.opcode != CONTINUATION then Raises
    else if f.opcode == CONTINUATION then
      if s.fragments == [] then Raises
      else
        var fragments, sizes := s.fragments + [f.payload], s.sizes + [|f.payload|];
        if !f.fin then Goes(s.(fragments := fragments, sizes := sizes), [])
        else if sizes != FRAGMENT_BYTES || Concat(fragments) != BinaryPayload() then Raises
        else Goes(s.(fragments := [], sizes := []), [Reply(BINARY, Concat(fragments))])
    else if f.opcode == BINARY then
      if f.fin then
        if f.payload != BinaryPayload() then Raises else Goes(s, [Reply(BINARY, f.payload)])
      else if |f.payload| != FRAGMENT_BYTES[0] then Raises
      else Goes(s.(fragments := [f.payload], sizes := [|f.payload|]), [])
    else if f.opcode == TEXT then
      if !f.fin || f.payload != TEXT_PAYLOAD then Raises else Goes(s, [Reply(TEXT, f.payload)])
    else if f.opcode == PING then
      if !f.fin || f.payload != CONTROL_PAYLOAD then Raises else Goes(s, [Reply(PONG, f.payload)])
    else if f.opcode == CLOSE then
      if !f.fin || f.payload != CLOSE_PAYLOAD then Raises
      else Goes(s.(closed := true), [Reply(CLOSE, f.payload)])
    else Raises
  }

  function ReactAll(s: Server, frames: seq<Frame>): Reaction<Server>
    decreases |frames|
  {
    if frames == [] then Goes(s, [])
    else
      match React(s, frames[0])
      case Raises => Raises
      case Goes(t, r) =>
        Prefixed(r, ReactAll(t, frames[1..]))
  }

  /** Every reply fits in a frame. */
  lemma {:induction false} RepliesValid(s: Server, frames: seq<Frame>)
    ensures ReactAll(s, frames).Goes? ==> AllValid(ReactAll(s, frames).replies)
    decreases |frames|
  {
    Widths();
    if frames != [] && React(s, frames[0]).Goes? {
      RepliesValid(React(s, frames[0]).next, frames[1..]);
    }
  }

  /** One stream as the server keeps it. */
  class ServerStream {
    const reader: FrameReader
    var fragments: seq<Bytes>
    var fragmentSizes: seq<nat>
    var closed: bool

    constructor ()
      ensures Value() == FRESH && reader.buffer == [] && fresh(reader)
    {
      reader := new FrameReader();
      fragments, fragmentSizes, closed := [], [], false;
    }

    function Value(): Server
      reads this
    {
      Server(fragments, fragmentSizes, closed)
    }

    /** The loop body of `_handle_websocket_data`. */
    method HandleFrame(frame: Frame) returns (raised: bool, sent: seq<Outgoing>)
      modifies this
      ensures raised == React(old(Value()), frame).Raises?
      ensures !raised ==> React(old(Value()), frame) == Goes(Value(), sent)
    {
      raised, sent := true, [];
      if !frame.masked {
        return;
      }
      var opcode, payload, final := frame.opcode, frame.payload, frame.fin;
      if fragments != [] && opcode != CONTINUATION {
        return;
      }
      if opcode == CONTINUATION {
        if fragments == [] {
          return;
        }
        fragments := fragments + [payload];
        fragmentSizes := fragmentSizes + [|payload|];
        if final {
          var reassembled := Concat(fragments);
          if fragmentSizes != FRAGMENT_BYTES || reassembled != BinaryPayload() {
            return;
          }
          sent := [Reply(BINARY, reassembled)];
          fragments, fragmentSizes := [], [];
        }
      } else if opcode == BINARY {
        if final {
          if payload != BinaryPayload() {
            return;
          }
          sent := [Reply(BINARY, payload)];
        } else {
          if |payload| != FRAGMENT_BYTES[0] {
            return;
          }
          fragments, fragmentSizes := [payload], [|payload|];
        }
      } else if opcode == TEXT {
        if !final || payload != TEXT_PAYLOAD {
          return;
        }
        sent := [Reply(TEXT, payload)];
      } else if opcode == PING {
        if !final || payload != CONTROL_PAYLOAD {
          return;
        }
        sent := [Reply(PONG, payload)];
      } else if opcode == CLOSE {
        if !final || payload != CLOSE_PAYLOAD {
          return;
        }
        sent := [Reply(CLOSE, payload)];
        closed := true;
      } else {
        return;
      }
      raised := false;
    }

    /** `quic_event_received` with data: once its close is answered, a stream's data is ignored. */
    method DataReceived(data: Bytes) returns (raised: bool, sent: seq<Outgoing>)
      modifies this, reader
      ensures old(closed) ==>
                !raised && sent == [] && Value() == old(Value()) && reader.buffer == old(reader.buffer)
      ensures !old(closed) ==>
                var d := Drain(Next, old(reader.buffer) + data);
                && reader.buffer == d.rest
                && raised == (d.refused || ReactAll(old(Value()), d.items).Raises?)
                && (!raised ==> ReactAll(old(Value()), d.items) == Goes(Value(), sent))
    {
      if closed {
        return false, [];
      }
      raised, sent := HandleData(data);
    }

    /** `_handle_websocket_data`: the frames sent in answer, or the error raised. */
    method HandleData(data: Bytes) returns (raised: bool, sent: seq<Outgoing>)
      modifies this, reader
      ensures var d := Drain(Next, old(reader.buffer) + data);
              && reader.buffer == d.rest
              && raised == (d.refused || ReactAll(old(Value()), d.items).Raises?)
              && (!raised ==> ReactAll(old(Value()), d.items) == Goes(Value(), sent))
    {
      raised, sent := true, [];
      var fed := reader.Feed(data);
      if fed.Raised? {
        return;
      }
      var frames := fed.frames;
      ghost var goal := ReactAll(Value(), frames);
      for k := 0 to |frames|
        invariant goal == Prefixed(sent, ReactAll(Value(), frames[k..]))
        invariant reader.buffer == Drain(Next, old(reader.buffer) + data).rest
      {
        assert frames[k..][0] == frames[k] && frames[k..][1..] == frames[k + 1..];
        var wrong, more := HandleFrame(frames[k]);
        if wrong {
          return;
        }
        PrefixedTwice(sent, more, ReactAll(Value(), frames[k + 1..]));
        sent := sent + more;
      }
      Empty(sent);
      raised := false;
    }
  }

  // ---------------------------------------------------------------- the client

  datatype Op = Ping | TextEcho | BinaryEcho | Fragmented | Close

  predicate Keys(keys: seq<Bytes>, n: nat)
  {
    |keys| == n && forall k :: 0 <= k < |keys| ==> |keys[k]| == 4
  }

  function KeysNeeded(op: Op): nat { if op.Fragmented? then 3 else 1 }

  /** The frames `message_operation` and `close_stream` write, masked with the given keys. */
  function Request(op: Op, keys: seq<Bytes>): (out: seq<Outgoing>)
    requires Keys(keys, KeysNeeded(op))
  {
    match op
    case Ping => [Outgoing(true, PING, Some(keys[0]), CONTROL_PAYLOAD)]
    case TextEcho => [Outgoing(true, TEXT, Some(keys[0]), TEXT_PAYLOAD)]
    case BinaryEcho => [Outgoing(true, BINARY, Some(keys[0]), BinaryPayload())]
    case Fragmented =>
      [Outgoing(false, BINARY, Some(keys[0]), BinaryPayload()[0..1024]),
       Outgoing(false, CONTINUATION, Some(keys[1]), BinaryPayload()[1024..3072]),
       Outgoing(true, CONTINUATION, Some(keys[2]), BinaryPayload()[3072..6000])]
    case Close => [Outgoing(true, CLOSE, Some(keys[0]), CLOSE_PAYLOAD)]
  }

  /** What `expect_frame` waits for. */
  function Expected(op: Op): Outgoing
  {
    match op
    case Ping => Reply(PONG, CONTROL_PAYLOAD)
    case TextEcho => Reply(TEXT, TEXT_PAYLOAD)
    case BinaryEcho => Reply(BINARY, BinaryPayload())
    case Fragmented => Reply(BINARY, BinaryPayload())
    case Close => Reply(CLOSE, CLOSE_PAYLOAD)
  }

  lemma Sizes()
    ensures |BinaryPayload()| == 6000 && |TEXT_PAYLOAD| == 12 && |CONTROL_PAYLOAD| == 17
    ensures Pow256(8) > 6000
  {
    Widths();
  }

  lemma RequestValid(op: Op, keys: seq<Bytes>)
    requires Keys(keys, KeysNeeded(op))
    ensures AllValid(Request(op, keys)) && Expected(op).Valid()
  {
    Sizes();
  }

  lemma ShortReply(opcode: byte, payload: Bytes)
    requires opcode < 16 && |payload| <= 125
    ensures Reply(opcode, payload).Valid()
    ensures Reply(opcode, payload).Wire() == [opcode + 128, |payload|] + payload
  {
    Widths();
  }

  lemma LongReply()
    ensures Reply(BINARY, BinaryPayload()).Valid()
    ensures Reply(BINARY, BinaryPayload()).Wire() == [0x82, 126, 0x17, 0x70] + seq(6000, _ => 0xA5)
  {
    Widths();
    assert ToBE(6000, 2) == ToBE(23, 1) + [0x70] && ToBE(23, 1) == ToBE(0, 0) + [0x17];
  }

  /** The octets each operation brings back from the server. */
  lemma {:induction false} ReplyOctets(op: Op)
    ensures Expected(op).Valid() && Expected(op).Wire() ==
            match op
            case Ping => [0x8a, 17] + CONTROL_PAYLOAD
            case TextEcho => [0x81, 12] + TEXT_PAYLOAD
            case BinaryEcho => [0x82, 126, 0x17, 0x70] + seq(6000, _ => 0xA5)
            case Fragmented => [0x82, 126, 0x17, 0x70] + seq(6000, _ => 0xA5)
            case Close => [0x88, 2] + CLOSE_PAYLOAD
  {
    match op
    case Ping => ShortReply(PONG, CONTROL_PAYLOAD);
    case TextEcho => ShortReply(TEXT, TEXT_PAYLOAD);
    case BinaryEcho => LongReply();
    case Fragmented => LongReply();
    case Close => ShortReply(CLOSE, CLOSE_PAYLOAD);
  }

  // ---------------------------------------------------------------- one operation

  /** `frames` is handled without an error, `after` is left and `replies` are sent. */
  ghost predicate Answers(s: Server, frames: seq<Frame>, after: Server, replies: seq<Outgoing>)
  {
    ReactAll(s, frames) == Goes(after, replies)
  }

  function After(op: Op): Server { if op.Close? then FRESH.(closed := true) else FRESH }

  lemma OneFrame(s: Server, f: Frame)
    requires React(s, f).Goes?
    ensures ReactAll(s, [f]) == Goes(React(s, f).next, React(s, f).replies)
  {
    assert [f][1..] == [];
  }

  lemma {:induction false} ReactAllAppend(s: Server, a: seq<Frame>, b: seq<Frame>)
    ensures ReactAll(s, a + b) ==
            match ReactAll(s, a)
            case Raises => Raises
            case Goes(t, r) => Prefixed(r, ReactAll(t, b))
    decreases |a|
  {
    if a == [] {
      assert a + b == b;
    } else {
      assert (a + b)[1..] == a[1..] + b && (a + b)[0] == a[0];
      if React(s, a[0]).Goes? {
        var t := React(s, a[0]).next;
        ReactAllAppend(t, a[1..], b);
      }
    }
  }

  lemma Reassembled()
    ensures Concat([BinaryPayload()[0..1024], BinaryPayload()[1024..3072], BinaryPayload()[3072..6000]])
            == BinaryPayload()
  {
    Sizes();
    var a, b, c := BinaryPayload()[0..1024], BinaryPayload()[1024..3072], BinaryPayload()[3072..6000];
    ConcatSnoc([], a);
    ConcatSnoc([a], b);
    ConcatSnoc([a, b], c);
    assert [] + [a] == [a] && [a] + [b] == [a, b] && [a, b] + [c] == [a, b, c];
    assert a + b + c == BinaryPayload();
  }

  /** The two first fragments are stored in silence; the third completes the message. */
  lemma {:induction false} FragmentsAnswered(keys: seq<Bytes>)
    requires Keys(keys, 3)
    ensures var fs := FramesOf(Request(Fragmented, keys));
            && |fs| == 3
            && (forall k :: 0 <= k < 3 ==> ReactAll(FRESH, fs[..k]).Goes? && ReactAll(FRESH, fs[..k]).replies == [])
            && Answers(FRESH, fs, FRESH, [Expected(Fragmented)])
  {
    Sizes();
    var out := Request(Fragmented, keys);
    var a, b, c := BinaryPayload()[0..1024], BinaryPayload()[1024..3072], BinaryPayload()[3072..6000];
    var f, g, h := out[0].Sent(), out[1].Sent(), out[2].Sent();
    FramesOfThree(out);
    var fs := FramesOf(out);
    var s1, s2 := Server([a], [1024], false), Server([a, b], [1024, 2048], false);
    assert React(FRESH, f) == Goes(s1, []);
    assert [a] + [b] == [a, b] && [1024] + [2048] == [1024, 2048];
    assert React(s1, g) == Goes(s2, []);
    assert [a, b] + [c] == [a, b, c] && [1024, 2048] + [2928] == FRAGMENT_BYTES;
    Reassembled();
    assert React(s2, h) == Goes(FRESH, [Reply(BINARY, BinaryPayload())]);
    OneFrame(FRESH, f);
    OneFrame(s1, g);
    OneFrame(s2, h);
    ReactAllAppend(FRESH, [f], [g]);
    ReactAllAppend(FRESH, [f, g], [h]);
    assert [f] + [g] == [f, g] && [f, g] + [h] == fs;
    assert fs[..0] == [] && fs[..1] == [f] && fs[..2] == [f, g];
  }

  lemma FramesOfThree(out: seq<Outgoing>)
    requires |out| == 3
    ensures FramesOf(out) == [out[0].Sent(), out[1].Sent(), out[2].Sent()]
  {
    assert out[1..][1..] == out[2..] && out[2..][1..] == [];
    assert FramesOf(out[2..]) == [out[2].Sent()];
    assert FramesOf(out[1..]) == [out[1].Sent(), out[2].Sent()];
  }

  /**
   From a stream with no open fragments, the frames of one operation are answered by exactly
   the reply the client expects, and only once the last of them has been handled; nothing
   is raised on the way and no fragment is left.
   */
  lemma {:induction false} OperationAnswered(op: Op, keys: seq<Bytes>)
    requires Keys(keys, KeysNeeded(op))
    ensures var fs := FramesOf(Request(op, keys));
            && Answers(FRESH, fs, After(op), [Expected(op)])
            && (forall k :: 0 <= k < |fs| ==> ReactAll(FRESH, fs[..k]).Goes? && ReactAll(FRESH, fs[..k]).replies == [])
  {
    var out := Request(op, keys);
    if op.Fragmented? {
      FragmentsAnswered(keys);
    } else {
      FramesOfOne(out);
      OneFrame(FRESH, out[0].Sent());
      assert FramesOf(out)[..0] == [];
    }
  }

  // ---------------------------------------------------------------- the server's language

  /**
   Beyond this client: the server answers a binary message with a reply exactly when it came
   whole, or as the three committed fragments.
   */
  lemma {:induction false} FinalFragmentAccepted(s: Server, f: Frame)
    requires |s.fragments| == |s.sizes| > 0
    requires forall k :: 0 <= k < |s.sizes| ==> s.sizes[k] == |s.fragments[k]|
    requires f.masked && f.fin && f.opcode == CONTINUATION
    ensures React(s, f).Goes? <==>
            s.fragments + [f.payload] ==
              [BinaryPayload()[0..1024], BinaryPayload()[1024..3072], BinaryPayload()[3072..6000]]
  {
    var all, sizes := s.fragments + [f.payload], s.sizes + [|f.payload|];
    var want: seq<Bytes> := [BinaryPayload()[0..1024], BinaryPayload()[1024..3072], BinaryPayload()[3072..6000]];
    assert |all| == |sizes| && forall k :: 0 <= k < |all| ==> sizes[k] == |all[k]|;
    if all == want {
      Reassembled();
      assert sizes == FRAGMENT_BYTES;
    }
    if sizes == FRAGMENT_BYTES && Concat(all) == BinaryPayload() {
      assert |all| == 3 && |all[0]| == 1024 && |all[1]| == 2048 && |all[2]| == 2928;
      var a, b, c := all[0], all[1], all[2];
      assert all == [a, b, c];
      ConcatSnoc([], a);
      ConcatSnoc([a], b);
      ConcatSnoc([a, b], c);
      assert [] + [a] == [a] && [a] + [b] == [a, b] && [a, b] + [c] == [a, b, c];
      assert a + b + c == BinaryPayload();
      assert a == (a + b + c)[0..1024] && b == (a + b + c)[1024..3072] && c == (a + b + c)[3072..6000];
    }
  }
}
