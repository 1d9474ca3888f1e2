/**
 The frames the RFC 9220 server lets pass: complete messages one after another, each whole or
 in the three committed pieces, and at the end perhaps a message still in pieces.
 */
module Rfc9220Language {
  import opened Octets
  import opened Incremental
  import opened WebSocket
  import opened Lockstep
  import opened Rfc9220
  import opened Rfc9220Session

  // ---------------------------------------------------------------- the grammar

  /** A message in one frame: masked, final, and one of the four payloads. */
  predicate InOne(f: Frame)
  {
    f == Frame(true, TEXT, true, TEXT_PAYLOAD) || f == Frame(true, BINARY, true, BinaryPayload())
    || f == Frame(true, PING, true, CONTROL_PAYLOAD) || f == Frame(true, CLOSE, true, CLOSE_PAYLOAD)
  }

  function Pieces(): seq<Frame>
  {
    [Frame(false, BINARY, true, BinaryPayload()[0..1024]),
     Frame(false, CONTINUATION, true, BinaryPayload()[1024..3072]),
     Frame(true, CONTINUATION, true, BinaryPayload()[3072..6000])]
  }

  predicate IsMessage(m: seq<Frame>) { (|m| == 1 && InOne(m[0])) || m == Pieces() }

  /** A fragmented message that is not complete: a first fragment of 1024 octets and any that continue it. */
  predicate Unfinished(o: seq<Frame>)
  {
    && (o != [] ==> o[0].masked && !o[0].fin && o[0].opcode == BINARY && |o[0].payload| == 1024)
    && forall k :: 1 <= k < |o| ==> o[k].masked && !o[k].fin && o[k].opcode == CONTINUATION
  }

  function Flat(ms: seq<seq<Frame>>): seq<Frame>
  {
    if ms == [] then [] else ms[0] + Flat(ms[1..])
  }

  predicate Parses(frames: seq<Frame>, ms: seq<seq<Frame>>, open: seq<Frame>)
  {
    frames == Flat(ms) + open && (forall m :: m in ms ==> IsMessage(m)) && Unfinished(open)
  }

  /** The reply to a message: its payload back, a ping as a pong. */
  function AnswerTo(m: seq<Frame>): Outgoing
    requires IsMessage(m)
  {
    if |m| > 1 then Outgoing(true, BINARY, None, BinaryPayload())
    else
      var opcode: byte := if m[0].opcode == PING then PONG else m[0].opcode;
      Outgoing(true, opcode, None, m[0].payload)
  }

  function AnswersTo(ms: seq<seq<Frame>>): seq<Outgoing>
    requires forall m :: m in ms ==> IsMessage(m)
  {
    if ms == [] then [] else [AnswerTo(ms[0])] + AnswersTo(ms[1..])
  }

  predicate Closes(ms: seq<seq<Frame>>)
  {
    ms != [] && ((|ms[0]| == 1 && ms[0][0].opcode == CLOSE) || Closes(ms[1..]))
  }

  function PayloadsOf(o: seq<Frame>): (r: seq<Bytes>)
    ensures |r| == |o| && forall k :: 0 <= k < |o| ==> r[k] == o[k].payload
  {
    seq(|o|, k requires 0 <= k < |o| => o[k].payload)
  }

  function SizesOf(o: seq<Frame>): (r: seq<nat>)
    ensures |r| == |o| && forall k :: 0 <= k < |o| ==> r[k] == |o[k].payload|
  {
    seq(|o|, k requires 0 <= k < |o| => |o[k].payload|)
  }

  /** The server with these fragments open. */
  function Holding(o: seq<Frame>, closed: bool): Server { Server(PayloadsOf(o), SizesOf(o), closed) }

  lemma NothingHeld(closed: bool)
    ensures Holding([], closed) == Server([], [], closed)
  {
  }

  // ---------------------------------------------------------------- what the server does on it

  /** One more fragment that is not the last. */
  lemma {:induction false} HoldsMore(o: seq<Frame>, f: Frame, closed: bool)
    requires Unfinished(o + [f])
    ensures React(Holding(o, closed), f) == Goes(Holding(o + [f], closed), [])
  {
    var all := o + [f];
    assert all[|o|] == f;
    assert PayloadsOf(all) == PayloadsOf(o) + [f.payload] && SizesOf(all) == SizesOf(o) + [|f.payload|];
    if o == [] {
      assert all == [f];
      assert PayloadsOf(all) == [f.payload] && SizesOf(all) == [|f.payload|];
    }
  }

  lemma {:induction false} RunsOpen(o: seq<Frame>, rest: seq<Frame>, closed: bool)
    requires Unfinished(o + rest)
    ensures ReactAll(Holding(o, closed), rest) == Goes(Holding(o + rest, closed), [])
    decreases |rest|
  {
    if rest == [] {
      Empty(o);
    } else {
      var f := rest[0];
      assert o + rest == (o + [f]) + rest[1..];
      var longer := o + [f];
      assert forall k :: 0 <= k < |longer| ==> longer[k] == (o + rest)[k];
      HoldsMore(o, f, closed);
      RunsOpen(longer, rest[1..], closed);
    }
  }

  lemma {:induction false} RunsOne(f: Frame, closed: bool)
    requires InOne(f)
    ensures React(Holding([], closed), f) == Goes(Holding([], closed || f.opcode == CLOSE), [AnswerTo([f])])
  {
    NothingHeld(closed);
    NothingHeld(closed || f.opcode == CLOSE);
  }

  lemma {:induction false} PiecesUnfinished()
    ensures Unfinished(Pieces()[..2]) && Pieces()[..2] + [Pieces()[2]] == Pieces()
    ensures PayloadsOf(Pieces()[..2]) == [BinaryPayload()[0..1024], BinaryPayload()[1024..3072]]
    ensures SizesOf(Pieces()[..2]) == [1024, 2048]
  {
    Sizes();
  }

  lemma {:induction false} RunsPieces(closed: bool)
    ensures ReactAll(Holding([], closed), Pieces()) == Goes(Holding([], closed), [AnswerTo(Pieces())])
  {
    var front, last := Pieces()[..2], Pieces()[2];
    PiecesUnfinished();
    Empty(front);
    RunsOpen([], front, closed);
    Reassembled();
    Sizes();
    assert PayloadsOf(front) + [last.payload] ==
           [BinaryPayload()[0..1024], BinaryPayload()[1024..3072], BinaryPayload()[3072..6000]];
    assert SizesOf(front) + [|last.payload|] == FRAGMENT_BYTES;
    NothingHeld(closed);
    assert React(Holding(front, closed), last) == Goes(Holding([], closed), [AnswerTo(Pieces())]);
    OneFrame(Holding(front, closed), last);
    ReactAllAppend(Holding([], closed), front, [last]);
    Empty([AnswerTo(Pieces())]);
  }

  lemma {:induction false} RunsMessage(m: seq<Frame>, closed: bool)
    requires IsMessage(m)
    ensures ReactAll(Holding([], closed), m) ==
            Goes(Holding([], closed || (|m| == 1 && m[0].opcode == CLOSE)), [AnswerTo(m)])
  {
    if |m| == 1 {
      RunsOne(m[0], closed);
      OneFrame(Holding([], closed), m[0]);
      assert m == [m[0]];
    } else {
      RunsPieces(closed);
    }
  }

  /** On messages and an unfinished one the server raises nothing, replies to each message and holds the rest. */
  lemma {:induction false} RunsAll(ms: seq<seq<Frame>>, open: seq<Frame>, closed: bool)
    requires (forall m :: m in ms ==> IsMessage(m)) && Unfinished(open)
    ensures ReactAll(Holding([], closed), Flat(ms) + open) == Goes(Holding(open, closed || Closes(ms)), AnswersTo(ms))
    decreases |ms|
  {
    if ms == [] {
      Empty(open);
      RunsOpen([], open, closed);
    } else {
      var m, rest := ms[0], Flat(ms[1..]) + open;
      assert m in ms && forall x :: x in ms[1..] ==> x in ms;
      var now := closed || (|m| == 1 && m[0].opcode == CLOSE);
      RunsMessage(m, closed);
      RunsAll(ms[1..], open, now);
      Assoc(m, Flat(ms[1..]), open);
      ReactAllAppend(Holding([], closed), m, rest);
    }
  }

  // ---------------------------------------------------------------- and on nothing else

  /** A frame the server lets pass with no fragment open is a message or a first fragment. */
  lemma {:induction false} PassesFirst(f: Frame, closed: bool)
    requires React(Holding([], closed), f).Goes?
    ensures InOne(f) || Unfinished([f])
  {
    NothingHeld(closed);
    assert f == Frame(f.fin, f.opcode, f.masked, f.payload);
  }

  lemma {:induction false} PassesLast(o: seq<Frame>, f: Frame, closed: bool)
    requires o != [] && Unfinished(o) && f.fin && React(Holding(o, closed), f).Goes?
    ensures o + [f] == Pieces()
  {
    var s := Holding(o, closed);
    FinalFragmentAccepted(s, f);
    var all := PayloadsOf(o) + [f.payload];
    assert |all| == 3 && |o| == 2;
    assert all[0] == o[0].payload && all[1] == o[1].payload && all[2] == f.payload;
    assert o[0] == Frame(false, BINARY, true, o[0].payload) && o[1] == Frame(false, CONTINUATION, true, o[1].payload);
    assert f == Frame(true, CONTINUATION, true, f.payload);
    assert o + [f] == [o[0], o[1], f];
  }

  lemma {:induction false} FindsParse(o: seq<Frame>, frames: seq<Frame>, closed: bool)
    returns (ms: seq<seq<Frame>>, open: seq<Frame>)
    requires Unfinished(o) && ReactAll(Holding(o, closed), frames).Goes?
    ensures Parses(o + frames, ms, open)
    decreases |frames|, 0
  {
    if frames == [] {
      ms, open := [], o;
      Empty(o);
    } else {
      var f, rest := frames[0], frames[1..];
      assert frames == [f] + rest;
      Assoc(o, [f], rest);
      if o != [] && f.fin {
        PassesLast(o, f, closed);
        RunsPieces(closed);
        LastStep(o, f, closed);
        ms, open := Complete(o + [f], rest, closed);
      } else if o == [] && InOne(f) {
        RunsOne(f, closed);
        assert o + [f] == [f];
        ms, open := Complete([f], rest, closed || f.opcode == CLOSE);
      } else {
        if o == [] {
          PassesFirst(f, closed);
          assert o + [f] == [f];
        } else {
          Continues(o, f, closed);
        }
        HoldsMore(o, f, closed);
        ms, open := FindsParse(o + [f], rest, closed);
      }
    }
  }

  lemma {:induction false} Continues(o: seq<Frame>, f: Frame, closed: bool)
    requires o != [] && Unfinished(o) && !f.fin && React(Holding(o, closed), f).Goes?
    ensures Unfinished(o + [f])
  {
    var all := o + [f];
    assert forall k :: 0 <= k < |o| ==> all[k] == o[k];
    assert all[|o|] == f;
  }

  /** The last piece empties the fragments. */
  lemma {:induction false} LastStep(o: seq<Frame>, f: Frame, closed: bool)
    requires o + [f] == Pieces()
    ensures React(Holding(o, closed), f).Goes? ==> React(Holding(o, closed), f).next == Holding([], closed)
  {
    assert o == (o + [f])[..|o|] && f == (o + [f])[|o|];
    NothingHeld(closed);
  }

  /** A complete message, and what is found behind it. */
  lemma {:induction false} Complete(m: seq<Frame>, rest: seq<Frame>, closed: bool)
    returns (ms: seq<seq<Frame>>, open: seq<Frame>)
    requires IsMessage(m) && ReactAll(Holding([], closed), rest).Goes?
    ensures Parses(m + rest, ms, open)
    decreases |rest|, 1
  {
    var later: seq<seq<Frame>>;
    Empty(rest);
    later, open := FindsParse([], rest, closed);
    ms := [m] + later;
    assert ms[1..] == later;
    Assoc(m, Flat(later), open);
  }

  /**
   The server lets a sequence of frames pass if and only if it is messages and an unfinished
   one; it has then sent exactly the reply to each message, holds the fragments of the
   unfinished one, and has closed exactly if one of the messages was a close.
   */
  lemma {:induction false} ServerLanguage(frames: seq<Frame>)
    ensures ReactAll(FRESH, frames).Goes? <==> exists ms, open :: Parses(frames, ms, open)
    ensures forall ms, open :: Parses(frames, ms, open) ==>
              ReactAll(FRESH, frames) == Goes(Server(PayloadsOf(open), SizesOf(open), Closes(ms)), AnswersTo(ms))
  {
    NothingHeld(false);
    if ReactAll(FRESH, frames).Goes? {
      Empty(frames);
      var ms, open := FindsParse([], frames, false);
    }
    forall ms, open | Parses(frames, ms, open)
      ensures ReactAll(FRESH, frames) == Goes(Server(PayloadsOf(open), SizesOf(open), Closes(ms)), AnswersTo(ms))
    {
      RunsAll(ms, open, false);
    }
  }

  // ---------------------------------------------------------------- the client's check

  /** Of all frames anybody can write, the client accepts exactly those written like the one it waits for. */
  lemma {:induction false} AcceptsSameWire(want: Outgoing, x: Outgoing)
    requires want.Valid() && want.fin && want.key.None? && x.Valid()
    ensures Accepts(want, x.Sent()) <==> x.Wire() == want.Wire()
  {
    NextOfEncode(x.fin, x.opcode, x.key, x.payload, []);
    NextOfEncode(want.fin, want.opcode, want.key, want.payload, []);
    Empty(x.Wire());
    Empty(want.Wire());
    if Accepts(want, x.Sent()) {
      assert x == want;
    }
  }

  /** The client fails on a frame if and only if it is not written like the reply it waits for. */
  lemma {:induction false} ExpectFailsExactlyWhen(s: Session<Op, Server>, x: Outgoing)
    requires s.done < |s.ops| && !s.clientFailed && x.Valid() && s.queue != [] && s.queue[0] == x.Sent()
    ensures Expected(s.ops[s.done]).Valid()
    ensures DoExpect(Peers(), s).clientFailed <==> x.Wire() != Expected(s.ops[s.done]).Wire()
  {
    var want := Expected(s.ops[s.done]);
    Sizes();
    AcceptsSameWire(want, x);
  }

  /** A server with no fragment open fails on a delivery if and only if its frames are not of the language. */
  lemma {:induction false} ServerFailsExactlyWhen(s: Session<Op, Server>, n: nat)
    requires n <= |s.toServer| && !s.serverFailed && s.server == FRESH
    ensures var d := Drain(Next, s.serverBuffer + s.toServer[..n]);
            DoToServer(Peers(), s, n).serverFailed <==>
            d.refused || !exists ms, open :: Parses(d.items, ms, open)
  {
    var d := Drain(Next, s.serverBuffer + s.toServer[..n]);
    ServerLanguage(d.items);
    RepliesValid(FRESH, d.items);
  }
}
