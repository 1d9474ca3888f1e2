/**
 A whole RFC 9220 WebSocket stream: pings, text, whole and fragmented binary messages, one
 after another, ended by a close, between the two Python peers.
 */
module Rfc9220Session {
  import opened Octets
  import opened Incremental
  import opened WebSocket
  import opened Lockstep
  import opened Rfc9220

  /** The masking keys of a request. */
  function KeysOf(out: seq<Outgoing>): (keys: seq<Bytes>)
    requires forall k :: 0 <= k < |out| ==> out[k].key.Some?
    ensures |keys| == |out|
    ensures forall k :: 0 <= k < |out| ==> keys[k] == out[k].key.value
  {
    seq(|out|, k requires 0 <= k < |out| => out[k].key.value)
  }

  /** The frames of an operation, whatever their masking keys. */
  predicate IsRequest(op: Op, out: seq<Outgoing>)
  {
    && |out| == KeysNeeded(op)
    && (forall k :: 0 <= k < |out| ==> out[k].key.Some? && |out[k].key.value| == 4)
    && out == Request(op, KeysOf(out))
  }

  lemma RequestIsOne(op: Op, keys: seq<Bytes>)
    requires Keys(keys, KeysNeeded(op))
    ensures IsRequest(op, Request(op, keys))
  {
    assert KeysOf(Request(op, keys)) == keys;
  }

  function Peers(): Protocol<Op, Server>
  {
    Protocol(Next, ReactAll, FRESH, After, Expected, IsRequest)
  }

  lemma PeersServe(op: Op, out: seq<Outgoing>, fs: seq<Frame>)
    ensures Serves(Peers(), op, out, fs)
  {
    if IsRequest(op, out) && fs <= FramesOf(out) {
      var keys := KeysOf(out);
      RequestValid(op, keys);
      OperationAnswered(op, keys);
      if fs != FramesOf(out) {
        assert fs == FramesOf(out)[..|fs|];
      }
    }
  }

  /** The two Python peers satisfy the laws of a lock-step protocol. */
  lemma {:induction false} PeersLawful()
    ensures Lawful(Peers())
  {
    var p := Peers();
    NextSteady();
    forall out ensures Inverts(p, out) {
      if AllValid(out) { DrainOfWire(out); }
    }
    forall s ensures Idles(p, s) {
    }
    forall s, a, b ensures Appends(p, s, a, b) {
      ReactAllAppend(s, a, b);
    }
    forall s, fs ensures Sendable(p, s, fs) {
      RepliesValid(s, fs);
    }
    forall op, out, fs ensures Serves(p, op, out, fs) {
      PeersServe(op, out, fs);
    }
  }

  /** Operations, and the close as the last and only close. */
  predicate Stream(ops: seq<Op>)
  {
    && ops != [] && ops[|ops| - 1] == Close
    && forall k :: 0 <= k < |ops| - 1 ==> ops[k] != Close
  }

  lemma StreamIsScript(ops: seq<Op>)
    requires Stream(ops)
    ensures Script(Peers(), ops)
  {
    var p := Peers();
    forall k | 0 <= k < |ops|
      ensures p.expected(ops[k]).fin && p.expected(ops[k]).key.None? && exists out :: p.isRequest(ops[k], out)
    {
      var key: Bytes := [0, 0, 0, 0];
      var keys := if ops[k].Fragmented? then [key, key, key] else [key];
      RequestIsOne(ops[k], keys);
      assert p.isRequest(ops[k], Request(ops[k], keys));
    }
  }

  /** At rest the server holds no fragment, and has closed exactly when the close was answered. */
  lemma ServerAtRest(s: Session<Op, Server>)
    requires Stream(s.ops)
    ensures AtRest(Peers(), s) ==> s.server.fragments == [] && s.server.closed == (s.done == |s.ops|)
  {
  }

  // ---------------------------------------------------------------- end to end

  /**
   For any number of ping, text, binary and fragmented operations followed by close, any
   masking keys, and any cutting and interleaving of the bytes of both directions: the
   server raises nothing, `expect_frame` accepts every reply, the server has sent exactly
   one reply, the expected one, for each message answered so far, and between messages it
   holds no open fragment and no byte is under way.
   */
  lemma {:induction false} StreamNeverFails(ops: seq<Op>, run: seq<Event>)
    requires Stream(ops) && Runs(Peers(), Start(Peers(), ops), run)
    ensures var s := Exec(Peers(), Start(Peers(), ops), run);
            && s.ops == ops && s.done <= |ops|
            && !s.serverFailed && !s.clientFailed
            && (!s.awaiting ==> s.server.fragments == [] && s.server.closed == (s.done == |ops|))
            && (!s.awaiting ==> AtRest(Peers(), s))
            && Replies(Peers(), ops, s.done) <= s.log <= Replies(Peers(), ops, |ops|)
            && s.done <= |s.log| <= s.done + (if s.awaiting then 1 else 0)
  {
    PeersLawful();
    StreamIsScript(ops);
    NothingEverFails(Peers(), ops, run);
    ServerAtRest(Exec(Peers(), Start(Peers(), ops), run));
  }

  // ---------------------------------------------------------------- every stream ends

  /** No request and no reply of this protocol is longer. */
  const LONGEST: nat := 6100

  lemma WireSize(x: Outgoing)
    requires x.Valid()
    ensures |x.Wire()| <= |x.payload| + 14
  {
  }

  lemma ThreeSizes(out: seq<Outgoing>)
    requires |out| == 3 && AllValid(out)
    ensures |WireOf(out)| == |out[0].Wire()| + |out[1].Wire()| + |out[2].Wire()|
  {
    assert out == [out[0]] + ([out[1]] + [out[2]]);
    OneWire(out[0]);
    OneWire(out[1]);
    OneWire(out[2]);
    WireOfAppend([out[1]], [out[2]]);
    WireOfAppend([out[0]], [out[1]] + [out[2]]);
  }

  lemma RequestSize(op: Op, keys: seq<Bytes>)
    requires Keys(keys, KeysNeeded(op))
    ensures AllValid(Request(op, keys)) && |WireOf(Request(op, keys))| <= LONGEST
  {
    var out := Request(op, keys);
    RequestValid(op, keys);
    if op.Fragmented? {
      ThreeSizes(out);
      WireSize(out[0]);
      WireSize(out[1]);
      WireSize(out[2]);
    } else {
      OneWire(out[0]);
      assert out == [out[0]];
      WireSize(out[0]);
      Sizes();
    }
  }

  lemma RequestWithin(op: Op, out: seq<Outgoing>)
    ensures RequestFits(Peers(), op, out, LONGEST)
  {
    if IsRequest(op, out) {
      RequestSize(op, KeysOf(out));
    }
  }

  lemma ReplyWithin(op: Op)
    ensures ReplyFits(Peers(), op, LONGEST)
  {
    RequestValid(op, if op.Fragmented? then [[0, 0, 0, 0], [0, 0, 0, 0], [0, 0, 0, 0]] else [[0, 0, 0, 0]]);
    WireSize(Expected(op));
    Sizes();
  }

  lemma PeersWithin()
    ensures Within(Peers(), LONGEST)
  {
    forall op, out ensures RequestFits(Peers(), op, out, LONGEST) {
      RequestWithin(op, out);
    }
    forall op ensures ReplyFits(Peers(), op, LONGEST) {
      ReplyWithin(op);
    }
  }

  /**
   Every such stream ends after a bounded number of writes, deliveries and reads, and one
   that cannot be continued is complete: all messages answered and accepted in order, the
   close among them, and nothing left under way.
   */
  lemma {:induction false} EveryStreamCompletes(ops: seq<Op>, run: seq<Event>)
    requires Stream(ops) && Runs(Peers(), Start(Peers(), ops), run)
    ensures |run| <= Budget(|ops|, LONGEST)
    ensures var s := Exec(Peers(), Start(Peers(), ops), run);
            (forall e :: !Can(Peers(), s, e)) ==>
              s.done == |ops| && s.log == Replies(Peers(), ops, |ops|) && AtRest(Peers(), s)
  {
    PeersLawful();
    PeersWithin();
    StreamIsScript(ops);
    EverySessionCompletes(Peers(), ops, run, LONGEST);
  }
}
