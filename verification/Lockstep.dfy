/**
 A client and a server in lock-step over a byte transport.

 The client writes the frames of one operation, waits for a reply frame, checks it, and
 goes on.  The transport delivers the bytes of each direction in pieces of any size, in any
 interleaving.  Both ends read frames incrementally.

 The protocol is a parameter; what is proved here needs only the laws in `Lawful`.
 */
module Lockstep {
  import opened Octets
  import opened Incremental
  import opened WebSocket

  /** The server's answer to a sequence of frames. */
  datatype Reaction<+S> = Raises | Goes(next: S, replies: seq<Outgoing>)

  /**
   `next` is the frame reader of both ends, `react` the server, `idle` its state between
   operations and `after` its state once an operation is answered.
   */
  datatype Protocol<!Op, !S> = Protocol(
    next: Bytes -> Step<Frame>,
    react: (S, seq<Frame>) -> Reaction<S>,
    idle: S,
    after: Op -> S,
    expected: Op -> Outgoing,
    isRequest: (Op, seq<Outgoing>) -> bool)

  // ---------------------------------------------------------------- laws

  ghost predicate Inverts<Op, S>(p: Protocol<Op, S>, out: seq<Outgoing>)
  {
    AllValid(out) ==> Drain(p.next, WireOf(out)) == Drained(FramesOf(out), [], false)
  }

  function Prefixed<S>(sent: seq<Outgoing>, r: Reaction<S>): Reaction<S>
  {
    if r.Raises? then Raises else Goes(r.next, sent + r.replies)
  }

  lemma PrefixedTwice<S>(a: seq<Outgoing>, b: seq<Outgoing>, r: Reaction<S>)
    ensures Prefixed(a, Prefixed(b, r)) == Prefixed(a + b, r)
  {
    if r.Goes? {
      Assoc(a, b, r.replies);
    }
  }

  ghost predicate Appends<Op, S>(p: Protocol<Op, S>, s: S, a: seq<Frame>, b: seq<Frame>)
  {
    p.react(s, a + b) ==
      if p.react(s, a).Raises? then Raises
      else Prefixed(p.react(s, a).replies, p.react(p.react(s, a).next, b))
  }

  /** No frames, no change. */
  ghost predicate Idles<Op, S>(p: Protocol<Op, S>, s: S)
  {
    p.react(s, []) == Goes(s, [])
  }

  ghost predicate Sendable<Op, S>(p: Protocol<Op, S>, s: S, fs: seq<Frame>)
  {
    p.react(s, fs).Goes? ==> AllValid(p.react(s, fs).replies)
  }

  /** Part of a request is handled in silence; the whole of it brings the one expected reply. */
  ghost predicate Serves<Op, S>(p: Protocol<Op, S>, op: Op, out: seq<Outgoing>, fs: seq<Frame>)
  {
    p.isRequest(op, out) && fs <= FramesOf(out) ==>
      && out != [] && AllValid(out) && p.expected(op).Valid()
      && p.react(p.idle, fs).Goes?
      && if fs == FramesOf(out) then p.react(p.idle, fs) == Goes(p.after(op), [p.expected(op)])
         else p.react(p.idle, fs).replies == []
  }

  ghost predicate Lawful<Op(!new), S(!new)>(p: Protocol<Op, S>)
  {
    && Steady(p.next) && p.next([]).More?
    && (forall out :: Inverts(p, out))
    && (forall s :: Idles(p, s))
    && (forall s, a, b :: Appends(p, s, a, b))
    && (forall s, fs :: Sendable(p, s, fs))
    && (forall op, out, fs :: Serves(p, op, out, fs))
  }

  // ---------------------------------------------------------------- part of a stream

  /**
   `got` of the frames `out` has been read, `left` has not; `frames` have come out and
   `buffer` waits for the rest of a frame.
   */
  ghost predicate Partly<Op, S>(p: Protocol<Op, S>, out: seq<Outgoing>,
                                got: Bytes, left: Bytes, frames: seq<Frame>, buffer: Bytes)
  {
    && AllValid(out) && WireOf(out) == got + left
    && Drain(p.next, got) == Drained(frames, buffer, false)
  }

  lemma NothingYet<Op(!new), S(!new)>(p: Protocol<Op, S>, out: seq<Outgoing>)
    requires Lawful(p) && AllValid(out)
    ensures Partly(p, out, [], WireOf(out), [], [])
  {
    Empty(WireOf(out));
    assert Sized(p.next, []);
    DrainUnfolds(p.next, []);
  }

  /** The frames read are a prefix of those written, and all of them only when nothing is left. */
  lemma PartlyRead<Op(!new), S(!new)>(p: Protocol<Op, S>, out: seq<Outgoing>,
                          got: Bytes, left: Bytes, frames: seq<Frame>, buffer: Bytes)
    requires Lawful(p) && Partly(p, out, got, left, frames, buffer)
    ensures frames <= FramesOf(out)
    ensures frames == FramesOf(out) <==> left == []
    ensures left == [] ==> buffer == []
  {
    assert Inverts(p, out);
    DrainContinues(p.next, got, left);
    var e := Drain(p.next, buffer + left);
    assert frames + e.items == FramesOf(out) && e.rest == [];
    if frames == FramesOf(out) {
      assert e.items == [];
      assert Sized(p.next, buffer + left);
      DrainUnfolds(p.next, buffer + left);
    }
    Empty(got);
  }

  /** Reading `n` more bytes is never refused. */
  lemma ReadMore<Op(!new), S(!new)>(p: Protocol<Op, S>, out: seq<Outgoing>,
                        got: Bytes, left: Bytes, frames: seq<Frame>, buffer: Bytes, n: nat)
    requires Lawful(p) && Partly(p, out, got, left, frames, buffer) && n <= |left|
    ensures var d := Drain(p.next, buffer + left[..n]);
            !d.refused && Partly(p, out, got + left[..n], left[n..], frames + d.items, d.rest)
  {
    var more, rest := left[..n], left[n..];
    SplitAt(got, left, n);
    DrainContinues(p.next, got, more);
    assert Inverts(p, out);
    if Drain(p.next, got + more).refused {
      RefusalStays(p.next, got + more, rest);
    }
  }

  /** More frames written, none read. */
  lemma WriteMore<Op, S>(p: Protocol<Op, S>, out: seq<Outgoing>, more: seq<Outgoing>,
                         got: Bytes, left: Bytes, frames: seq<Frame>, buffer: Bytes)
    requires Partly(p, out, got, left, frames, buffer) && AllValid(more)
    ensures Partly(p, out + more, got, left + WireOf(more), frames, buffer)
  {
    WireOfAppend(out, more);
    Assoc(got, left, WireOf(more));
  }

  // ---------------------------------------------------------------- the session

  /**
   The course of the operation under way, kept for the proofs only: its request, the bytes
   and frames of it that reached the server, the server's replies, and the bytes of those
   that reached the client.
   */
  datatype Course = Course(out: seq<Outgoing>, sent: Bytes, frames: seq<Frame>, replies: seq<Outgoing>, got: Bytes)

  datatype Session<!Op, !S> = Session(
    ops: seq<Op>, done: nat, awaiting: bool, h: Course,
    toServer: Bytes, serverBuffer: Bytes, server: S, serverFailed: bool,
    log: seq<Outgoing>,
    toClient: Bytes, clientBuffer: Bytes, queue: seq<Frame>, clientFailed: bool)

  datatype Event =
    | Send(out: seq<Outgoing>)   // the client writes the next operation
    | ToServer(n: nat)           // the transport delivers n bytes
    | ToClient(n: nat)
    | Expect                     // the client checks the frame at the head of its queue

  function Start<Op, S>(p: Protocol<Op, S>, ops: seq<Op>): Session<Op, S>
  {
    Session(ops, 0, false, Course([], [], [], [], []), [], [], p.idle, false, [], [], [], [], false)
  }

  predicate Can<Op, S>(p: Protocol<Op, S>, s: Session<Op, S>, e: Event)
  {
    && !s.serverFailed && !s.clientFailed
    && match e
       case Send(out) => !s.awaiting && s.done < |s.ops| && AllValid(out) && p.isRequest(s.ops[s.done], out)
       case ToServer(n) => 1 <= n <= |s.toServer|
       case ToClient(n) => 1 <= n <= |s.toClient|
       case Expect => s.awaiting && s.done < |s.ops| && s.queue != []
  }

  function DoSend<Op, S>(s: Session<Op, S>, out: seq<Outgoing>): Session<Op, S>
    requires AllValid(out)
  {
    s.(awaiting := true, h := Course(out, [], [], [], []), toServer := s.toServer + WireOf(out))
  }

  function DoToServer<Op, S>(p: Protocol<Op, S>, s: Session<Op, S>, n: nat): Session<Op, S>
    requires n <= |s.toServer|
  {
    var d := Drain(p.next, s.serverBuffer + s.toServer[..n]);
    var r := p.react(s.server, d.items);
    if d.refused || r.Raises? || !AllValid(r.replies) then s.(serverFailed := true)
    else s.(toServer := s.toServer[n..], serverBuffer := d.rest, server := r.next,
            log := s.log + r.replies, toClient := s.toClient + WireOf(r.replies),
            h := Course(s.h.out, s.h.sent + s.toServer[..n], s.h.frames + d.items, s.h.replies + r.replies, s.h.got))
  }

  function DoToClient<Op, S>(p: Protocol<Op, S>, s: Session<Op, S>, n: nat): Session<Op, S>
    requires n <= |s.toClient|
  {
    var d := Drain(p.next, s.clientBuffer + s.toClient[..n]);
    if d.refused then s.(clientFailed := true)
    else s.(toClient := s.toClient[n..], clientBuffer := d.rest, queue := s.queue + d.items,
            h := s.h.(got := s.h.got + s.toClient[..n]))
  }

  /** The check of `expect_frame`: unmasked, final, and the opcode and payload waited for. */
  predicate Accepts(want: Outgoing, f: Frame)
  {
    !f.masked && f.fin && f.opcode == want.opcode && f.payload == want.payload
  }

  function DoExpect<Op, S>(p: Protocol<Op, S>, s: Session<Op, S>): Session<Op, S>
    requires s.done < |s.ops| && s.queue != []
  {
    if Accepts(p.expected(s.ops[s.done]), s.queue[0])
    then s.(done := s.done + 1, awaiting := false, queue := s.queue[1..])
    else s.(clientFailed := true)
  }

  function Do<Op, S>(p: Protocol<Op, S>, s: Session<Op, S>, e: Event): Session<Op, S>
    requires Can(p, s, e)
  {
    match e
    case Send(out) => DoSend(s, out)
    case ToServer(n) => DoToServer(p, s, n)
    case ToClient(n) => DoToClient(p, s, n)
    case Expect => DoExpect(p, s)
  }

  predicate Runs<Op, S>(p: Protocol<Op, S>, s: Session<Op, S>, run: seq<Event>)
    decreases |run|
  {
    run != [] ==> Can(p, s, run[0]) && Runs(p, Do(p, s, run[0]), run[1..])
  }

  function Exec<Op, S>(p: Protocol<Op, S>, s: Session<Op, S>, run: seq<Event>): Session<Op, S>
    requires Runs(p, s, run)
    decreases |run|
  {
    if run == [] then s else Exec(p, Do(p, s, run[0]), run[1..])
  }

  // ---------------------------------------------------------------- what every event keeps

  /** The operations after which the server is not fresh are only the last ones. */
  ghost predicate Script<Op, S>(p: Protocol<Op, S>, ops: seq<Op>)
  {
    && (forall k :: 0 <= k < |ops| - 1 ==> p.after(ops[k]) == p.idle)
    && (forall k :: 0 <= k < |ops| ==>
          p.expected(ops[k]).fin && p.expected(ops[k]).key.None? && exists out :: p.isRequest(ops[k], out))
  }

  /** The server's state between operations, when the first `k` are answered. */
  function Between<Op, S>(p: Protocol<Op, S>, ops: seq<Op>, k: nat): S
    requires k <= |ops|
  {
    if k == 0 then p.idle else p.after(ops[k - 1])
  }

  /** The replies expected for the first `k` operations. */
  function Replies<Op, S>(p: Protocol<Op, S>, ops: seq<Op>, k: nat): seq<Outgoing>
    requires k <= |ops|
  {
    if k == 0 then [] else Replies(p, ops, k - 1) + [p.expected(ops[k - 1])]
  }

  lemma {:induction false} RepliesPrefix<Op, S>(p: Protocol<Op, S>, ops: seq<Op>, j: nat, k: nat)
    requires j <= k <= |ops|
    ensures Replies(p, ops, j) <= Replies(p, ops, k)
    ensures |Replies(p, ops, k)| == |Replies(p, ops, j)| + k - j
    decreases k
  {
    if j < k {
      RepliesPrefix(p, ops, j, k - 1);
    }
  }

  /** Between operations nothing is under way anywhere. */
  ghost predicate AtRest<Op, S>(p: Protocol<Op, S>, s: Session<Op, S>)
  {
    && s.toServer == [] && s.serverBuffer == []
    && s.toClient == [] && s.clientBuffer == [] && s.queue == []
    && s.done <= |s.ops|
    && s.server == Between(p, s.ops, s.done)
    && s.log == Replies(p, s.ops, s.done)
  }

  /** An operation under way: both directions partly read, and the server as far as its frames go. */
  ghost predicate Under<Op, S>(p: Protocol<Op, S>, s: Session<Op, S>)
  {
    && s.done < |s.ops|
    && p.isRequest(s.ops[s.done], s.h.out)
    && Partly(p, s.h.out, s.h.sent, s.toServer, s.h.frames, s.serverBuffer)
    && p.react(p.idle, s.h.frames) == Goes(s.server, s.h.replies)
    && Partly(p, s.h.replies, s.h.got, s.toClient, s.queue, s.clientBuffer)
    && s.log == Replies(p, s.ops, s.done) + s.h.replies
  }

  ghost predicate Inv<Op, S>(p: Protocol<Op, S>, s: Session<Op, S>)
  {
    && Script(p, s.ops) && !s.serverFailed && !s.clientFailed
    && if s.awaiting then Under(p, s) else AtRest(p, s)
  }

  /** How far the server has come with the request, and what it has sent. */
  lemma Progress<Op(!new), S(!new)>(p: Protocol<Op, S>, s: Session<Op, S>)
    requires Lawful(p) && Under(p, s)
    ensures var op := s.ops[s.done];
            && p.expected(op).Valid()
            && s.h.replies == (if s.toServer == [] then [p.expected(op)] else [])
            && (s.toServer == [] ==> s.serverBuffer == [] && s.server == p.after(op))
  {
    PartlyRead(p, s.h.out, s.h.sent, s.toServer, s.h.frames, s.serverBuffer);
    assert Serves(p, s.ops[s.done], s.h.out, s.h.frames);
  }

  lemma SendStep<Op(!new), S(!new)>(p: Protocol<Op, S>, s: Session<Op, S>, out: seq<Outgoing>)
    requires Lawful(p) && Inv(p, s) && Can(p, s, Send(out))
    ensures Inv(p, DoSend(s, out))
  {
    NothingYet(p, out);
    NothingYet(p, []);
    Empty(WireOf(out));
    Empty(s.log);
    assert Idles(p, p.idle);
    assert Between(p, s.ops, s.done) == p.idle;
  }

  /** The frames that complete with the next `n` bytes are handled, and the replies add up. */
  lemma ServerReads<Op(!new), S(!new)>(p: Protocol<Op, S>, s: Session<Op, S>, n: nat)
    requires Lawful(p) && Under(p, s) && n <= |s.toServer|
    ensures var d := Drain(p.next, s.serverBuffer + s.toServer[..n]);
            var r := p.react(s.server, d.items);
            && !d.refused && r.Goes? && AllValid(r.replies)
            && Under(p, DoToServer(p, s, n))
  {
    var d := Drain(p.next, s.serverBuffer + s.toServer[..n]);
    ReadMore(p, s.h.out, s.h.sent, s.toServer, s.h.frames, s.serverBuffer, n);
    PartlyRead(p, s.h.out, s.h.sent + s.toServer[..n], s.toServer[n..], s.h.frames + d.items, d.rest);
    assert Serves(p, s.ops[s.done], s.h.out, s.h.frames + d.items);
    assert Appends(p, p.idle, s.h.frames, d.items);
    var r := p.react(s.server, d.items);
    assert Sendable(p, s.server, d.items);
    WriteMore(p, s.h.replies, r.replies, s.h.got, s.toClient, s.queue, s.clientBuffer);
    Assoc(Replies(p, s.ops, s.done), s.h.replies, r.replies);
  }

  lemma ToServerStep<Op(!new), S(!new)>(p: Protocol<Op, S>, s: Session<Op, S>, n: nat)
    requires Lawful(p) && Inv(p, s) && Can(p, s, ToServer(n))
    ensures Inv(p, DoToServer(p, s, n))
  {
    ServerReads(p, s, n);
  }

  lemma ToClientStep<Op(!new), S(!new)>(p: Protocol<Op, S>, s: Session<Op, S>, n: nat)
    requires Lawful(p) && Inv(p, s) && Can(p, s, ToClient(n))
    ensures Inv(p, DoToClient(p, s, n))
    ensures DoToClient(p, s, n).toClient == s.toClient[n..]
  {
    ReadMore(p, s.h.replies, s.h.got, s.toClient, s.queue, s.clientBuffer, n);
  }

  /** A frame in the client's queue is the expected reply, and with it nothing is under way. */
  lemma QueueHolds<Op(!new), S(!new)>(p: Protocol<Op, S>, s: Session<Op, S>)
    requires Lawful(p) && Under(p, s) && s.queue != []
    ensures var op := s.ops[s.done];
            && s.queue == [p.expected(op).Sent()]
            && s.toServer == [] && s.serverBuffer == [] && s.toClient == [] && s.clientBuffer == []
            && s.server == p.after(op) && s.log == Replies(p, s.ops, s.done) + [p.expected(op)]
  {
    Progress(p, s);
    PartlyRead(p, s.h.replies, s.h.got, s.toClient, s.queue, s.clientBuffer);
    assert s.h.replies != [];
    FramesOfOne(s.h.replies);
  }

  lemma FramesOfOne(out: seq<Outgoing>)
    requires |out| == 1
    ensures FramesOf(out) == [out[0].Sent()]
  {
    assert out[1..] == [];
  }

  lemma ExpectStep<Op(!new), S(!new)>(p: Protocol<Op, S>, s: Session<Op, S>)
    requires Lawful(p) && Inv(p, s) && Can(p, s, Expect)
    ensures Inv(p, DoExpect(p, s)) && DoExpect(p, s).done == s.done + 1
  {
    QueueHolds(p, s);
    assert Accepts(p.expected(s.ops[s.done]), s.queue[0]);
  }

  lemma StepInv<Op(!new), S(!new)>(p: Protocol<Op, S>, s: Session<Op, S>, e: Event)
    requires Lawful(p) && Inv(p, s) && Can(p, s, e)
    ensures Inv(p, Do(p, s, e))
  {
    match e
    case Send(out) => SendStep(p, s, out);
    case ToServer(n) => ToServerStep(p, s, n);
    case ToClient(n) => ToClientStep(p, s, n);
    case Expect => ExpectStep(p, s);
  }

  lemma {:induction false} RunInv<Op(!new), S(!new)>(p: Protocol<Op, S>, s: Session<Op, S>, run: seq<Event>)
    requires Lawful(p) && Inv(p, s) && Runs(p, s, run)
    ensures Inv(p, Exec(p, s, run)) && Exec(p, s, run).ops == s.ops
    decreases |run|
  {
    if run != [] {
      StepInv(p, s, run[0]);
      RunInv(p, Do(p, s, run[0]), run[1..]);
    }
  }

  lemma StartInv<Op, S>(p: Protocol<Op, S>, ops: seq<Op>)
    requires Script(p, ops)
    ensures Inv(p, Start(p, ops))
  {
  }

  // ---------------------------------------------------------------- end to end

  /** The replies sent are those of the operations done, and perhaps the one under way. */
  lemma LogSoFar<Op(!new), S(!new)>(p: Protocol<Op, S>, s: Session<Op, S>)
    requires Lawful(p) && Inv(p, s)
    ensures s.done <= |s.ops|
    ensures Replies(p, s.ops, s.done) <= s.log <= Replies(p, s.ops, |s.ops|)
    ensures s.done <= |s.log| <= s.done + (if s.awaiting then 1 else 0)
  {
    if s.awaiting {
      Progress(p, s);
      RepliesPrefix(p, s.ops, s.done + 1, |s.ops|);
      Empty(Replies(p, s.ops, s.done));
    }
    RepliesPrefix(p, s.ops, 0, s.done);
    RepliesPrefix(p, s.ops, s.done, |s.ops|);
  }

  /**
   For any operations of a lawful protocol, any requests for them, and any cutting and
   interleaving of the bytes of both directions: the server raises nothing, the client
   turns no reply down, the server has sent exactly one reply, the expected one, for each
   operation answered so far, and between operations nothing is under way.
   */
  lemma {:induction false} NothingEverFails<Op(!new), S(!new)>(p: Protocol<Op, S>, ops: seq<Op>, run: seq<Event>)
    requires Lawful(p) && Script(p, ops) && Runs(p, Start(p, ops), run)
    ensures var s := Exec(p, Start(p, ops), run);
            && s.ops == ops && s.done <= |ops|
            && !s.serverFailed && !s.clientFailed
            && (!s.awaiting ==> AtRest(p, s))
            && Replies(p, ops, s.done) <= s.log <= Replies(p, ops, |ops|)
            && s.done <= |s.log| <= s.done + (if s.awaiting then 1 else 0)
  {
    StartInv(p, ops);
    RunInv(p, Start(p, ops), run);
    LogSoFar(p, Exec(p, Start(p, ops), run));
  }

  /** A session in which operations are left can go on. */
  lemma NeverStuck<Op(!new), S(!new)>(p: Protocol<Op, S>, s: Session<Op, S>)
    requires Lawful(p) && Inv(p, s) && s.done < |s.ops|
    ensures exists e :: Can(p, s, e)
  {
    if !s.awaiting {
      var out :| p.isRequest(s.ops[s.done], out);
      assert Serves(p, s.ops[s.done], out, []);
      assert Can(p, s, Send(out));
    } else {
      Progress(p, s);
      if s.toServer != [] {
        assert Can(p, s, ToServer(1));
      } else if s.toClient != [] {
        assert Can(p, s, ToClient(1));
      } else {
        PartlyRead(p, s.h.replies, s.h.got, s.toClient, s.queue, s.clientBuffer);
        FramesOfOne(s.h.replies);
        assert Can(p, s, Expect);
      }
    }
  }

  lemma Ended<Op(!new), S(!new)>(p: Protocol<Op, S>, s: Session<Op, S>)
    requires Lawful(p) && Inv(p, s)
    ensures (forall e :: !Can(p, s, e)) ==>
              s.done == |s.ops| && s.log == Replies(p, s.ops, |s.ops|) && AtRest(p, s)
  {
    if s.done < |s.ops| {
      NeverStuck(p, s);
    }
  }

  // ---------------------------------------------------------------- every session ends

  ghost predicate RequestFits<Op, S>(p: Protocol<Op, S>, op: Op, out: seq<Outgoing>, most: nat)
  {
    p.isRequest(op, out) && AllValid(out) ==> |WireOf(out)| <= most
  }

  ghost predicate ReplyFits<Op, S>(p: Protocol<Op, S>, op: Op, most: nat)
  {
    p.expected(op).Valid() ==> |p.expected(op).Wire()| <= most
  }

  /** No request is longer than `most` bytes, nor any reply. */
  ghost predicate Within<Op(!new), S>(p: Protocol<Op, S>, most: nat)
  {
    && (forall op, out :: RequestFits(p, op, out, most))
    && (forall op :: ReplyFits(p, op, most))
  }

  /** Room for the bytes of `k` operations and their replies, and for two events each. */
  function Budget(k: nat, most: nat): nat
  {
    if k == 0 then 0 else Budget(k - 1, most) + 2 * most + 2
  }

  /** A bound on the events still to come. */
  function Remaining<Op, S>(s: Session<Op, S>, most: nat): nat
    requires Placed(s)
  {
    if s.awaiting then
      Budget(|s.ops| - s.done - 1, most) + |s.toServer| + |s.toClient| + 1 + (if s.toServer == [] then 0 else most)
    else Budget(|s.ops| - s.done, most)
  }

  lemma OneWire(x: Outgoing)
    requires x.Valid()
    ensures AllValid([x]) && WireOf([x]) == x.Wire()
  {
    assert [x][1..] == [];
    Empty(x.Wire());
  }

  /** The delivery that completes a request brings the reply; others bring none. */
  lemma ServerSends<Op(!new), S(!new)>(p: Protocol<Op, S>, s: Session<Op, S>, n: nat)
    requires Lawful(p) && Under(p, s) && 1 <= n <= |s.toServer|
    ensures var op, t := s.ops[s.done], DoToServer(p, s, n);
            && t.ops == s.ops && t.done == s.done && t.awaiting == s.awaiting
            && t.toServer == s.toServer[n..]
            && p.expected(op).Valid()
            && t.toClient == s.toClient + (if t.toServer == [] then p.expected(op).Wire() else [])
  {
    var op, t, d := s.ops[s.done], DoToServer(p, s, n), Drain(p.next, s.serverBuffer + s.toServer[..n]);
    ServerReads(p, s, n);
    Progress(p, s);
    Progress(p, t);
    var r := p.react(s.server, d.items);
    Empty(r.replies);
    assert s.h.replies == [] && t.h.replies == r.replies;
    if t.toServer == [] {
      OneWire(p.expected(op));
    }
  }

  /** A delivery is paid for by its bytes, and the reply by the reserve for it. */
  lemma Pays<Op, S>(s: Session<Op, S>, t: Session<Op, S>, reply: Bytes, most: nat)
    requires s.done < |s.ops| && s.awaiting && t.awaiting && t.ops == s.ops && t.done == s.done
    requires |t.toServer| < |s.toServer| && |reply| <= most
    requires t.toClient == s.toClient + (if t.toServer == [] then reply else [])
    ensures Remaining(t, most) < Remaining(s, most)
  {
  }

  lemma ServerPays<Op(!new), S(!new)>(p: Protocol<Op, S>, s: Session<Op, S>, n: nat, most: nat)
    requires Lawful(p) && Under(p, s) && s.awaiting && 1 <= n <= |s.toServer| && Within(p, most)
    ensures DoToServer(p, s, n).done == s.done && DoToServer(p, s, n).ops == s.ops
    ensures Remaining(DoToServer(p, s, n), most) < Remaining(s, most)
  {
    ServerSends(p, s, n);
    assert ReplyFits(p, s.ops[s.done], most);
    Pays(s, DoToServer(p, s, n), p.expected(s.ops[s.done]).Wire(), most);
  }

  lemma SendPays<Op(!new), S(!new)>(p: Protocol<Op, S>, s: Session<Op, S>, out: seq<Outgoing>, most: nat)
    requires AtRest(p, s) && Can(p, s, Send(out)) && Within(p, most)
    ensures Remaining(DoSend(s, out), most) < Remaining(s, most)
  {
    assert RequestFits(p, s.ops[s.done], out, most);
    Empty(WireOf(out));
  }

  predicate Placed<Op, S>(s: Session<Op, S>)
  {
    s.done <= |s.ops| && (s.awaiting ==> s.done < |s.ops|)
  }

  lemma ClientReads<Op(!new), S(!new)>(p: Protocol<Op, S>, s: Session<Op, S>, n: nat)
    requires Lawful(p) && Under(p, s) && n <= |s.toClient|
    ensures var t := DoToClient(p, s, n);
            && t.ops == s.ops && t.done == s.done && t.awaiting == s.awaiting
            && t.toServer == s.toServer && t.toClient == s.toClient[n..]
  {
    ReadMore(p, s.h.replies, s.h.got, s.toClient, s.queue, s.clientBuffer, n);
  }

  lemma Shorter<Op, S>(s: Session<Op, S>, t: Session<Op, S>, most: nat)
    requires Placed(s) && s.awaiting && t.awaiting && t.ops == s.ops && t.done == s.done
    requires t.toServer == s.toServer && |t.toClient| < |s.toClient|
    ensures Remaining(t, most) < Remaining(s, most)
  {
  }

  lemma ClientPays<Op(!new), S(!new)>(p: Protocol<Op, S>, s: Session<Op, S>, n: nat, most: nat)
    requires Lawful(p) && Under(p, s) && s.awaiting && 1 <= n <= |s.toClient|
    ensures var t := DoToClient(p, s, n); Placed(t) && Remaining(t, most) < Remaining(s, most)
  {
    ClientReads(p, s, n);
    Shorter(s, DoToClient(p, s, n), most);
  }

  lemma ExpectMoves<Op(!new), S(!new)>(p: Protocol<Op, S>, s: Session<Op, S>)
    requires Lawful(p) && Under(p, s) && s.awaiting && s.queue != [] && Script(p, s.ops)
    ensures var t := DoExpect(p, s); t.ops == s.ops && t.done == s.done + 1 && !t.awaiting
  {
    QueueHolds(p, s);
    assert Accepts(p.expected(s.ops[s.done]), s.queue[0]);
  }

  lemma Settles<Op, S>(s: Session<Op, S>, t: Session<Op, S>, most: nat)
    requires Placed(s) && s.awaiting && !t.awaiting && t.ops == s.ops && t.done == s.done + 1
    ensures Placed(t) && Remaining(t, most) < Remaining(s, most)
  {
  }

  lemma ExpectPays<Op(!new), S(!new)>(p: Protocol<Op, S>, s: Session<Op, S>, most: nat)
    requires Lawful(p) && Under(p, s) && s.awaiting && s.queue != [] && Script(p, s.ops)
    ensures var t := DoExpect(p, s); Placed(t) && Remaining(t, most) < Remaining(s, most)
  {
    ExpectMoves(p, s);
    Settles(s, DoExpect(p, s), most);
  }

  lemma RemainingDrops<Op(!new), S(!new)>(p: Protocol<Op, S>, s: Session<Op, S>, e: Event, most: nat)
    requires Lawful(p) && Inv(p, s) && Can(p, s, e) && Within(p, most)
    ensures Placed(s) && Placed(Do(p, s, e)) && Remaining(Do(p, s, e), most) < Remaining(s, most)
  {
    match e
    case Send(out) => SendPays(p, s, out, most);
    case ToServer(n) => ServerPays(p, s, n, most);
    case ToClient(n) => ClientPays(p, s, n, most);
    case Expect => ExpectPays(p, s, most);
  }

  lemma {:induction false} RunBounded<Op(!new), S(!new)>(p: Protocol<Op, S>, s: Session<Op, S>,
                                                         run: seq<Event>, most: nat)
    requires Lawful(p) && Inv(p, s) && Runs(p, s, run) && Within(p, most)
    ensures |run| <= Remaining(s, most)
    decreases |run|
  {
    if run != [] {
      RemainingDrops(p, s, run[0], most);
      StepInv(p, s, run[0]);
      RunBounded(p, Do(p, s, run[0]), run[1..], most);
    }
  }

  /**
   Every session is finite, and one that cannot be continued is complete: all operations
   answered and accepted in order, nothing left under way.
   */
  lemma {:induction false} EverySessionCompletes<Op(!new), S(!new)>(p: Protocol<Op, S>, ops: seq<Op>,
                                                                    run: seq<Event>, most: nat)
    requires Lawful(p) && Script(p, ops) && Within(p, most) && Runs(p, Start(p, ops), run)
    ensures |run| <= Budget(|ops|, most)
    ensures var s := Exec(p, Start(p, ops), run);
            (forall e :: !Can(p, s, e)) ==>
              s.done == |ops| && s.log == Replies(p, ops, |ops|) && AtRest(p, s)
  {
    StartInv(p, ops);
    RunBounded(p, Start(p, ops), run, most);
    RunInv(p, Start(p, ops), run);
    Ended(p, Exec(p, Start(p, ops), run));
  }
}
