/**
 One WebSocket stream of the multiplexed session: frames parsed again out of DATA events
 that cut the byte stream anywhere.
 */
module Http2Stream {
  import opened Octets
  import opened Counting
  import opened Incremental
  import opened WebSocket
  import opened WebSocketGo
  import opened Http2Session

  /** The octets an event adds to the stream. */
  function Octets1(e: Event): Bytes { if e.Payload? then e.octets else [] }

  function OctetsOf(events: seq<Event>): Bytes
  {
    if events == [] then [] else Octets1(events[0]) + OctetsOf(events[1..])
  }

  predicate CarriesOctets(e: Event) { e.Payload? && e.octets != [] }

  /** No event reports that the stream was reset. */
  predicate Clean(events: seq<Event>) { forall e :: e in events ==> !e.Failure? }

  lemma {:induction false} OctetsAppend(a: seq<Event>, b: seq<Event>)
    ensures OctetsOf(a + b) == OctetsOf(a) + OctetsOf(b)
  {
    if a == [] {
      Empty(b);
      Empty(OctetsOf(b));
    } else {
      assert (a + b)[1..] == a[1..] + b;
      OctetsAppend(a[1..], b);
      Assoc(Octets1(a[0]), OctetsOf(a[1..]), OctetsOf(b));
    }
  }

  // ---------------------------------------------------------------- reading a frame

  /** A call: the frame, or none where it fails or waits; what is buffered; what is queued. */
  datatype Call = Call(frame: Option<Frame>, pending: Bytes, queue: seq<Event>)

  function ReadOne(next: Bytes -> Step<Frame>, pending: Bytes, queue: seq<Event>): Call
    decreases |queue|
  {
    var n := next(pending);
    if n.Got? && n.consumed <= |pending| then Call(Some(n.item), pending[n.consumed..], queue)
    else if !n.More? || queue == [] then Call(None, pending, queue)
    else if queue[0].Failure? then Call(None, pending, queue[1..])
    else ReadOne(next, pending + Octets1(queue[0]), queue[1..])
  }

  /** Octets arriving behind an incomplete frame. */
  lemma Arrives<T>(next: Bytes -> Step<T>, received: Bytes, returned: seq<T>, pending: Bytes, more: Bytes)
    requires Steady(next) && Underway(next, Drain(next, received), returned, pending) && next(pending).More?
    ensures Underway(next, Drain(next, received + more), returned, pending + more)
  {
    TakeNone(next, Drain(next, received), returned, pending);
    DrainContinues(next, received, more);
  }

  /**
   `multiplexedWebSocket`; the ghost fields are the events it took off its queue, the octets
   of the frames it returned, and these frames.
   */
  class MultiplexedWebSocket {
    var frames: seq<Event>
    var pending: Bytes
    var dataFrames: nat
    ghost var seen: seq<Event>
    ghost var taken: Bytes
    ghost var returned: seq<Frame>

    constructor (queue: seq<Event>)
      ensures Valid() && frames == queue && pending == [] && seen == [] && returned == []
    {
      frames, pending, dataFrames := queue, [], 0;
      seen, taken, returned := [], [], [];
      new;
      Empty(Drain(NextWhole, []).items);
    }

    /**
     The octets received are those of the frames returned followed by `pending`, the frames
     returned are the first ones of the octets received, and the DATA frames counted are the
     events seen that carried octets.
     */
    ghost predicate Valid()
      reads this
    {
      Accounted(seen, taken, returned, pending) && dataFrames == Count(seen, CarriesOctets)
    }

    /** A frame at the front of `pending` is taken off it. */
    method TryTake() returns (p: Step<Frame>)
      requires Valid()
      modifies this
      ensures Valid() && frames == old(frames) && seen == old(seen)
      ensures p == NextWhole(old(pending)) && (p.Got? ==> p.consumed <= |old(pending)|)
      ensures pending == if p.Got? then old(pending)[p.consumed..] else old(pending)
      ensures returned == if p.Got? then old(returned) + [p.item] else old(returned)
    {
      p := ParseFrameConsumed(pending);
      if p.Got? {
        AccountedTake(seen, taken, returned, pending);
        taken := taken + pending[..p.consumed];
        returned := returned + [p.item];
        pending := pending[p.consumed..];
      }
    }

    /** An event is taken off the queue, and its data put behind `pending`. */
    method TakeEvent() returns (e: Event)
      requires Valid() && NextWhole(pending).More? && frames != []
      modifies this
      ensures Valid() && returned == old(returned)
      ensures e == old(frames)[0] && frames == old(frames)[1..] && seen == old(seen) + [e]
      ensures pending == old(pending) + Octets1(e)
    {
      e := frames[0];
      frames := frames[1..];
      AccountedArrive(seen, taken, returned, pending, e);
      CountSnoc(seen, CarriesOctets, e);
      seen := seen + [e];
      if e.Payload? && |e.octets| > 0 {
        dataFrames := dataFrames + 1;
        pending := pending + e.octets;
      } else {
        Empty(pending);
      }
    }

    /** `readWebSocketFrame`: the next frame; events are only moved from the queue to those seen. */
    method ReadWebSocketFrame() returns (r: Option<Frame>)
      requires Valid()
      modifies this
      ensures Valid() && seen + frames == old(seen) + old(frames)
      ensures Call(r, pending, frames) == ReadOne(NextWhole, old(pending), old(frames))
      ensures returned == if r.Some? then old(returned) + [r.value] else old(returned)
    {
      while true
        invariant Valid() && returned == old(returned) && seen + frames == old(seen) + old(frames)
        invariant ReadOne(NextWhole, pending, frames) == ReadOne(NextWhole, old(pending), old(frames))
        decreases |frames|
      {
        ReadOneSteps(NextWhole, pending, frames);
        var p := TryTake();
        if p.Got? {
          return Some(p.item);
        }
        if p.Refused? || frames == [] {
          return None;
        }
        MoveOne(seen, frames);
        var event := TakeEvent();
        if event.Failure? {
          Empty(pending);
          return None;
        }
      }
    }
  }

  /** What a stream keeps true of what it has seen, returned and buffered. */
  ghost predicate Accounted(seen: seq<Event>, taken: Bytes, returned: seq<Frame>, pending: Bytes)
  {
    && OctetsOf(seen) == taken + pending
    && Underway(NextWhole, Drain(NextWhole, OctetsOf(seen)), returned, pending)
    && Underway(NextWhole, Drain(NextWhole, taken), returned, [])
  }

  lemma MoveOne(seen: seq<Event>, queue: seq<Event>)
    requires queue != []
    ensures (seen + [queue[0]]) + queue[1..] == seen + queue
  {
  }

  lemma AccountedTake(seen: seq<Event>, taken: Bytes, returned: seq<Frame>, pending: Bytes)
    requires Accounted(seen, taken, returned, pending) && NextWhole(pending).Got?
    ensures var p := NextWhole(pending);
            && p.consumed <= |pending|
            && Accounted(seen, taken + pending[..p.consumed], returned + [p.item], pending[p.consumed..])
  {
    TakeFrame(OctetsOf(seen), taken, returned, pending);
  }

  lemma AccountedArrive(seen: seq<Event>, taken: Bytes, returned: seq<Frame>, pending: Bytes, e: Event)
    requires Accounted(seen, taken, returned, pending) && NextWhole(pending).More?
    ensures Accounted(seen + [e], taken, returned, pending + Octets1(e))
  {
    NextWholeSteady();
    OctetsAppend(seen, [e]);
    assert [e][1..] == [];
    Empty(Octets1(e));
    Arrives(NextWhole, OctetsOf(seen), returned, pending, Octets1(e));
    Assoc(taken, pending, Octets1(e));
  }

  lemma ReadOneSteps(next: Bytes -> Step<Frame>, pending: Bytes, queue: seq<Event>)
    ensures next(pending).Got? && next(pending).consumed <= |pending| ==>
              ReadOne(next, pending, queue) == Call(Some(next(pending).item), pending[next(pending).consumed..], queue)
    ensures next(pending).Refused? || (next(pending).More? && queue == []) ==>
              ReadOne(next, pending, queue) == Call(None, pending, queue)
    ensures next(pending).More? && queue != [] ==>
              ReadOne(next, pending, queue) ==
                if queue[0].Failure? then Call(None, pending, queue[1..])
                else ReadOne(next, pending + Octets1(queue[0]), queue[1..])
  {
  }

  /** Taking the first frame off `pending` keeps what is known of both parts. */
  lemma TakeFrame(received: Bytes, taken: Bytes, returned: seq<Frame>, pending: Bytes)
    requires received == taken + pending && NextWhole(pending).Got?
    requires Underway(NextWhole, Drain(NextWhole, received), returned, pending)
    requires Underway(NextWhole, Drain(NextWhole, taken), returned, [])
    ensures var p := NextWhole(pending);
            && p.consumed <= |pending|
            && received == (taken + pending[..p.consumed]) + pending[p.consumed..]
            && Underway(NextWhole, Drain(NextWhole, received), returned + [p.item], pending[p.consumed..])
            && Underway(NextWhole, Drain(NextWhole, taken + pending[..p.consumed]), returned + [p.item], [])
  {
    NextWholeSteady();
    var p := NextWhole(pending);
    assert Sized(NextWhole, pending);
    var front := pending[..p.consumed];
    SplitAt(taken, pending, p.consumed);
    TakeOne(NextWhole, Drain(NextWhole, received), returned, pending);
    Arrives(NextWhole, taken, returned, [], front);
    Empty(front);
    NextWholeIsLocal(pending, front);
    assert front[p.consumed..] == [];
    TakeOne(NextWhole, Drain(NextWhole, taken + front), returned, front);
  }

  lemma NextWholeIsLocal(b: Bytes, front: Bytes)
    requires NextWhole(b).Got? && NextWhole(b).consumed <= |b| && front == b[..NextWhole(b).consumed]
    ensures NextWhole(front) == NextWhole(b)
  {
    NextIsLocal(b, front);
    NextSized(b);
    assert Next(b).consumed >= 2;
    assert front[0] == b[0] && front[1] == b[1];
  }

  // ---------------------------------------------------------------- call after call

  /** The frames that calls return, one after another, until one returns none. */
  function ReadAll(next: Bytes -> Step<Frame>, pending: Bytes, queue: seq<Event>): seq<Frame>
    decreases |queue|, |pending|
  {
    var n := next(pending);
    if n.Got? && 1 <= n.consumed <= |pending| then [n.item] + ReadAll(next, pending[n.consumed..], queue)
    else if !n.More? || queue == [] || queue[0].Failure? then []
    else ReadAll(next, pending + Octets1(queue[0]), queue[1..])
  }

  /** `ReadAll` is call after call. */
  lemma {:induction false} ReadAllIsCalls(next: Bytes -> Step<Frame>, pending: Bytes, queue: seq<Event>)
    requires Steady(next)
    ensures var c := ReadOne(next, pending, queue);
            ReadAll(next, pending, queue) ==
              if c.frame.None? then [] else [c.frame.value] + ReadAll(next, c.pending, c.queue)
    decreases |queue|
  {
    assert Sized(next, pending);
    if next(pending).More? && queue != [] && !queue[0].Failure? {
      ReadAllIsCalls(next, pending + Octets1(queue[0]), queue[1..]);
    }
  }

  /** However the stream is cut into events, the calls return its frames in order. */
  lemma {:induction false} ReadsEverything(next: Bytes -> Step<Frame>, pending: Bytes, queue: seq<Event>)
    requires Steady(next) && Clean(queue)
    ensures ReadAll(next, pending, queue) == Drain(next, pending + OctetsOf(queue)).items
    decreases |queue|, |pending|
  {
    assert Sized(next, pending);
    var rest := OctetsOf(queue);
    assert Stable(next, pending, rest);
    if next(pending).Got? {
      var n := next(pending).consumed;
      ReadsEverything(next, pending[n..], queue);
      assert (pending + rest)[n..] == pending[n..] + rest;
    } else if next(pending).More? {
      if queue == [] {
        Empty(pending);
      } else {
        assert queue[0] in queue;
        assert forall e :: e in queue[1..] ==> e in queue;
        ReadsEverything(next, pending + Octets1(queue[0]), queue[1..]);
        Assoc(pending, Octets1(queue[0]), OctetsOf(queue[1..]));
      }
    }
  }

  /** The frames a server may send: whole ones with lengths of at most 16 bits. */
  predicate Sendable(out: seq<Outgoing>)
  {
    AllValid(out) && forall k :: 0 <= k < |out| ==> out[k].fin && |out[k].payload| <= 65535
  }

  lemma {:induction false} DrainWholeOfWire(out: seq<Outgoing>)
    requires Sendable(out)
    ensures Drain(NextWhole, WireOf(out)) == Drained(FramesOf(out), [], false)
  {
    if out != [] {
      var f, tail := out[0], WireOf(out[1..]);
      FrontWhole(f, tail);
      DrainWholeOfWire(out[1..]);
      assert (f.Wire() + tail)[|f.Wire()|..] == tail;
      DrainUnfolds(NextWhole, f.Wire() + tail);
    }
  }

  lemma FrontWhole(f: Outgoing, tail: Bytes)
    requires f.Valid() && f.fin && |f.payload| <= 65535
    ensures NextWhole(f.Wire() + tail) == Got(f.Sent(), |f.Wire()|)
  {
    var s := f.Wire() + tail;
    NextOfEncode(true, f.opcode, f.key, f.payload, tail);
    var h := Header(true, f.opcode, |f.payload|, f.key.Some?);
    HeaderParts(true, f.opcode, |f.payload|, f.key.Some?);
    assert Low7(h[1]) != 127;
    assert s[0] == h[0] && s[1] == h[1];
  }

  /**
   Server frames, cut into any DATA events with header blocks and empty ones between them,
   come back in order.
   */
  lemma {:induction false} StreamReadsServerFrames(out: seq<Outgoing>, queue: seq<Event>)
    requires Sendable(out) && Clean(queue) && OctetsOf(queue) == WireOf(out)
    ensures ReadAll(NextWhole, [], queue) == FramesOf(out)
  {
    NextWholeSteady();
    ReadsEverything(NextWhole, [], queue);
    Empty(WireOf(out));
    DrainWholeOfWire(out);
  }

  // ---------------------------------------------------------------- opening the stream

  /** The events behind the first header block, which are all the stream ever reads. */
  function Body(events: seq<Event>): seq<Event>
  {
    if events == [] || events[0].Failure? then []
    else if events[0].HeaderBlock? then events[1..]
    else Body(events[1..])
  }

  /** A header block comes before any failure, so that `openWebSocket` gets its response. */
  predicate Responds(events: seq<Event>)
  {
    events != [] && !events[0].Failure? && (events[0].HeaderBlock? || Responds(events[1..]))
  }

  /** The first header block is at `i`, with nothing but DATA before it. */
  predicate FirstBlockAt(events: seq<Event>, i: nat)
  {
    i < |events| && events[i].HeaderBlock? && forall j :: 0 <= j < i ==> events[j].Payload?
  }

  lemma {:induction false} BehindFirstBlock(events: seq<Event>)
    ensures Responds(events) <==> exists i: nat :: FirstBlockAt(events, i)
    ensures forall i: nat :: FirstBlockAt(events, i) ==> Body(events) == events[i + 1..]
    decreases |events|
  {
    if events != [] {
      var rest := events[1..];
      BehindFirstBlock(rest);
      if Responds(events) && events[0].Payload? {
        var i: nat :| FirstBlockAt(rest, i);
        assert events[i + 1] == rest[i] && forall j :: 1 <= j < i + 1 ==> events[j] == rest[j - 1];
        assert FirstBlockAt(events, i + 1);
      } else if Responds(events) {
        assert FirstBlockAt(events, 0);
      }
      forall i: nat | FirstBlockAt(events, i) ensures Responds(events) && Body(events) == events[i + 1..] {
        if i > 0 {
          assert rest[i - 1] == events[i] && forall j :: 0 <= j < i - 1 ==> rest[j] == events[j + 1];
          assert FirstBlockAt(rest, i - 1);
          assert rest[i..] == events[i + 1..];
        }
      }
    }
  }

  /** `readMultiplexedResponseHeaders`: the first block, if no failure precedes it, and the events behind it. */
  method ReadResponseHeaders(queue: seq<Event>) returns (block: Option<Bytes>, rest: seq<Event>)
    ensures block.Some? <==> exists i: nat :: FirstBlockAt(queue, i)
    ensures forall i: nat :: FirstBlockAt(queue, i) ==>
              block == Some(queue[i].block) && rest == queue[i + 1..] == Body(queue)
  {
    BehindFirstBlock(queue);
    rest := queue;
    ghost var n := 0;
    while rest != []
      invariant n <= |queue| && rest == queue[n..] && forall j :: 0 <= j < n ==> queue[j].Payload?
      decreases |rest|
    {
      var event := rest[0];
      rest := rest[1..];
      if event.Failure? {
        return None, rest;
      }
      if event.HeaderBlock? {
        assert FirstBlockAt(queue, n) && queue[n..][1..] == queue[n + 1..];
        return Some(event.block), rest;
      }
      n := n + 1;
    }
    return None, rest;
  }

  /** What comes before the first header block carries octets. */
  predicate EarlyData(events: seq<Event>)
  {
    && events != [] && events[0].Payload?
    && (events[0].octets != [] || EarlyData(events[1..]))
  }

  lemma {:induction false} EarlyIsBeforeHeaders(events: seq<Event>)
    ensures EarlyData(events) <==>
            exists i :: 0 <= i < |events| && events[i].Payload? && events[i].octets != []
                        && forall j :: 0 <= j < i ==> events[j].Payload?
    decreases |events|
  {
    if events != [] {
      EarlyIsBeforeHeaders(events[1..]);
      if EarlyData(events) && events[0].octets == [] {
        var i :| 0 <= i < |events[1..]| && events[1..][i].Payload? && events[1..][i].octets != []
                 && forall j :: 0 <= j < i ==> events[1..][j].Payload?;
        assert events[i + 1].Payload? && events[i + 1].octets != [];
        assert forall j :: 0 <= j < i + 1 ==> events[j].Payload?;
      }
      if i :| 0 <= i < |events| && events[i].Payload? && events[i].octets != []
              && forall j :: 0 <= j < i ==> events[j].Payload? {
        if i > 0 {
          assert events[1..][i - 1] == events[i];
          assert forall j :: 0 <= j < i - 1 ==> events[1..][j] == events[j + 1];
        }
      }
    }
  }

  /**
   Octets are discarded while the response is awaited if and only if a DATA event that
   carries some precedes the first header block.
   */
  lemma {:induction false} DiscardsExactlyWhen(events: seq<Event>)
    requires Responds(events)
    ensures |OctetsOf(Body(events))| <= |OctetsOf(events)|
    ensures OctetsOf(Body(events)) != OctetsOf(events) <==> EarlyData(events)
    ensures EarlyData(events) <==> |OctetsOf(Body(events))| < |OctetsOf(events)|
    decreases |events|
  {
    if events[0].Payload? {
      DiscardsExactlyWhen(events[1..]);
      Empty(OctetsOf(events[1..]));
    } else {
      Empty(OctetsOf(events[1..]));
    }
  }

  lemma {:induction false} BodyOfPrefix(a: seq<Event>, b: seq<Event>)
    ensures Body(a) <= Body(a + b)
  {
    if a != [] {
      assert (a + b)[0] == a[0] && (a + b)[1..] == a[1..] + b;
      BodyOfPrefix(a[1..], b);
    }
  }

  // ---------------------------------------------------------------- through the session

  lemma MoreEventsMoreFrames<T>(next: Bytes -> Step<T>, a: Bytes, b: Bytes)
    requires Steady(next)
    ensures Drain(next, a).items <= Drain(next, a + b).items
  {
    if Drain(next, a).refused {
      RefusalStays(next, a, b);
    } else {
      DrainContinues(next, a, b);
    }
  }

  /** A failure only ends the reading: what was read before is still in front. */
  lemma {:induction false} ReadsInOrder(next: Bytes -> Step<Frame>, pending: Bytes, queue: seq<Event>)
    requires Steady(next)
    ensures ReadAll(next, pending, queue) <= Drain(next, pending + OctetsOf(queue)).items
    decreases |queue|, |pending|
  {
    assert Sized(next, pending);
    var rest := OctetsOf(queue);
    assert Stable(next, pending, rest);
    if next(pending).Got? {
      var n := next(pending).consumed;
      ReadsInOrder(next, pending[n..], queue);
      assert (pending + rest)[n..] == pending[n..] + rest;
    } else if next(pending).More? && queue != [] && !queue[0].Failure? {
      ReadsInOrder(next, pending + Octets1(queue[0]), queue[1..]);
      Assoc(pending, Octets1(queue[0]), OctetsOf(queue[1..]));
    }
  }

  /** More events of one stream, read from the start, only add frames behind. */
  lemma ReadsFirstFrames(consumed: seq<Event>, all: seq<Event>)
    requires consumed <= all
    ensures ReadAll(NextWhole, [], consumed) <= Drain(NextWhole, OctetsOf(all)).items
  {
    var later := all[|consumed|..];
    assert all == consumed + later;
    OctetsAppend(consumed, later);
    NextWholeSteady();
    ReadsInOrder(NextWhole, [], consumed);
    Empty(OctetsOf(consumed));
    MoreEventsMoreFrames(NextWhole, OctetsOf(consumed), OctetsOf(later));
  }

  /** The events of a stream's own frames since it was registered. */
  function Since(s: State, id: nat): seq<Event>
    requires id in s.queues && s.queues[id].since <= |Alone(s.frames, id).events|
  {
    Alone(s.frames, id).events[s.queues[id].since..]
  }

  /**
   In every run of the session, the frames a stream has read are the first frames of the
   octets its own DATA frames carry behind its response headers, whatever else is on the
   connection.
   */
  lemma {:induction false} StreamSeesItsOwnFrames(decodes: Decoder, run: seq<Action>, id: nat)
    requires Runs(decodes, INIT, run)
    ensures var s := Exec(decodes, INIT, run);
            id in s.queues ==>
              && s.queues[id].since <= |Alone(s.frames, id).events|
              && ReadAll(NextWhole, [], Body(s.queues[id].consumed))
                 <= Drain(NextWhole, OctetsOf(Body(Since(s, id)))).items
  {
    ConsumedIsPrefix(decodes, run, id);
    var s := Exec(decodes, INIT, run);
    if id in s.queues {
      var consumed, all := s.queues[id].consumed, Since(s, id);
      assert all == consumed + all[|consumed|..];
      BodyOfPrefix(consumed, all[|consumed|..]);
      ReadsFirstFrames(Body(consumed), Body(all));
    }
  }

  // ---------------------------------------------------------------- octets before the headers

  /** A frame of a registered stream is read, looked up, sent and received. */
  function Carry(f: Wire, id: nat): seq<Action> { [Read(f, true), Lookup, Send, Consume(id)] }

  /** The reader is waiting, and the stream has received everything sent to it. */
  predicate Quiescent(s: State, id: nat)
  {
    s.stage.Reading? && id in s.queues && s.queues[id].items == []
  }

  lemma CarryRuns(decodes: Decoder, s: State, f: Wire, id: nat, e: Event, r: Reader)
    requires Quiescent(s, id) && Framed(f)
    requires var g := React(decodes, s.reader, f, true); g.Go? && g.reader == r && g.event == Some(Tagged(id, e))
    ensures Runs(decodes, s, Carry(f, id))
    ensures var t := Exec(decodes, s, Carry(f, id));
            && Quiescent(t, id) && t.reader == r && t.frames == s.frames + [f]
            && t.queues[id] == Queue([], s.queues[id].consumed + [e], s.queues[id].since)
  {
    var run := Carry(f, id);
    var s1 := Apply(decodes, s, run[0]);
    var s2 := Apply(decodes, s1, run[1]);
    var s3 := Apply(decodes, s2, run[2]);
    assert s3.queues[id].items == [e];
    var s4 := Apply(decodes, s3, run[3]);
    assert s4.queues[id].items == [];
    assert run[1..][1..] == run[2..] && run[2..][1..] == run[3..] && run[3..][1..] == [];
    assert Runs(decodes, s3, run[3..]) && Exec(decodes, s3, run[3..]) == s4;
    assert Runs(decodes, s2, run[2..]) && Exec(decodes, s2, run[2..]) == s4;
    assert Runs(decodes, s1, run[1..]) && Exec(decodes, s1, run[1..]) == s4;
  }

  lemma {:induction false} RunsAppend(decodes: Decoder, s: State, a: seq<Action>, b: seq<Action>)
    requires Runs(decodes, s, a) && Runs(decodes, Exec(decodes, s, a), b)
    ensures Runs(decodes, s, a + b) && Exec(decodes, s, a + b) == Exec(decodes, Exec(decodes, s, a), b)
    decreases |a|
  {
    if a == [] {
      assert a + b == b;
    } else {
      assert (a + b)[0] == a[0] && (a + b)[1..] == a[1..] + b;
      RunsAppend(decodes, Apply(decodes, s, a[0]), a[1..], b);
    }
  }

  const EARLY: Bytes := [0x81, 0x01]
  const LATE: Bytes := [0x82, 0x00]

  lemma CarryData(decodes: Decoder, s: State, id: nat, octets: Bytes)
    requires Quiescent(s, id) && id > 0
    ensures var run := Carry(Data(id, octets), id);
            && Runs(decodes, s, run)
            && var t := Exec(decodes, s, run);
               && Quiescent(t, id) && t.reader == s.reader && t.frames == s.frames + [Data(id, octets)]
               && t.queues[id] == Queue([], s.queues[id].consumed + [Payload(octets)], s.queues[id].since)
  {
    CarryRuns(decodes, s, Data(id, octets), id, Payload(octets), s.reader);
  }

  lemma CarryHeaders(decodes: Decoder, s: State, id: nat, block: Bytes)
    requires Quiescent(s, id) && id > 0 && id !in s.reader.blocks && decodes(s.reader.decoded, block)
    ensures var run := Carry(Headers(id, block, true), id);
            && Runs(decodes, s, run)
            && var t := Exec(decodes, s, run);
               && Quiescent(t, id) && t.frames == s.frames + [Headers(id, block, true)]
               && t.queues[id] == Queue([], s.queues[id].consumed + [HeaderBlock(block)], s.queues[id].since)
  {
    Empty(block);
    CarryRuns(decodes, s, Headers(id, block, true), id, HeaderBlock(block),
              Reader(s.reader.blocks - {id}, s.reader.decoded + [block]));
  }

  lemma OpenedRuns(decodes: Decoder)
    ensures Runs(decodes, INIT, [Register(1)])
    ensures var s := Exec(decodes, INIT, [Register(1)]);
            Quiescent(s, 1) && s.queues[1] == Queue([], [], 0) && s.reader == INIT.reader && s.frames == []
  {
    assert [Register(1)][1..] == [];
    assert Exec(decodes, INIT, [Register(1)]) == Apply(decodes, INIT, Register(1));
  }

  /** DATA, the response headers and DATA again, all received by stream 1. */
  lemma EarlyRuns(decodes: Decoder, block: Bytes) returns (run: seq<Action>)
    requires decodes([], block)
    ensures Runs(decodes, INIT, run)
    ensures var s := Exec(decodes, INIT, run);
            && 1 in s.queues && s.queues[1].since == 0
            && s.queues[1].consumed == [Payload(EARLY), HeaderBlock(block), Payload(LATE)]
            && s.frames == [Data(1, EARLY), Headers(1, block, true), Data(1, LATE)]
  {
    var a, b, c := Carry(Data(1, EARLY), 1), Carry(Headers(1, block, true), 1), Carry(Data(1, LATE), 1);
    OpenedRuns(decodes);
    var s := Exec(decodes, INIT, [Register(1)]);
    CarryData(decodes, s, 1, EARLY);
    var t := Exec(decodes, s, a);
    CarryHeaders(decodes, t, 1, block);
    var u := Exec(decodes, t, b);
    CarryData(decodes, u, 1, LATE);
    RunsAppend(decodes, INIT, [Register(1)], a);
    RunsAppend(decodes, INIT, [Register(1)] + a, b);
    RunsAppend(decodes, INIT, [Register(1)] + a + b, c);
    run := [Register(1)] + a + b + c;
  }

  lemma ReadsLate()
    ensures ReadAll(NextWhole, [], [Payload(LATE)]) == [Frame(true, 2, false, [])]
  {
    var queue: seq<Event> := [Payload(LATE)];
    assert queue[1..] == [] && [] + LATE == LATE && LATE[2..] == [];
    assert LATE[..2] == LATE && LATE[2..2] == [];
    assert NextWhole(LATE) == Got(Frame(true, 2, false, []), 2);
    assert ReadAll(NextWhole, [], []) == [];
  }

  lemma DrainsAll()
    ensures Drain(NextWhole, EARLY + LATE).items == [Frame(true, 1, false, [0x82])]
  {
    var b := EARLY + LATE;
    assert b == [0x81, 0x01, 0x82, 0x00];
    assert b[..2] == EARLY && b[2..3] == [0x82];
    assert NextWhole(b) == Got(Frame(true, 1, false, [0x82]), 3);
    assert b[3..] == [0x00];
    assert Drain(NextWhole, [0x00]) == Drained([], [0x00], false);
  }

  /**
   DATA that arrives before the response headers is lost: a run in which the stream reads
   another frame than the first one of its own DATA.  The header block is any the decoder
   takes; the octet 0x88, which is `:status: 200`, is one with which `openWebSocket` succeeds.
   */
  lemma {:induction false} EarlyDataIsLost(decodes: Decoder, block: Bytes) returns (run: seq<Action>)
    requires decodes([], block)
    ensures Runs(decodes, INIT, run)
    ensures var s := Exec(decodes, INIT, run);
            && 1 in s.queues && EarlyData(s.queues[1].consumed) && s.queues[1].since == 0
            && Responds(s.queues[1].consumed) && HeaderBlock(block) in s.queues[1].consumed
            && ReadAll(NextWhole, [], Body(s.queues[1].consumed)) == [Frame(true, 2, false, [])]
            && Drain(NextWhole, OctetsOf(s.queues[1].consumed)).items == [Frame(true, 1, false, [0x82])]
  {
    run := EarlyRuns(decodes, block);
    var a, b, c: seq<Event> := [Payload(LATE)], [HeaderBlock(block), Payload(LATE)],
                               [Payload(EARLY), HeaderBlock(block), Payload(LATE)];
    assert c[1..] == b && b[1..] == a && a[1..] == [];
    assert Body(b) == a && Body(c) == a && Responds(b);
    assert c[1] == HeaderBlock(block);
    assert OctetsOf(a) == LATE + [] == LATE && OctetsOf(b) == [] + LATE == LATE && OctetsOf(c) == EARLY + LATE;
    ReadsLate();
    DrainsAll();
  }
}
