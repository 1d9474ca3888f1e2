/**
 The multiplexed HTTP/2 session of the RFC 8441 executor: one reader takes frames off the
 connection, joins header blocks (sections 6.2 and 6.10 of RFC 9113) and hands events to the
 queues of the streams, while streams are opened and read concurrently.

 A state keeps, beside what the program keeps, the frames read, the events looked up so far
 and what each stream has consumed.
 */
module Http2Session {
  import opened Octets
  import opened Counting

  // ---------------------------------------------------------------- frames and events

  /** What the framer delivers. */
  datatype Wire =
    | Settings(ack: bool)
    | WindowUpdate
    | Data(id: nat, octets: Bytes)
    | Reset(id: nat)
    | GoAway
    | Headers(id: nat, fragment: Bytes, last: bool)
    | Continuation(id: nat, fragment: Bytes, last: bool)
    | Other

  /** `streamEvent`; the header block is kept undecoded. */
  datatype Event = HeaderBlock(block: Bytes) | Payload(octets: Bytes) | Failure

  datatype Tagged = Tagged(id: nat, event: Event)

  /** What the reader writes back. */
  datatype Reply = Ack | Credit(id: nat, octets: nat)

  // ---------------------------------------------------------------- the reader

  /** Open header blocks, and the blocks the HPACK decoder has seen. */
  datatype Reader = Reader(blocks: map<nat, Bytes>, decoded: seq<Bytes>)

  /** The reader goes on, perhaps with an event to dispatch, or it stops. */
  datatype Reaction = Stop | Go(reader: Reader, event: Option<Tagged>, replies: seq<Reply>)

  /** Whether the HPACK decoder, after the blocks seen before, decodes this one. */
  type Decoder = (seq<Bytes>, Bytes) -> bool

  function OpenBlock(blocks: map<nat, Bytes>, id: nat): Bytes { if id in blocks then blocks[id] else [] }

  /** A fragment is added to the block of its stream, and the last one completes it. */
  function Join(decodes: Decoder, r: Reader, id: nat, fragment: Bytes, last: bool): Reaction
  {
    var block := OpenBlock(r.blocks, id) + fragment;
    if !last then Go(r.(blocks := r.blocks[id := block]), None, [])
    else if !decodes(r.decoded, block) then Stop
    else Go(Reader(r.blocks - {id}, r.decoded + [block]), Some(Tagged(id, HeaderBlock(block))), [])
  }

  /** One turn of `readLoop`; `writes` tells whether the connection can be written. */
  function React(decodes: Decoder, r: Reader, f: Wire, writes: bool): Reaction
  {
    match f
    case Settings(ack) => if ack then Go(r, None, []) else if !writes then Stop else Go(r, None, [Ack])
    case WindowUpdate => Go(r, None, [])
    case Data(id, octets) =>
      if octets == [] then Go(r, Some(Tagged(id, Payload(octets))), [])
      else if !writes then Stop
      else Go(r, Some(Tagged(id, Payload(octets))), [Credit(0, |octets|), Credit(id, |octets|)])
    case Reset(id) => Go(r, Some(Tagged(id, Failure)), [])
    case GoAway => Stop
    case Headers(id, fragment, last) => Join(decodes, r, id, fragment, last)
    case Continuation(id, fragment, last) =>
      if id !in r.blocks then Stop else Join(decodes, r, id, fragment, last)
    case Other => Go(r, None, [])
  }

  /** The fields of the session that only the reader touches. */
  class ReadLoop {
    const decodes: Decoder
    var headerBlocks: map<nat, Bytes>
    var decoded: seq<Bytes>
    var stopped: bool

    constructor (decodes: Decoder)
      ensures this.decodes == decodes && State() == Reader(map[], []) && !stopped
    {
      this.decodes := decodes;
      headerBlocks, decoded, stopped := map[], [], false;
    }

    function State(): Reader
      reads this
    {
      Reader(headerBlocks, decoded)
    }

    /** The body of the loop of `readLoop`, up to the dispatch. */
    method Handle(f: Wire, writes: bool) returns (event: Option<Tagged>, replies: seq<Reply>)
      requires !stopped
      modifies this
      ensures stopped == React(decodes, old(State()), f, writes).Stop?
      ensures !stopped ==> React(decodes, old(State()), f, writes) == Go(State(), event, replies)
    {
      event, replies := None, [];
      match f {
        case Settings(ack) =>
          if !ack {
            stopped := !writes;
            replies := [Ack];
          }
        case WindowUpdate =>
        case Data(id, octets) =>
          if |octets| > 0 {
            stopped := !writes;
            replies := [Credit(0, |octets|), Credit(id, |octets|)];
          }
          event := Some(Tagged(id, Payload(octets)));
        case Reset(id) => event := Some(Tagged(id, Failure));
        case GoAway => stopped := true;
        case Headers(id, fragment, last) =>
          if id !in headerBlocks {
            headerBlocks := headerBlocks[id := []];
          }
          event := AddFragment(id, fragment, last);
        case Continuation(id, fragment, last) =>
          if id !in headerBlocks {
            stopped := true;
          } else {
            event := AddFragment(id, fragment, last);
          }
        case Other =>
      }
    }

    method AddFragment(id: nat, fragment: Bytes, last: bool) returns (event: Option<Tagged>)
      requires !stopped && id in headerBlocks
      modifies this
      ensures var r := Join(decodes, old(State()), id, fragment, last);
              && stopped == r.Stop? && (!stopped ==> r == Go(State(), event, []))
    {
      headerBlocks := headerBlocks[id := headerBlocks[id] + fragment];
      event := None;
      if last {
        var block := headerBlocks[id];
        headerBlocks := headerBlocks - {id};
        if !decodes(decoded, block) {
          stopped := true;
        } else {
          decoded := decoded + [block];
          event := Some(Tagged(id, HeaderBlock(block)));
        }
      }
    }
  }

  // ---------------------------------------------------------------- one stream on its own

  predicate Belongs(f: Wire, id: nat)
  {
    (f.Data? || f.Reset? || f.Headers? || f.Continuation?) && f.id == id
  }

  /** The frames of one stream. */
  function Own(frames: seq<Wire>, id: nat): seq<Wire>
  {
    if frames == [] then []
    else
      var n := |frames| - 1;
      Own(frames[..n], id) + if Belongs(frames[n], id) then [frames[n]] else []
  }

  /** The header block left open, and the events, of a stream's own frames. */
  datatype Assembly = Assembly(open: Option<Bytes>, events: seq<Event>)

  function Extend(a: Assembly, f: Wire): Assembly
  {
    match f
    case Data(_, octets) => a.(events := a.events + [Payload(octets)])
    case Reset(_) => a.(events := a.events + [Failure])
    case Headers(_, fragment, last) => Extended(a, fragment, last)
    case Continuation(_, fragment, last) => Extended(a, fragment, last)
    case _ => a
  }

  function Extended(a: Assembly, fragment: Bytes, last: bool): Assembly
  {
    var block := (if a.open.Some? then a.open.value else []) + fragment;
    if last then Assembly(None, a.events + [HeaderBlock(block)]) else a.(open := Some(block))
  }

  /** What a stream's frames amount to when nothing else is on the connection. */
  function Assemble(own: seq<Wire>): Assembly
  {
    if own == [] then Assembly(None, []) else Extend(Assemble(own[..|own| - 1]), own[|own| - 1])
  }

  function Alone(frames: seq<Wire>, id: nat): Assembly { Assemble(Own(frames, id)) }

  lemma AloneSnoc(frames: seq<Wire>, f: Wire, id: nat)
    ensures Alone(frames + [f], id) == if Belongs(f, id) then Extend(Alone(frames, id), f) else Alone(frames, id)
  {
    var own, more := Own(frames, id), Own(frames + [f], id);
    assert (frames + [f])[..|frames|] == frames;
    if Belongs(f, id) {
      assert more == own + [f];
      assert more[..|own|] == own;
    } else {
      Empty(own);
    }
  }

  /** The events of one stream. */
  function Project(log: seq<Tagged>, id: nat): seq<Event>
  {
    if log == [] then []
    else
      var n := |log| - 1;
      Project(log[..n], id) + if log[n].id == id then [log[n].event] else []
  }

  lemma ProjectSnoc(log: seq<Tagged>, e: Tagged, id: nat)
    ensures Project(log + [e], id) == Project(log, id) + if e.id == id then [e.event] else []
  {
    assert (log + [e])[..|log|] == log;
  }

  // ---------------------------------------------------------------- the whole session

  const CAPACITY: nat := 256

  /** A stream's channel; `consumed` has been received from it, `since` events came before it existed. */
  datatype Queue = Queue(items: seq<Event>, consumed: seq<Event>, since: nat)

  /** Where the reader is: in `ReadFrame`, before the lookup in `dispatch`, at the send, or gone. */
  datatype Stage = Reading | Looking(e: Tagged) | Sending(e: Tagged) | Stopped

  datatype State = State(stage: Stage, reader: Reader, queues: map<nat, Queue>,
                         frames: seq<Wire>, looked: seq<Tagged>, replies: seq<Reply>)

  const INIT := State(Reading, Reader(map[], []), map[], [], [], [])

  datatype Action =
    | Read(f: Wire, writes: bool)       // the reader takes a frame
    | Fail                              // ReadFrame returns an error
    | Lookup                            // dispatch looks the stream up
    | Send                              // dispatch sends
    | Register(id: nat)                 // openWebSocket
    | Consume(id: nat)                  // nextMultiplexedFrame receives

  /** The framer refuses stream zero for the frames that belong to a stream. */
  predicate Framed(f: Wire) { (f.Data? || f.Reset? || f.Headers? || f.Continuation?) ==> f.id > 0 }

  /**
   `dispatch` also waits for `done`, which only the reader itself closes when it returns, so
   that a send is never given up.
   */
  predicate Enabled(s: State, a: Action)
  {
    match a
    case Read(f, _) => s.stage.Reading? && Framed(f)
    case Fail => s.stage.Reading?
    case Lookup => s.stage.Looking?
    case Send => s.stage.Sending? && s.stage.e.id in s.queues && |s.queues[s.stage.e.id].items| < CAPACITY
    case Register(_) => true
    case Consume(id) => id in s.queues && s.queues[id].items != []
  }

  function AfterRead(s: State, f: Wire, r: Reaction): State
  {
    if r.Stop? then s.(stage := Stopped)
    else
      s.(stage := if r.event.Some? then Looking(r.event.value) else Reading,
         reader := r.reader, frames := s.frames + [f], replies := s.replies + r.replies)
  }

  function Apply(decodes: Decoder, s: State, a: Action): State
    requires Enabled(s, a)
  {
    match a
    case Read(f, writes) => AfterRead(s, f, React(decodes, s.reader, f, writes))
    case Fail => s.(stage := Stopped)
    case Lookup =>
      var e := s.stage.e;
      s.(stage := if e.id in s.queues then Sending(e) else Reading, looked := s.looked + [e])
    case Send =>
      var e := s.stage.e;
      var q := s.queues[e.id];
      s.(stage := Reading, queues := s.queues[e.id := q.(items := q.items + [e.event])])
    case Register(id) =>
      if id in s.queues then s
      else s.(queues := s.queues[id := Queue([], [], |Project(s.looked, id)|)])
    case Consume(id) =>
      var q := s.queues[id];
      s.(queues := s.queues[id := q.(items := q.items[1..], consumed := q.consumed + [q.items[0]])])
  }

  predicate Runs(decodes: Decoder, s: State, run: seq<Action>)
    decreases |run|
  {
    run == [] || (Enabled(s, run[0]) && Runs(decodes, Apply(decodes, s, run[0]), run[1..]))
  }

  function Exec(decodes: Decoder, s: State, run: seq<Action>): State
    requires Runs(decodes, s, run)
    decreases |run|
  {
    if run == [] then s else Exec(decodes, Apply(decodes, s, run[0]), run[1..])
  }

  // ---------------------------------------------------------------- the invariant

  function InLookup(s: State, id: nat): seq<Event>
  {
    if s.stage.Looking? && s.stage.e.id == id then [s.stage.e.event] else []
  }

  function InFlight(s: State, id: nat): seq<Event>
  {
    if s.stage.Sending? && s.stage.e.id == id then [s.stage.e.event] else []
  }

  /** The shared reader does for every stream what the stream's own frames amount to. */
  predicate Demultiplexed(s: State, id: nat)
  {
    var a := Alone(s.frames, id);
    && a.events == Project(s.looked, id) + InLookup(s, id)
    && (!s.stage.Stopped? ==> SameOpen(a, s.reader.blocks, id))
  }

  /** What a stream has consumed, has queued and is being sent is what came since it was opened. */
  predicate Delivered(s: State, id: nat)
  {
    id in s.queues ==>
      var q, all := s.queues[id], Project(s.looked, id);
      && q.since <= |all| && |q.items| <= CAPACITY
      && q.consumed + (q.items + InFlight(s, id)) == all[q.since..]
  }

  function Received(frames: seq<Wire>, id: nat): nat
  {
    if frames == [] then 0
    else
      var f := frames[|frames| - 1];
      Received(frames[..|frames| - 1], id) + if f.Data? && (id == 0 || f.id == id) then |f.octets| else 0
  }

  function Credited(replies: seq<Reply>, id: nat): nat
  {
    if replies == [] then 0
    else
      var r := replies[|replies| - 1];
      Credited(replies[..|replies| - 1], id) + if r.Credit? && r.id == id then r.octets else 0
  }

  /** Flow-control credit given back: on the connection (stream zero) and on every stream. */
  predicate Restored(s: State, id: nat) { Credited(s.replies, id) == Received(s.frames, id) }

  predicate IsAck(r: Reply) { r == Ack }

  /** SETTINGS of the peer, as opposed to its acknowledgement of ours */
  predicate IsSettings(f: Wire) { f == Settings(false) }

  /** Every SETTINGS frame of the peer, and nothing else, has been acknowledged. */
  predicate Acknowledged(s: State)
  {
    Count(s.replies, IsAck) == Count(s.frames, IsSettings)
  }

  ghost predicate Inv(s: State)
  {
    && (s.stage.Sending? ==> s.stage.e.id in s.queues)
    && Acknowledged(s)
    && (forall id :: Demultiplexed(s, id))
    && (forall id :: Delivered(s, id))
    && (forall id :: Restored(s, id))
  }

  lemma InvInit()
    ensures Inv(INIT)
  {
  }

  lemma {:induction false} CreditedAppend(replies: seq<Reply>, more: seq<Reply>, id: nat)
    ensures Credited(replies + more, id) == Credited(replies, id) + Credited(more, id)
    decreases |more|
  {
    if more == [] {
      Empty(replies);
    } else {
      var n, all := |more| - 1, replies + more;
      assert all[..|all| - 1] == replies + more[..n];
      CreditedAppend(replies, more[..n], id);
    }
  }

  /** The reader's open block of a stream is the one its own frames leave open. */
  predicate SameOpen(a: Assembly, blocks: map<nat, Bytes>, id: nat)
  {
    a.open == if id in blocks then Some(blocks[id]) else None
  }

  function EventFor(e: Option<Tagged>, id: nat): seq<Event>
  {
    if e.Some? && e.value.id == id then [e.value.event] else []
  }

  lemma JoinKeeps(decodes: Decoder, r: Reader, i: nat, fragment: Bytes, last: bool, a: Assembly, id: nat)
    requires SameOpen(a, r.blocks, id)
    ensures var g, b := Join(decodes, r, i, fragment, last), if i == id then Extended(a, fragment, last) else a;
            g.Go? ==> SameOpen(b, g.reader.blocks, id) && b.events == a.events + EventFor(g.event, id)
  {
  }

  lemma ReactKeeps(decodes: Decoder, r: Reader, f: Wire, writes: bool, a: Assembly, id: nat)
    requires SameOpen(a, r.blocks, id)
    ensures var g, b := React(decodes, r, f, writes), if Belongs(f, id) then Extend(a, f) else a;
            g.Go? ==> SameOpen(b, g.reader.blocks, id) && b.events == a.events + EventFor(g.event, id)
  {
    Empty(a.events);
    match f
    case Headers(i, fragment, last) => JoinKeeps(decodes, r, i, fragment, last, a, id);
    case Continuation(i, fragment, last) => JoinKeeps(decodes, r, i, fragment, last, a, id);
    case _ =>
  }

  lemma ReactionKeeps(s: State, f: Wire, g: Reaction, id: nat)
    requires s.stage.Reading? && Demultiplexed(s, id)
    requires var a, b := Alone(s.frames, id), Alone(s.frames + [f], id);
             g.Go? ==> SameOpen(b, g.reader.blocks, id) && b.events == a.events + EventFor(g.event, id)
    ensures Demultiplexed(AfterRead(s, f, g), id)
  {
    Empty(Project(s.looked, id));
  }

  lemma ReadKeepsDemultiplexed(decodes: Decoder, s: State, f: Wire, writes: bool, id: nat)
    requires s.stage.Reading? && Framed(f) && Demultiplexed(s, id)
    ensures Demultiplexed(Apply(decodes, s, Read(f, writes)), id)
  {
    AloneSnoc(s.frames, f, id);
    ReactKeeps(decodes, s.reader, f, writes, Alone(s.frames, id), id);
    ReactionKeeps(s, f, React(decodes, s.reader, f, writes), id);
  }

  lemma OneReply(r: Reply, id: nat)
    ensures Credited([r], id) == if r.Credit? && r.id == id then r.octets else 0
  {
    assert [r][..0] == [];
  }

  lemma ReadRestores(decodes: Decoder, s: State, f: Wire, writes: bool, id: nat)
    requires s.stage.Reading? && Framed(f) && Restored(s, id)
    ensures Restored(Apply(decodes, s, Read(f, writes)), id)
  {
    var r := React(decodes, s.reader, f, writes);
    if r.Go? {
      assert (s.frames + [f])[..|s.frames|] == s.frames;
      CreditedAppend(s.replies, r.replies, id);
      match f {
        case Settings(ack) => OneReply(Ack, id);
        case Data(i, octets) =>
          CreditedAppend([Credit(0, |octets|)], [Credit(i, |octets|)], id);
          OneReply(Credit(0, |octets|), id);
          OneReply(Credit(i, |octets|), id);
          assert [Credit(0, |octets|)] + [Credit(i, |octets|)] == [Credit(0, |octets|), Credit(i, |octets|)];
        case _ =>
      }
    }
  }

  lemma LookupKeeps(decodes: Decoder, s: State, id: nat)
    requires s.stage.Looking? && Demultiplexed(s, id) && Delivered(s, id)
    ensures var t := Apply(decodes, s, Lookup); Demultiplexed(t, id) && Delivered(t, id)
  {
    var e := s.stage.e;
    var all := Project(s.looked, id);
    ProjectSnoc(s.looked, e, id);
    Empty(all + InLookup(s, id));
    if id in s.queues {
      var q := s.queues[id];
      Empty(q.items);
      if e.id == id {
        Assoc(q.consumed, q.items, [e.event]);
        assert (all + [e.event])[q.since..] == all[q.since..] + [e.event];
      } else {
        Empty(all);
      }
    } else {
      Empty(all);
    }
  }

  lemma SendKeeps(decodes: Decoder, s: State, id: nat)
    requires s.stage.Sending? && Enabled(s, Send) && Delivered(s, id)
    ensures Delivered(Apply(decodes, s, Send), id)
  {
    if id in s.queues {
      var q := s.queues[id];
      Empty(q.items + InFlight(s, id));
    }
  }

  lemma RegisterKeeps(decodes: Decoder, s: State, i: nat, id: nat)
    requires Delivered(s, id) && (s.stage.Sending? ==> s.stage.e.id in s.queues)
    ensures Delivered(Apply(decodes, s, Register(i)), id)
  {
  }

  lemma ConsumeKeeps(decodes: Decoder, s: State, i: nat, id: nat)
    requires Enabled(s, Consume(i)) && Delivered(s, id)
    ensures Delivered(Apply(decodes, s, Consume(i)), id)
  {
    if id == i {
      var q := s.queues[id];
      var rest := q.items[1..] + InFlight(s, id);
      assert q.items + InFlight(s, id) == [q.items[0]] + rest;
      Assoc(q.consumed, [q.items[0]], rest);
    }
  }

  lemma {:induction false} CountTwo<T>(xs: seq<T>, p: T -> bool, x: T, y: T)
    ensures Count(xs + [x, y], p) == Count(xs, p) + (if p(x) then 1 else 0) + (if p(y) then 1 else 0)
  {
    assert xs + [x, y] == (xs + [x]) + [y];
    CountSnoc(xs + [x], p, y);
    CountSnoc(xs, p, x);
  }

  lemma {:induction false} ReadAcknowledges(decodes: Decoder, s: State, f: Wire, writes: bool)
    requires s.stage.Reading? && Framed(f) && Acknowledged(s)
    ensures Acknowledged(Apply(decodes, s, Read(f, writes)))
  {
    CountSnoc(s.frames, IsSettings, f);
    Empty(s.replies);
    match f
    case Settings(ack) => CountSnoc(s.replies, IsAck, Ack);
    case Data(id, octets) => CountTwo(s.replies, IsAck, Credit(0, |octets|), Credit(id, |octets|));
    case _ =>
  }

  lemma {:induction false} AcknowledgedStep(decodes: Decoder, s: State, a: Action)
    requires Acknowledged(s) && Enabled(s, a)
    ensures Acknowledged(Apply(decodes, s, a))
  {
    if a.Read? {
      ReadAcknowledges(decodes, s, a.f, a.writes);
    } else {
      assert Apply(decodes, s, a).replies == s.replies && Apply(decodes, s, a).frames == s.frames;
    }
  }

  lemma InvStep(decodes: Decoder, s: State, a: Action)
    requires Inv(s) && Enabled(s, a)
    ensures Inv(Apply(decodes, s, a))
  {
    var t := Apply(decodes, s, a);
    AcknowledgedStep(decodes, s, a);
    forall id ensures Demultiplexed(t, id) && Delivered(t, id) && Restored(t, id) {
      assert Demultiplexed(s, id) && Delivered(s, id) && Restored(s, id);
      match a
      case Read(f, writes) =>
        ReadKeepsDemultiplexed(decodes, s, f, writes, id);
        ReadRestores(decodes, s, f, writes, id);
      case Fail =>
      case Lookup => LookupKeeps(decodes, s, id);
      case Send => SendKeeps(decodes, s, id);
      case Register(i) => RegisterKeeps(decodes, s, i, id);
      case Consume(i) => ConsumeKeeps(decodes, s, i, id);
    }
  }

  lemma {:induction false} InvRun(decodes: Decoder, s: State, run: seq<Action>)
    requires Inv(s) && Runs(decodes, s, run)
    ensures Inv(Exec(decodes, s, run))
    decreases |run|
  {
    if run != [] {
      InvStep(decodes, s, run[0]);
      InvRun(decodes, Apply(decodes, s, run[0]), run[1..]);
    }
  }

  // ---------------------------------------------------------------- what follows

  /**
   In every run, for every stream: what it has consumed is a prefix of the events its own
   frames amount to since it was opened.
   */
  lemma {:induction false} ConsumedIsPrefix(decodes: Decoder, run: seq<Action>, id: nat)
    requires Runs(decodes, INIT, run)
    ensures var s := Exec(decodes, INIT, run);
            id in s.queues ==>
              var q, all := s.queues[id], Alone(s.frames, id).events;
              q.since <= |all| && q.consumed <= all[q.since..]
  {
    InvInit();
    InvRun(decodes, INIT, run);
    var s := Exec(decodes, INIT, run);
    assert Demultiplexed(s, id) && Delivered(s, id);
    if id in s.queues {
      var q, past := s.queues[id], Project(s.looked, id);
      assert (past + InLookup(s, id))[q.since..] == past[q.since..] + InLookup(s, id);
    }
  }

  /**
   Nothing is lost, doubled, reordered or given to another stream: consumed, queued and
   being dispatched together are those events, all of them.
   */
  lemma {:induction false} NothingLost(decodes: Decoder, run: seq<Action>, id: nat)
    requires Runs(decodes, INIT, run)
    ensures var s := Exec(decodes, INIT, run);
            id in s.queues ==>
              var q := s.queues[id];
              && q.since <= |Alone(s.frames, id).events| && |q.items| <= 256
              && q.consumed + q.items + InFlight(s, id) + InLookup(s, id) == Alone(s.frames, id).events[q.since..]
  {
    InvInit();
    InvRun(decodes, INIT, run);
    var s := Exec(decodes, INIT, run);
    assert Demultiplexed(s, id) && Delivered(s, id);
    if id in s.queues {
      var q, past := s.queues[id], Project(s.looked, id);
      Assoc(q.consumed, q.items, InFlight(s, id));
      assert (past + InLookup(s, id))[q.since..] == past[q.since..] + InLookup(s, id);
    }
  }

  lemma {:induction false} SinceStays(decodes: Decoder, s: State, run: seq<Action>, id: nat)
    requires Runs(decodes, s, run) && id in s.queues
    ensures var t := Exec(decodes, s, run); id in t.queues && t.queues[id].since == s.queues[id].since
    decreases |run|
  {
    if run != [] {
      SinceStays(decodes, Apply(decodes, s, run[0]), run[1..], id);
    }
  }

  /**
   A stream registered before its first frame, as `openWebSocket` does before it sends the
   request, misses nothing: its events are all those of its frames.
   */
  lemma {:induction false} OpenedFirstMissesNothing(decodes: Decoder, before: seq<Action>, after: seq<Action>, id: nat)
    requires Runs(decodes, INIT, before)
    requires var s := Exec(decodes, INIT, before);
             id !in s.queues && Own(s.frames, id) == [] && Runs(decodes, Apply(decodes, s, Register(id)), after)
    ensures var t := Exec(decodes, Apply(decodes, Exec(decodes, INIT, before), Register(id)), after);
            && id in t.queues
            && t.queues[id].consumed + t.queues[id].items + InFlight(t, id) + InLookup(t, id)
               == Alone(t.frames, id).events
  {
    InvInit();
    InvRun(decodes, INIT, before);
    var s := Exec(decodes, INIT, before);
    assert Demultiplexed(s, id);
    var o := Apply(decodes, s, Register(id));
    assert o.queues[id].since == 0;
    InvStep(decodes, s, Register(id));
    InvRun(decodes, o, after);
    SinceStays(decodes, o, after, id);
    var t := Exec(decodes, o, after);
    assert Demultiplexed(t, id) && Delivered(t, id);
    var q, past := t.queues[id], Project(t.looked, id);
    Assoc(q.consumed, q.items, InFlight(t, id));
    assert past[0..] == past;
  }

  /** Credit given back is the data received, on the connection and on each stream. */
  lemma {:induction false} CreditEqualsData(decodes: Decoder, run: seq<Action>, id: nat)
    requires Runs(decodes, INIT, run)
    ensures var s := Exec(decodes, INIT, run); Credited(s.replies, id) == Received(s.frames, id)
  {
    InvInit();
    InvRun(decodes, INIT, run);
    assert Restored(Exec(decodes, INIT, run), id);
  }

  /** In every run the acknowledgements written are as many as the peer's SETTINGS frames read. */
  lemma {:induction false} SettingsAcknowledged(decodes: Decoder, run: seq<Action>)
    requires Runs(decodes, INIT, run)
    ensures var s := Exec(decodes, INIT, run);
            Count(s.replies, IsAck) == Count(s.frames, IsSettings)
  {
    InvInit();
    InvRun(decodes, INIT, run);
  }

  /** A frame that calls for a reply: SETTINGS of the peer, or DATA with octets. */
  predicate CallsForReply(f: Wire) { f == Settings(false) || (f.Data? && f.octets != []) }

  /** The last fragment of a header block, and the block that the stream's own frames make of it. */
  predicate Completes(s: State, f: Wire, block: Bytes)
  {
    && (f.Headers? || f.Continuation?) && f.last
    && var open := Alone(s.frames, f.id).open;
    && (f.Continuation? ==> open.Some?)
    && block == (if open.Some? then open.value else []) + f.fragment
  }

  /**
   In every run a frame stops the reader if and only if it is a GOAWAY, its reply cannot be
   written, it completes a block that the decoder refuses, or it continues no open block.
   */
  lemma {:induction false} StopsExactlyWhen(decodes: Decoder, run: seq<Action>, f: Wire, writes: bool)
    requires Runs(decodes, INIT, run) && Enabled(Exec(decodes, INIT, run), Read(f, writes))
    ensures var s := Exec(decodes, INIT, run);
            Apply(decodes, s, Read(f, writes)).stage.Stopped? <==>
              || f.GoAway?
              || (CallsForReply(f) && !writes)
              || (exists block :: Completes(s, f, block) && !decodes(s.reader.decoded, block))
              || (f.Continuation? && Alone(s.frames, f.id).open.None?)
  {
    InvInit();
    InvRun(decodes, INIT, run);
    var s := Exec(decodes, INIT, run);
    if f.Headers? || f.Continuation? {
      assert Demultiplexed(s, f.id);
      var block := OpenBlock(s.reader.blocks, f.id) + f.fragment;
      assert f.last && (f.Continuation? ==> f.id in s.reader.blocks) ==> Completes(s, f, block);
    }
  }

  /** The decoder has seen the completed blocks of all streams, in the order of the frames. */
  lemma {:induction false} DecodedGrows(decodes: Decoder, s: State, f: Wire, writes: bool)
    requires Enabled(s, Read(f, writes)) && !Apply(decodes, s, Read(f, writes)).stage.Stopped?
    ensures var t := Apply(decodes, s, Read(f, writes));
            t.reader.decoded == s.reader.decoded +
              if t.stage.Looking? && t.stage.e.event.HeaderBlock? then [t.stage.e.event.block] else []
  {
    Empty(s.reader.decoded);
  }

  /**
   The reader waits for nobody but the one stream whose queue is full, and goes on when that
   stream consumes.
   */
  lemma {:induction false} ReaderWaitsOnlyForFullQueue(decodes: Decoder, run: seq<Action>)
    requires Runs(decodes, INIT, run)
    ensures var s := Exec(decodes, INIT, run);
            && (s.stage.Looking? ==> Enabled(s, Lookup))
            && (s.stage.Sending? && !Enabled(s, Send) ==>
                  var id := s.stage.e.id;
                  && Enabled(s, Consume(id)) && |s.queues[id].items| == 256
                  && Enabled(Apply(decodes, s, Consume(id)), Send))
  {
    InvInit();
    InvRun(decodes, INIT, run);
    var s := Exec(decodes, INIT, run);
    if s.stage.Sending? {
      assert Delivered(s, s.stage.e.id);
    }
  }
}
