/**
 The connection scheduler of the HTTP/2 load phase: one bounded slot channel per
 connection, a mutex around the round-robin scan, and a wake-up channel that holds at
 most one token.

 Workers are interleaved one atomic action at a time.  Locking, each channel probe, the
 slot drain and the wake-up are separate actions, so a scan can be overtaken by any
 number of releases: `release` does not take the mutex.
 */
module Scheduler {
  import opened Octets
  import opened Counting

  /** Connections, slots per connection, workers. */
  datatype Shape = Shape(connections: nat, streams: nat, workers: nat)
  {
    predicate Valid() { connections >= 1 && streams >= 1 }

    function Capacity(): nat { connections * streams }
  }

  /** Where a worker is. */
  datatype Pc =
    | Idle                    // outside acquire and release
    | Locking                 // in acquire, before the mutex
    | Scanning(offset: nat)   // mutex held, `offset` channels found full
    | Took(index: nat)        // mutex held, slot taken, `next` not yet advanced
    | Missed                  // mutex held, every channel found full
    | Parked                  // mutex released, waiting for the token or cancellation
    | Holding(index: nat)     // acquire returned this connection
    | Drained                 // in release, slot given back, token not yet posted
    | Exited                  // the worker's loop has ended

  datatype State = State(pcs: seq<Pc>, slots: seq<nat>, next: nat, mutex: Option<nat>,
                         token: bool, cancelled: bool)

  datatype Action =
    | Enter(w: nat)     // the loop guard holds, acquire is called
    | Lock(w: nat)
    | Probe(w: nat)     // the non-blocking send on the next channel of the scan
    | Publish(w: nat)   // advance `next`, unlock, return the index
    | Unlock(w: nat)    // the scan failed
    | Wake(w: nat)      // receive the token
    | Abort(w: nat)     // the context is done
    | Drain(w: nat)     // receive from the slot channel
    | Signal(w: nat)    // post the token, dropped when one is there
    | Quit(w: nat)      // the loop guard fails
    | Cancel            // the context is cancelled

  function Init(c: Shape): State
  {
    State(seq(c.workers, _ => Idle), seq(c.connections, _ => 0), 0, None, false, false)
  }

  predicate InMutex(p: Pc) { p.Scanning? || p.Took? || p.Missed? }

  predicate Holds(p: Pc, i: nat) { (p.Took? || p.Holding?) && p.index == i }

  function HolderOf(i: nat): Pc -> bool { p => Holds(p, i) }

  function Holder(): Pc -> bool { (p: Pc) => p.Took? || p.Holding? }

  /** The connection probed at `offset`. */
  function At(c: Shape, s: State, offset: nat): (i: nat)
    requires c.Valid()
    ensures i < c.connections
  {
    (s.next + offset) % c.connections
  }

  /** The worker an action belongs to; cancellation belongs to none. */
  predicate Enabled(c: Shape, s: State, a: Action)
    requires c.Valid()
  {
    if a.Cancel? then !s.cancelled
    else
      && a.w < |s.pcs|
      && var p := s.pcs[a.w];
         match a
         case Enter(_) => p.Idle? && !s.cancelled
         case Lock(_) => p.Locking? && s.mutex == None
         case Probe(_) => p.Scanning? && p.offset < c.connections == |s.slots|
         case Publish(_) => p.Took?
         case Unlock(_) => p.Missed?
         case Wake(_) => p.Parked? && s.token
         case Abort(_) => p.Parked? && s.cancelled
         case Drain(_) => p.Holding? && p.index < |s.slots| && s.slots[p.index] > 0
         case Signal(_) => p.Drained?
         case Quit(_) => p.Idle?
         case Cancel => false
  }

  function Apply(c: Shape, s: State, a: Action): State
    requires c.Valid() && Enabled(c, s, a)
  {
    match a
    case Enter(w) => s.(pcs := s.pcs[w := Locking])
    case Lock(w) => s.(pcs := s.pcs[w := Scanning(0)], mutex := Some(w))
    case Probe(w) =>
      var o := s.pcs[w].offset;
      var i := At(c, s, o);
      if s.slots[i] < c.streams then
        s.(pcs := s.pcs[w := Took(i)], slots := s.slots[i := s.slots[i] + 1])
      else
        s.(pcs := s.pcs[w := if o + 1 < c.connections then Scanning(o + 1) else Missed])
    case Publish(w) =>
      var i := s.pcs[w].index;
      s.(pcs := s.pcs[w := Holding(i)], next := (i + 1) % c.connections, mutex := None)
    case Unlock(w) => s.(pcs := s.pcs[w := Parked], mutex := None)
    case Wake(w) => s.(pcs := s.pcs[w := Locking], token := false)
    case Abort(w) => s.(pcs := s.pcs[w := Exited])
    case Drain(w) =>
      var i := s.pcs[w].index;
      s.(pcs := s.pcs[w := Drained], slots := s.slots[i := s.slots[i] - 1])
    case Signal(w) => s.(pcs := s.pcs[w := Idle], token := true)
    case Quit(w) => s.(pcs := s.pcs[w := Exited])
    case Cancel => s.(cancelled := true)
  }

  /** A list of actions each of which is enabled when its turn comes. */
  predicate Runs(c: Shape, s: State, run: seq<Action>)
    requires c.Valid()
    decreases |run|
  {
    run != [] ==> Enabled(c, s, run[0]) && Runs(c, Apply(c, s, run[0]), run[1..])
  }

  function Exec(c: Shape, s: State, run: seq<Action>): State
    requires c.Valid() && Runs(c, s, run)
    decreases |run|
  {
    if run == [] then s else Exec(c, Apply(c, s, run[0]), run[1..])
  }

  lemma {:induction false} RunsAppend(c: Shape, s: State, a: seq<Action>, b: seq<Action>)
    requires c.Valid() && Runs(c, s, a) && Runs(c, Exec(c, s, a), b)
    ensures Runs(c, s, a + b) && Exec(c, s, a + b) == Exec(c, Exec(c, s, a), b)
    decreases |a|
  {
    if a == [] {
      assert a + b == b;
    } else {
      assert (a + b)[0] == a[0] && (a + b)[1..] == a[1..] + b;
      RunsAppend(c, Apply(c, s, a[0]), a[1..], b);
    }
  }

  lemma OneAction(c: Shape, s: State, a: Action)
    requires c.Valid() && Enabled(c, s, a)
    ensures Runs(c, s, [a]) && Exec(c, s, [a]) == Apply(c, s, a)
  {
    assert [a][1..] == [];
  }

  // ---------------------------------------------------------------- what every action keeps

  predicate Shaped(c: Shape, s: State)
  {
    && |s.pcs| == c.workers
    && |s.slots| == c.connections
    && s.next < c.connections
    && (forall w :: 0 <= w < |s.pcs| ==> InRange(c, s.pcs[w]))
  }

  predicate InRange(c: Shape, p: Pc)
  {
    && (p.Scanning? ==> p.offset < c.connections)
    && (p.Took? || p.Holding? ==> p.index < c.connections)
  }

  /** The mutex is held exactly by the worker that is scanning or about to unlock. */
  predicate Exclusive(s: State)
  {
    && (s.mutex.Some? ==> s.mutex.value < |s.pcs|)
    && (forall w :: 0 <= w < |s.pcs| ==> (InMutex(s.pcs[w]) <==> s.mutex == Some(w)))
  }

  /** Slot occupancy is the number of workers on that connection, and never above capacity. */
  ghost predicate Conserved(c: Shape, s: State)
  {
    && (forall i :: 0 <= i < |s.slots| ==> s.slots[i] == Count(s.pcs, HolderOf(i)))
    && (forall i :: 0 <= i < |s.slots| ==> s.slots[i] <= c.streams)
    && Sum(s.slots) == Count(s.pcs, Holder())
  }

  /** Looked at a full channel and not yet served. */
  predicate Waiting(p: Pc) { p.Missed? || p.Parked? || (p.Scanning? && p.offset > 0) }

  /** Will reach the slots or the token again without being woken. */
  predicate Lively(p: Pc)
  {
    p.Locking? || p == Scanning(0) || p.Took? || p.Holding? || p.Drained?
  }

  /** A waiting worker is never alone: a token is there, or somebody will post one. */
  predicate Alive(s: State)
  {
    (exists w :: 0 <= w < |s.pcs| && Waiting(s.pcs[w])) ==>
      s.token || exists v :: 0 <= v < |s.pcs| && Lively(s.pcs[v])
  }

  ghost predicate Inv(c: Shape, s: State)
  {
    Shaped(c, s) && Exclusive(s) && Conserved(c, s) && Alive(s)
  }

  lemma InitInv(c: Shape)
    requires c.Valid()
    ensures Inv(c, Init(c))
  {
    var s := Init(c);
    forall i | 0 <= i < |s.slots| ensures Count(s.pcs, HolderOf(i)) == 0 {
      CountNone(s.pcs, HolderOf(i));
    }
    CountNone(s.pcs, Holder());
    SumZero(s.slots);
  }

  /** Changing one worker's place changes the counts by that worker's contribution. */
  lemma CountsAfter(s: State, w: nat, p: Pc)
    requires w < |s.pcs|
    ensures forall i :: 0 <= i < |s.slots| ==>
              Count(s.pcs[w := p], HolderOf(i)) ==
              Count(s.pcs, HolderOf(i)) - (if Holds(s.pcs[w], i) then 1 else 0) + (if Holds(p, i) then 1 else 0)
    ensures Count(s.pcs[w := p], Holder()) ==
            Count(s.pcs, Holder()) - (if Holder()(s.pcs[w]) then 1 else 0) + (if Holder()(p) then 1 else 0)
  {
    forall i | 0 <= i < |s.slots|
      ensures Count(s.pcs[w := p], HolderOf(i)) ==
              Count(s.pcs, HolderOf(i)) - (if Holds(s.pcs[w], i) then 1 else 0) + (if Holds(p, i) then 1 else 0)
    {
      CountUpdate(s.pcs, HolderOf(i), w, p);
    }
    CountUpdate(s.pcs, Holder(), w, p);
  }

  /** The place the acting worker moves to. */
  function Goes(c: Shape, s: State, a: Action): Pc
    requires c.Valid() && Enabled(c, s, a) && !a.Cancel?
  {
    Apply(c, s, a).pcs[a.w]
  }

  lemma ConservedTake(c: Shape, s: State, w: nat, i: nat)
    requires Inv(c, s) && w < |s.pcs| && s.pcs[w].Scanning? && i < |s.slots| && s.slots[i] < c.streams
    ensures Conserved(c, s.(pcs := s.pcs[w := Took(i)], slots := s.slots[i := s.slots[i] + 1]))
  {
    CountsAfter(s, w, Took(i));
    SumUpdate(s.slots, i, s.slots[i] + 1);
  }

  lemma ConservedGive(c: Shape, s: State, w: nat)
    requires Inv(c, s) && w < |s.pcs| && s.pcs[w].Holding? && s.slots[s.pcs[w].index] > 0
    ensures var i := s.pcs[w].index;
            Conserved(c, s.(pcs := s.pcs[w := Drained], slots := s.slots[i := s.slots[i] - 1]))
  {
    CountsAfter(s, w, Drained);
    SumUpdate(s.slots, s.pcs[w].index, s.slots[s.pcs[w].index] - 1);
  }

  lemma ConservedMove(c: Shape, s: State, w: nat, p: Pc)
    requires Inv(c, s) && w < |s.pcs|
    requires if Holder()(s.pcs[w]) then Holder()(p) && p.index == s.pcs[w].index else !Holder()(p)
    ensures Conserved(c, s.(pcs := s.pcs[w := p]))
  {
    CountsAfter(s, w, p);
  }

  lemma ConservedStep(c: Shape, s: State, a: Action)
    requires c.Valid() && Inv(c, s) && Enabled(c, s, a)
    ensures Conserved(c, Apply(c, s, a))
  {
    if a.Drain? {
      ConservedGive(c, s, a.w);
    } else if a.Probe? && s.slots[At(c, s, s.pcs[a.w].offset)] < c.streams {
      ConservedTake(c, s, a.w, At(c, s, s.pcs[a.w].offset));
    } else if !a.Cancel? {
      ConservedMove(c, s, a.w, Goes(c, s, a));
      assert Apply(c, s, a).pcs == s.pcs[a.w := Goes(c, s, a)];
    }
  }

  lemma ShapedStep(c: Shape, s: State, a: Action)
    requires c.Valid() && Shaped(c, s) && Enabled(c, s, a)
    ensures Shaped(c, Apply(c, s, a))
  {
    var t := Apply(c, s, a);
    if !a.Cancel? {
      assert InRange(c, Goes(c, s, a));
      forall v | 0 <= v < |t.pcs| ensures InRange(c, t.pcs[v]) {
        assert v == a.w || t.pcs[v] == s.pcs[v];
      }
    }
  }

  lemma ExclusiveStep(c: Shape, s: State, a: Action)
    requires c.Valid() && Shaped(c, s) && Exclusive(s) && Enabled(c, s, a)
    ensures Exclusive(Apply(c, s, a))
  {
    var t := Apply(c, s, a);
    if !a.Cancel? {
      assert InMutex(t.pcs[a.w]) <==> t.mutex == Some(a.w);
      forall v | 0 <= v < |t.pcs| ensures InMutex(t.pcs[v]) <==> t.mutex == Some(v) {
        assert v == a.w || t.pcs[v] == s.pcs[v];
      }
    }
  }

  /** A channel that is not empty has a worker on it. */
  lemma OccupiedHasHolder(c: Shape, s: State, i: nat) returns (v: nat)
    requires Inv(c, s) && i < |s.slots| && s.slots[i] > 0
    ensures v < |s.pcs| && Holds(s.pcs[v], i)
  {
    v := CountWitness(s.pcs, HolderOf(i));
  }

  /** A worker on a connection finds its slot there: the drain in `release` never blocks. */
  lemma {:induction false} HolderOccupies(c: Shape, s: State, w: nat)
    requires Inv(c, s) && w < |s.pcs| && (s.pcs[w].Took? || s.pcs[w].Holding?)
    ensures s.pcs[w].index < |s.slots| && 0 < s.slots[s.pcs[w].index] <= c.streams
  {
    CountPositive(s.pcs, HolderOf(s.pcs[w].index), w);
  }

  lemma AliveStep(c: Shape, s: State, a: Action)
    requires c.Valid() && Inv(c, s) && Enabled(c, s, a)
    ensures Alive(Apply(c, s, a))
  {
    var t := Apply(c, s, a);
    if a.Cancel? {
      assert t.pcs == s.pcs;
    } else {
      var w := a.w;
      var p := Goes(c, s, a);
      assert forall v :: 0 <= v < |t.pcs| && v != w ==> t.pcs[v] == s.pcs[v];
      if Lively(p) {
        assert Lively(t.pcs[w]);
      } else if a.Probe? {
        var v := OccupiedHasHolder(c, s, At(c, s, s.pcs[w].offset));
        assert v != w && Lively(t.pcs[v]);
      } else if exists u :: 0 <= u < |t.pcs| && Waiting(t.pcs[u]) {
        var u :| 0 <= u < |t.pcs| && Waiting(t.pcs[u]);
        assert Waiting(s.pcs[u]);
        if !t.token {
          var v :| 0 <= v < |s.pcs| && Lively(s.pcs[v]);
          assert v != w;
          assert Lively(t.pcs[v]);
        }
      }
    }
  }

  lemma InvStep(c: Shape, s: State, a: Action)
    requires c.Valid() && Inv(c, s) && Enabled(c, s, a)
    ensures Inv(c, Apply(c, s, a))
  {
    ShapedStep(c, s, a);
    ExclusiveStep(c, s, a);
    ConservedStep(c, s, a);
    AliveStep(c, s, a);
  }

  lemma {:induction false} InvRun(c: Shape, s: State, run: seq<Action>)
    requires c.Valid() && Inv(c, s) && Runs(c, s, run)
    ensures Inv(c, Exec(c, s, run))
    decreases |run|
  {
    if run != [] {
      InvStep(c, s, run[0]);
      InvRun(c, Apply(c, s, run[0]), run[1..]);
    }
  }

  // ---------------------------------------------------------------- no lost wake-up

  predicate Busy(p: Pc) { !p.Idle? && !p.Exited? }

  /** An action that some worker takes on its own, with no arrival and no cancellation. */
  predicate Internal(a: Action) { !a.Enter? && !a.Quit? && !a.Cancel? && !a.Abort? }

  lemma MutexHolderMoves(c: Shape, s: State) returns (a: Action)
    requires c.Valid() && Inv(c, s) && s.mutex.Some?
    ensures Internal(a) && Enabled(c, s, a) && !a.Drain?
  {
    var w := s.mutex.value;
    assert InMutex(s.pcs[w]);
    a := match s.pcs[w] case Scanning(_) => Probe(w) case Took(_) => Publish(w) case _ => Unlock(w);
  }

  lemma LivelyMoves(c: Shape, s: State, w: nat) returns (a: Action)
    requires c.Valid() && Inv(c, s) && s.mutex == None && w < |s.pcs| && Lively(s.pcs[w])
    ensures Internal(a) && Enabled(c, s, a)
  {
    assert !InMutex(s.pcs[w]);
    if s.pcs[w].Holding? {
      HolderOccupies(c, s, w);
      a := Drain(w);
    } else {
      a := if s.pcs[w].Locking? then Lock(w) else Signal(w);
    }
  }

  lemma BusyMoves(c: Shape, s: State, w: nat) returns (a: Action)
    requires c.Valid() && Inv(c, s) && w < |s.pcs| && Busy(s.pcs[w])
    ensures Internal(a) && Enabled(c, s, a)
  {
    if s.mutex.Some? {
      a := MutexHolderMoves(c, s);
    } else if Lively(s.pcs[w]) {
      a := LivelyMoves(c, s, w);
    } else {
      assert !InMutex(s.pcs[w]);
      assert Waiting(s.pcs[w]);
      if s.token {
        a := Wake(w);
      } else {
        var v :| 0 <= v < |s.pcs| && Lively(s.pcs[v]);
        a := LivelyMoves(c, s, v);
      }
    }
  }

  /**
   Whatever interleaving of acquires, releases and cancellation led here, a parked worker
   has a token waiting or another worker that is scanning, holding a slot, or about to
   post one; and whenever any worker is inside acquire or release, some worker can move.
   */
  lemma {:induction false} NoStuckState(c: Shape, run: seq<Action>)
    requires c.Valid() && Runs(c, Init(c), run)
    ensures var s := Exec(c, Init(c), run);
            && (forall w :: 0 <= w < |s.pcs| && s.pcs[w].Parked? ==>
                  s.token || exists v :: 0 <= v < |s.pcs| && v != w && Lively(s.pcs[v]))
            && (forall w :: 0 <= w < |s.pcs| && Busy(s.pcs[w]) ==>
                  exists a :: Internal(a) && Enabled(c, s, a))
  {
    InitInv(c);
    InvRun(c, Init(c), run);
    var s := Exec(c, Init(c), run);
    forall w | 0 <= w < |s.pcs| && Busy(s.pcs[w])
      ensures exists a :: Internal(a) && Enabled(c, s, a)
    {
      var a := BusyMoves(c, s, w);
    }
    forall w | 0 <= w < |s.pcs| && s.pcs[w].Parked?
      ensures s.token || exists v :: 0 <= v < |s.pcs| && v != w && Lively(s.pcs[v])
    {
      assert Waiting(s.pcs[w]);
    }
  }

  // ---------------------------------------------------------------- every waiter is served

  /** What a token is worth: more than the scan it can start. */
  function TokenWeight(c: Shape): nat { c.connections + 4 }

  function Rank(c: Shape, p: Pc): nat
    requires InRange(c, p)
  {
    var t := TokenWeight(c);
    match p
    case Exited => 0
    case Idle => 1
    case Drained => t + 2
    case Holding(_) => t + 3
    case Took(_) => t + 4
    case Parked => t + 5
    case Missed => t + 6
    case Scanning(o) => t + 6 + (c.connections - o)
    case Locking => t + 7 + c.connections
  }

  function Ranks(c: Shape, pcs: seq<Pc>): nat
    requires forall w :: 0 <= w < |pcs| ==> InRange(c, pcs[w])
  {
    if pcs == [] then 0 else Rank(c, pcs[0]) + Ranks(c, pcs[1..])
  }

  /** The work left when no further acquire is started. */
  function Measure(c: Shape, s: State): nat
    requires Shaped(c, s)
  {
    Ranks(c, s.pcs) + (if s.token then TokenWeight(c) else 0) + (if s.cancelled then 0 else 1)
  }

  lemma {:induction false} RanksUpdate(c: Shape, pcs: seq<Pc>, w: nat, p: Pc)
    requires forall v :: 0 <= v < |pcs| ==> InRange(c, pcs[v])
    requires w < |pcs| && InRange(c, p)
    ensures var qs := pcs[w := p];
            && (forall v :: 0 <= v < |qs| ==> InRange(c, qs[v]))
            && Ranks(c, qs) == Ranks(c, pcs) - Rank(c, pcs[w]) + Rank(c, p)
  {
    if w == 0 {
      assert pcs[0 := p][1..] == pcs[1..];
    } else {
      RanksUpdate(c, pcs[1..], w - 1, p);
      assert pcs[w := p][1..] == pcs[1..][w - 1 := p];
    }
  }

  /** Leaving out arrivals, an acting worker moves down, or takes a token that pays for it. */
  lemma RankDrops(c: Shape, s: State, a: Action)
    requires c.Valid() && Shaped(c, s) && Enabled(c, s, a) && !a.Enter? && !a.Cancel?
    ensures InRange(c, Goes(c, s, a))
    ensures var t := Apply(c, s, a);
            Rank(c, Goes(c, s, a)) + (if t.token then TokenWeight(c) else 0) <
            Rank(c, s.pcs[a.w]) + (if s.token then TokenWeight(c) else 0)
  {
  }

  lemma MeasureDrops(c: Shape, s: State, a: Action)
    requires c.Valid() && Shaped(c, s) && Enabled(c, s, a) && !a.Enter?
    ensures Shaped(c, Apply(c, s, a))
    ensures Measure(c, Apply(c, s, a)) < Measure(c, s)
  {
    ShapedStep(c, s, a);
    var t := Apply(c, s, a);
    if !a.Cancel? {
      var p := Goes(c, s, a);
      assert t.pcs == s.pcs[a.w := p] && t.cancelled == s.cancelled;
      RankDrops(c, s, a);
      RanksUpdate(c, s.pcs, a.w, p);
    }
  }

  lemma {:induction false} MeasureBoundsRun(c: Shape, s: State, run: seq<Action>)
    requires c.Valid() && Shaped(c, s) && Runs(c, s, run)
    requires forall k :: 0 <= k < |run| ==> !run[k].Enter?
    ensures |run| <= Measure(c, s)
    decreases |run|
  {
    if run != [] {
      MeasureDrops(c, s, run[0]);
      MeasureBoundsRun(c, Apply(c, s, run[0]), run[1..]);
    }
  }

  /**
   Once no new acquire starts, every waiter is served: from any reachable state such a
   continuation is bounded in length, and one that cannot be continued by any worker has
   left every worker outside acquire and release, although tokens are dropped on the way.
   While others go on acquiring, a waiter can be overtaken (`SchedulerFairness`).
   */
  lemma {:induction false} EveryWaiterServed(c: Shape, run: seq<Action>, rest: seq<Action>)
    requires c.Valid() && Runs(c, Init(c), run) && Runs(c, Exec(c, Init(c), run), rest)
    requires forall k :: 0 <= k < |rest| ==> !rest[k].Enter?
    ensures var s := Exec(c, Init(c), run);
            && Shaped(c, s)
            && |rest| <= Measure(c, s)
            && var t := Exec(c, s, rest);
               ((forall a :: Internal(a) ==> !Enabled(c, t, a)) ==>
                  forall w :: 0 <= w < |t.pcs| ==> t.pcs[w].Idle? || t.pcs[w].Exited?)
  {
    var s := Exec(c, Init(c), run);
    InitInv(c);
    InvRun(c, Init(c), run);
    MeasureBoundsRun(c, s, rest);
    RunsAppend(c, Init(c), run, rest);
    NoStuckState(c, run + rest);
  }

  // ---------------------------------------------------------------- cancellation

  lemma {:induction false} NobodyEntersCancelled(c: Shape, s: State, run: seq<Action>)
    requires c.Valid() && Runs(c, s, run) && s.cancelled
    ensures Exec(c, s, run).cancelled && forall k :: 0 <= k < |run| ==> !run[k].Enter?
    decreases |run|
  {
    if run != [] {
      NobodyEntersCancelled(c, Apply(c, s, run[0]), run[1..]);
      assert forall k :: 1 <= k < |run| ==> run[k] == run[1..][k - 1];
    }
  }

  /**
   Once the context is cancelled no worker calls acquire again, a parked one can leave at once,
   every continuation is bounded, and one in which nothing can happen any more has left every
   worker gone.
   */
  lemma {:induction false} CancelledPoolDrains(c: Shape, run: seq<Action>, rest: seq<Action>)
    requires c.Valid() && Runs(c, Init(c), run) && Exec(c, Init(c), run).cancelled
    requires Runs(c, Exec(c, Init(c), run), rest)
    ensures var s := Exec(c, Init(c), run);
            && (forall k :: 0 <= k < |rest| ==> !rest[k].Enter?)
            && Shaped(c, s) && |rest| <= Measure(c, s)
            && var t := Exec(c, s, rest);
               && (forall w :: 0 <= w < |t.pcs| && t.pcs[w].Parked? ==>
                     Enabled(c, t, Abort(w)) && Apply(c, t, Abort(w)).pcs[w].Exited?)
               && ((forall a :: !Enabled(c, t, a)) ==> forall w :: 0 <= w < |t.pcs| ==> t.pcs[w].Exited?)
  {
    var s := Exec(c, Init(c), run);
    NobodyEntersCancelled(c, s, rest);
    EveryWaiterServed(c, run, rest);
    var t := Exec(c, s, rest);
    if forall a :: !Enabled(c, t, a) {
      forall w | 0 <= w < |t.pcs| ensures t.pcs[w].Exited? {
        assert !Enabled(c, t, Quit(w));
      }
    }
  }

  // ---------------------------------------------------------------- calls and returns

  /** Between the call of acquire and its return. */
  predicate InAcquire(p: Pc) { p.Locking? || InMutex(p) || p.Parked? }

  function One(b: bool): nat { if b then 1 else 0 }

  lemma CallsStep(c: Shape, s: State, a: Action, w: nat)
    requires c.Valid() && Enabled(c, s, a) && w < |s.pcs|
    ensures var t := Apply(c, s, a);
            && |t.pcs| == |s.pcs|
            && One(InAcquire(t.pcs[w])) + One(a == Publish(w)) + One(a == Abort(w)) ==
               One(InAcquire(s.pcs[w])) + One(a == Enter(w))
            && One(t.pcs[w].Holding?) + One(a == Drain(w)) == One(s.pcs[w].Holding?) + One(a == Publish(w))
            && One(t.pcs[w].Drained?) + One(a == Signal(w)) == One(s.pcs[w].Drained?) + One(a == Drain(w))
            && (s.cancelled ==> t.cancelled) && (a.Abort? ==> s.cancelled)
  {
  }

  function Is(a: Action): Action -> bool { (b: Action) => b == a }

  lemma {:induction false} CallsRun(c: Shape, s: State, run: seq<Action>, w: nat)
    requires c.Valid() && Runs(c, s, run) && w < |s.pcs|
    ensures var t := Exec(c, s, run);
            && |t.pcs| == |s.pcs|
            && One(InAcquire(t.pcs[w])) + Count(run, Is(Publish(w))) + Count(run, Is(Abort(w))) ==
               One(InAcquire(s.pcs[w])) + Count(run, Is(Enter(w)))
            && One(t.pcs[w].Holding?) + Count(run, Is(Drain(w))) ==
               One(s.pcs[w].Holding?) + Count(run, Is(Publish(w)))
            && One(t.pcs[w].Drained?) + Count(run, Is(Signal(w))) ==
               One(s.pcs[w].Drained?) + Count(run, Is(Drain(w)))
            && (s.cancelled ==> t.cancelled) && (Count(run, Is(Abort(w))) > 0 ==> t.cancelled)
    decreases |run|
  {
    if run != [] {
      CallsStep(c, s, run[0], w);
      CallsRun(c, Apply(c, s, run[0]), run[1..], w);
    }
  }

  /**
   Every call of acquire is under way, has returned a connection, or has ended with an error,
   which happens only after cancellation; every connection returned is held or has been given
   back once, and every one given back is followed by one post of the token.
   */
  lemma {:induction false} CallsReturn(c: Shape, run: seq<Action>, w: nat)
    requires c.Valid() && Runs(c, Init(c), run) && w < c.workers
    ensures var t := Exec(c, Init(c), run);
            && |t.pcs| == c.workers
            && (!t.cancelled ==>
                  Count(run, Is(Enter(w))) == Count(run, Is(Publish(w))) + if InAcquire(t.pcs[w]) then 1 else 0)
            && Count(run, Is(Publish(w))) == Count(run, Is(Drain(w))) + (if t.pcs[w].Holding? then 1 else 0)
            && Count(run, Is(Drain(w))) == Count(run, Is(Signal(w))) + if t.pcs[w].Drained? then 1 else 0
  {
    CallsRun(c, Init(c), run, w);
  }
}
