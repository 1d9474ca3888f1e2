/**
 What the number of workers decides about the scheduler.

 - With at most as many workers as slots, every acquire succeeds in its first scan.
 - Until somebody releases, the slots are handed out round-robin.
 */
module SchedulerBounds {
  import opened Octets
  import opened Counting
  import opened Scheduler

  // ---------------------------------------------------------------- round-robin positions

  /** Every connection is probed at some offset of the scan. */
  lemma Probed(c: Shape, s: State, i: nat) returns (o: nat)
    requires c.Valid() && s.next < c.connections && i < c.connections
    ensures o < c.connections && At(c, s, o) == i
  {
    if i >= s.next {
      o := i - s.next;
      DivModUnique(s.next + o, c.connections, 0, i);
    } else {
      o := i + c.connections - s.next;
      DivModUnique(s.next + o, c.connections, 1, i);
    }
  }

  predicate Full(c: Shape, s: State)
  {
    forall i :: 0 <= i < |s.slots| ==> s.slots[i] == c.streams
  }

  /** The rest of the scan, from `offset`, meets a channel with room. */
  ghost predicate RoomAhead(c: Shape, s: State, offset: nat)
    requires c.Valid() && |s.slots| == c.connections
  {
    exists o :: offset <= o < c.connections && s.slots[At(c, s, o)] < c.streams
  }

  lemma RoomUnlessFull(c: Shape, s: State)
    requires c.Valid() && Inv(c, s) && !Full(c, s)
    ensures RoomAhead(c, s, 0)
  {
    var i :| 0 <= i < |s.slots| && s.slots[i] != c.streams;
    var o := Probed(c, s, i);
  }

  /** Full channels mean as many workers on connections as there are slots. */
  lemma FullMeansCapacity(c: Shape, s: State)
    requires c.Valid() && Inv(c, s)
    ensures Full(c, s) <==> Count(s.pcs, Holder()) == c.Capacity()
    ensures Count(s.pcs, Holder()) <= c.Capacity()
  {
    SumBound(s.slots, c.streams);
  }

  /** Slots are only given back while another worker scans, so room ahead stays there. */
  lemma RoomKept(c: Shape, s: State, a: Action, w: nat)
    requires c.Valid() && Inv(c, s) && Enabled(c, s, a)
    requires w < |s.pcs| && s.pcs[w].Scanning? && RoomAhead(c, s, s.pcs[w].offset)
    ensures var t := Apply(c, s, a);
            && |t.slots| == c.connections
            && (t.pcs[w].Scanning? ==> RoomAhead(c, t, t.pcs[w].offset))
            && !t.pcs[w].Missed?
  {
    var t := Apply(c, s, a);
    assert s.mutex == Some(w) by { assert InMutex(s.pcs[w]); }
    var o :| s.pcs[w].offset <= o < c.connections && s.slots[At(c, s, o)] < c.streams;
    if t.pcs[w].Scanning? || t.pcs[w].Missed? {
      assert t.next == s.next;
      assert At(c, t, o) == At(c, s, o);
      assert t.slots[At(c, s, o)] <= s.slots[At(c, s, o)];
    }
  }

  // ---------------------------------------------------------------- enough slots

  ghost predicate NobodyMisses(c: Shape, s: State)
    requires c.Valid() && |s.slots| == c.connections
  {
    && (forall w :: 0 <= w < |s.pcs| ==> !s.pcs[w].Missed? && !s.pcs[w].Parked?)
    && (forall w :: 0 <= w < |s.pcs| && s.pcs[w].Scanning? ==> RoomAhead(c, s, s.pcs[w].offset))
  }

  lemma NobodyMissesStep(c: Shape, s: State, a: Action)
    requires c.Valid() && c.workers <= c.Capacity()
    requires Inv(c, s) && NobodyMisses(c, s) && Enabled(c, s, a)
    ensures Inv(c, Apply(c, s, a)) && NobodyMisses(c, Apply(c, s, a))
  {
    InvStep(c, s, a);
    var t := Apply(c, s, a);
    forall w | 0 <= w < |t.pcs|
      ensures !t.pcs[w].Missed? && !t.pcs[w].Parked?
      ensures t.pcs[w].Scanning? ==> RoomAhead(c, t, t.pcs[w].offset)
    {
      if s.pcs[w].Scanning? {
        RoomKept(c, s, a, w);
      } else if t.pcs[w].Scanning? {
        CountMissesOne(t.pcs, Holder(), w);
        FullMeansCapacity(c, t);
        RoomUnlessFull(c, t);
      }
    }
  }

  lemma {:induction false} NobodyMissesRun(c: Shape, s: State, run: seq<Action>)
    requires c.Valid() && c.workers <= c.Capacity()
    requires Inv(c, s) && NobodyMisses(c, s) && Runs(c, s, run)
    ensures Inv(c, Exec(c, s, run)) && NobodyMisses(c, Exec(c, s, run))
    decreases |run|
  {
    if run != [] {
      NobodyMissesStep(c, s, run[0]);
      NobodyMissesRun(c, Apply(c, s, run[0]), run[1..]);
    }
  }

  /**
   When the workers are no more than the slots, in every interleaving no scan fails, no
   worker parks, and a worker on a connection can always give its slot back.
   */
  lemma {:induction false} FirstScanSucceeds(c: Shape, run: seq<Action>)
    requires c.Valid() && c.workers <= c.Capacity() && Runs(c, Init(c), run)
    ensures var s := Exec(c, Init(c), run);
            && (forall w :: 0 <= w < |s.pcs| ==> !s.pcs[w].Missed? && !s.pcs[w].Parked?)
            && (forall w :: 0 <= w < |s.pcs| && s.pcs[w].Holding? ==> Enabled(c, s, Drain(w)))
  {
    InitInv(c);
    NobodyMissesRun(c, Init(c), run);
    var s := Exec(c, Init(c), run);
    forall w | 0 <= w < |s.pcs| && s.pcs[w].Holding? ensures Enabled(c, s, Drain(w)) {
      HolderOccupies(c, s, w);
    }
  }

  // ---------------------------------------------------------------- the first wave

  /** The round-robin position after some grants: `rounds` full rounds and `due` more. */
  datatype Position = Position(rounds: nat, due: nat)

  function Advance(c: Shape, p: Position): Position
  {
    if p.due + 1 == c.connections then Position(p.rounds + 1, 0) else Position(p.rounds, p.due + 1)
  }

  /** What connection `i` holds at a position. */
  function Share(p: Position, i: nat): nat
  {
    p.rounds + (if i < p.due then 1 else 0)
  }

  predicate SomeTook(s: State)
  {
    exists w :: 0 <= w < |s.pcs| && s.pcs[w].Took?
  }

  predicate Spread(s: State, p: Position)
  {
    forall i :: 0 <= i < |s.slots| ==> s.slots[i] == Share(p, i)
  }

  /** The slots are spread evenly, and `next` is where the next published grant is due. */
  predicate Even(c: Shape, s: State, p: Position)
    requires c.Valid()
  {
    && p.due < c.connections
    && Spread(s, p)
    && (!SomeTook(s) ==> s.next == p.due)
    && (forall w :: 0 <= w < |s.pcs| && s.pcs[w].Took? ==> (s.pcs[w].index + 1) % c.connections == p.due)
    && (forall w :: 0 <= w < |s.pcs| && s.pcs[w].Scanning? && s.pcs[w].offset > 0 ==> Full(c, s))
  }

  lemma Alone(s: State, w: nat)
    requires Exclusive(s) && w < |s.pcs| && InMutex(s.pcs[w])
    ensures forall v :: 0 <= v < |s.pcs| && v != w ==> !InMutex(s.pcs[v])
  {
    assert s.mutex == Some(w);
  }

  /** An even spread with room somewhere has room at the connection that is due. */
  lemma RoomWhereDue(c: Shape, s: State, p: Position)
    requires c.Valid() && Inv(c, s) && Even(c, s, p)
    ensures s.slots[p.due] < c.streams || Full(c, s)
  {
    if s.slots[p.due] >= c.streams {
      forall i | 0 <= i < |s.slots| ensures s.slots[i] == c.streams {
        assert s.slots[i] == Share(p, i) >= Share(p, p.due);
      }
    }
  }

  /** A probe that finds room is the first of its scan, at the connection that is due. */
  lemma ProbeDue(c: Shape, s: State, w: nat, p: Position)
    requires c.Valid() && Inv(c, s) && Even(c, s, p) && Enabled(c, s, Probe(w))
    ensures s.next == p.due
    ensures Full(c, s) || (s.pcs[w].offset == 0 && At(c, s, 0) == p.due && s.slots[p.due] < c.streams)
  {
    Alone(s, w);
    RoomWhereDue(c, s, p);
    DivModUnique(s.next, c.connections, 0, s.next);
  }

  lemma EvenProbe(c: Shape, s: State, w: nat, p: Position)
    requires c.Valid() && Inv(c, s) && Even(c, s, p) && Enabled(c, s, Probe(w))
    ensures var t := Apply(c, s, Probe(w));
            Even(c, t, if t.pcs[w].Took? then Advance(c, p) else p)
  {
    var t := Apply(c, s, Probe(w));
    Alone(s, w);
    ProbeDue(c, s, w, p);
    assert forall v :: 0 <= v < |t.pcs| && v != w ==> !InMutex(t.pcs[v]);
    if !Full(c, s) {
      assert t.pcs[w] == Pc.Took(p.due);
      assert p.due + 1 == c.connections ==> (p.due + 1) % c.connections == 0 by {
        DivModUnique(c.connections, c.connections, 1, 0);
      }
      assert p.due + 1 < c.connections ==> (p.due + 1) % c.connections == p.due + 1 by {
        if p.due + 1 < c.connections { DivModUnique(p.due + 1, c.connections, 0, p.due + 1); }
      }
    }
  }

  lemma EvenMove(c: Shape, s: State, a: Action, p: Position)
    requires c.Valid() && Inv(c, s) && Even(c, s, p) && Enabled(c, s, a) && !a.Drain? && !a.Probe?
    ensures Even(c, Apply(c, s, a), p)
  {
    var t := Apply(c, s, a);
    assert t.slots == s.slots;
    if !a.Cancel? {
      assert forall v :: 0 <= v < |t.pcs| && v != a.w ==> t.pcs[v] == s.pcs[v];
      assert !t.pcs[a.w].Took?;
      if a.Publish? {
        Alone(s, a.w);
      } else if SomeTook(s) {
        var v :| 0 <= v < |s.pcs| && s.pcs[v].Took?;
        assert t.pcs[v].Took?;
      }
    }
  }

  /** The grants of a run: the probes that found room. */
  function Grants(c: Shape, s: State, run: seq<Action>): nat
    requires c.Valid() && Runs(c, s, run)
    decreases |run|
  {
    if run == [] then 0
    else
      var t := Apply(c, s, run[0]);
      (if run[0].Probe? && t.pcs[run[0].w].Took? then 1 else 0) + Grants(c, t, run[1..])
  }

  lemma PositionStep(c: Shape, k: nat, p: Position)
    requires c.Valid() && k == p.rounds * c.connections + p.due && p.due < c.connections
    ensures var n := Advance(c, p); k + 1 == n.rounds * c.connections + n.due
  {
    assert (p.rounds + 1) * c.connections == p.rounds * c.connections + c.connections;
  }

  lemma {:induction false} EvenRun(c: Shape, s: State, run: seq<Action>, k: nat, p: Position) returns (q: Position)
    requires c.Valid() && Inv(c, s) && Even(c, s, p) && Runs(c, s, run)
    requires k == p.rounds * c.connections + p.due
    requires forall j :: 0 <= j < |run| ==> !run[j].Drain?
    ensures Inv(c, Exec(c, s, run)) && Even(c, Exec(c, s, run), q)
    ensures k + Grants(c, s, run) == q.rounds * c.connections + q.due
    decreases |run|
  {
    if run == [] {
      q := p;
    } else {
      var a, t := run[0], Apply(c, s, run[0]);
      InvStep(c, s, a);
      if a.Probe? {
        EvenProbe(c, s, a.w, p);
        PositionStep(c, k, p);
      } else {
        EvenMove(c, s, a, p);
      }
      if a.Probe? && t.pcs[a.w].Took? {
        q := EvenRun(c, t, run[1..], k + 1, Advance(c, p));
      } else {
        q := EvenRun(c, t, run[1..], k, p);
      }
    }
  }

  /**
   In every interleaving without a release, after k grants connection i holds k div C
   slots, plus one if i < k mod C; and k never exceeds the capacity.
   */
  lemma {:induction false} BalancedFirstWave(c: Shape, run: seq<Action>)
    requires c.Valid() && Runs(c, Init(c), run)
    requires forall j :: 0 <= j < |run| ==> !run[j].Drain?
    ensures var s, k := Exec(c, Init(c), run), Grants(c, Init(c), run);
            && |s.slots| == c.connections
            && (forall i :: 0 <= i < c.connections ==>
                  s.slots[i] == k / c.connections + (if i < k % c.connections then 1 else 0))
            && k <= c.Capacity()
  {
    InitInv(c);
    var q := EvenRun(c, Init(c), run, 0, Position(0, 0));
    DivModUnique(Grants(c, Init(c), run), c.connections, q.rounds, q.due);
    var s := Exec(c, Init(c), run);
    assert s.slots[0] == Share(q, 0);
    MulMono(q.rounds, c.streams, c.connections);
    MulMono(q.rounds + 1, c.streams, c.connections);
    assert (q.rounds + 1) * c.connections == q.rounds * c.connections + c.connections;
  }
}
