/**
 When a dropped wake-up token leaves a worker parked beside a free slot.

 `release` drops its token when one is already there, so two releases can produce one
 wake-up.  The worker that is woken takes one slot; a second parked worker then stays
 parked although the other slot is free, until the next release.  This is reachable
 exactly when there are at least two slots and at least two more workers than slots.
 */
module SchedulerWakeups {
  import opened Octets
  import opened Counting
  import opened Scheduler
  import opened SchedulerBounds

  /** Nobody is inside acquire or release except parked workers, and no token is there. */
  predicate Quiet(s: State)
  {
    && !s.token
    && forall w :: 0 <= w < |s.pcs| ==>
         s.pcs[w].Idle? || s.pcs[w].Exited? || s.pcs[w].Parked? || s.pcs[w].Holding?
  }

  predicate SomeParked(s: State) { exists w :: 0 <= w < |s.pcs| && s.pcs[w].Parked? }

  predicate Stranded(c: Shape, s: State) { Quiet(s) && SomeParked(s) && !Full(c, s) }

  // ---------------------------------------------------------------- one slot

  lemma OneSlotNeverStrands(c: Shape, s: State)
    requires c.Valid() && c.Capacity() == 1 && Inv(c, s)
    ensures !Stranded(c, s)
  {
    if Quiet(s) && SomeParked(s) {
      var w :| 0 <= w < |s.pcs| && s.pcs[w].Parked?;
      assert Waiting(s.pcs[w]);
      var v :| 0 <= v < |s.pcs| && Lively(s.pcs[v]);
      assert s.pcs[v].Holding?;
      CountPositive(s.pcs, Holder(), v);
      FullMeansCapacity(c, s);
    }
  }

  // ---------------------------------------------------------------- few workers

  predicate Waiter(p: Pc) { p.Parked? || p.Missed? }

  /** A token is there, or a release is about to post one. */
  predicate Coming(s: State) { s.token || exists w :: 0 <= w < |s.pcs| && s.pcs[w].Drained? }

  ghost predicate Sole(c: Shape, s: State)
    requires c.Valid() && |s.slots| == c.connections
  {
    && (forall v, w :: 0 <= v < |s.pcs| && 0 <= w < |s.pcs| && Waiter(s.pcs[v]) && Waiter(s.pcs[w]) ==> v == w)
    && (forall w :: 0 <= w < |s.pcs| && Waiter(s.pcs[w]) ==> Coming(s) || Full(c, s))
    && (forall w :: 0 <= w < |s.pcs| && s.pcs[w].Scanning? ==>
          RoomAhead(c, s, s.pcs[w].offset) || (!SomeParked(s) && (Coming(s) || Full(c, s))))
  }

  /** What is coming stays, except for the token a parked worker takes. */
  lemma ComingKept(c: Shape, s: State, a: Action)
    requires c.Valid() && Inv(c, s) && Enabled(c, s, a) && !a.Wake?
    ensures Coming(s) || a.Drain? ==> Coming(Apply(c, s, a))
    ensures Full(c, s) && !a.Drain? ==> Full(c, Apply(c, s, a))
  {
    var t := Apply(c, s, a);
    if a.Drain? {
      assert t.pcs[a.w].Drained?;
    } else if !s.token && Coming(s) {
      var w :| 0 <= w < |s.pcs| && s.pcs[w].Drained?;
      assert a == Signal(w) || t.pcs[w].Drained?;
    }
  }

  /** While a worker is parked and another scans, too few hold slots to fill the channels. */
  lemma RoomBesideParked(c: Shape, s: State, v: nat, w: nat)
    requires c.Valid() && Inv(c, s) && c.workers <= c.Capacity() + 1
    requires v < |s.pcs| && w < |s.pcs| && s.pcs[v].Parked? && s.pcs[w] == Scanning(0)
    ensures RoomAhead(c, s, 0)
  {
    if v < w {
      CountMissesTwo(s.pcs, Holder(), v, w);
    } else {
      CountMissesTwo(s.pcs, Holder(), w, v);
    }
    FullMeansCapacity(c, s);
    RoomUnlessFull(c, s);
  }

  lemma SoleScan(c: Shape, s: State, a: Action, w: nat)
    requires c.Valid() && Inv(c, s) && Sole(c, s) && Enabled(c, s, a)
    requires c.workers <= c.Capacity() + 1
    requires w < |s.pcs| && Apply(c, s, a).pcs[w].Scanning?
    ensures var t := Apply(c, s, a);
            && |t.slots| == c.connections
            && (RoomAhead(c, t, t.pcs[w].offset) || (!SomeParked(t) && (Coming(t) || Full(c, t))))
  {
    var t := Apply(c, s, a);
    InvStep(c, s, a);
    if s.pcs[w].Scanning? {
      if RoomAhead(c, s, s.pcs[w].offset) {
        RoomKept(c, s, a, w);
      } else {
        assert InMutex(s.pcs[w]);
        ComingKept(c, s, a);
        assert forall v :: 0 <= v < |t.pcs| && t.pcs[v].Parked? ==> s.pcs[v].Parked?;
      }
    } else {
      assert a == Lock(w) && t.pcs[w] == Scanning(0);
      if SomeParked(t) {
        var v :| 0 <= v < |t.pcs| && t.pcs[v].Parked?;
        RoomBesideParked(c, t, v, w);
      } else if !Full(c, t) {
        RoomUnlessFull(c, t);
      }
    }
  }

  lemma SoleWait(c: Shape, s: State, a: Action, w: nat)
    requires c.Valid() && Inv(c, s) && Sole(c, s) && Enabled(c, s, a)
    requires w < |s.pcs| && Waiter(Apply(c, s, a).pcs[w])
    ensures Coming(Apply(c, s, a)) || Full(c, Apply(c, s, a))
    ensures forall v :: 0 <= v < |s.pcs| && Waiter(Apply(c, s, a).pcs[v]) ==> v == w
  {
    var t := Apply(c, s, a);
    if Waiter(s.pcs[w]) {
      assert !a.Wake?;
      ComingKept(c, s, a);
      forall v | 0 <= v < |s.pcs| && Waiter(t.pcs[v]) ensures v == w {
        if !Waiter(s.pcs[v]) {
          NewWaiterAlone(c, s, a, v);
          assert false;
        }
      }
    } else {
      NewWaiterAlone(c, s, a, w);
      ComingKept(c, s, a);
    }
  }

  /** A scan fails only when nobody else waits. */
  lemma NewWaiterAlone(c: Shape, s: State, a: Action, w: nat)
    requires c.Valid() && Inv(c, s) && Sole(c, s) && Enabled(c, s, a)
    requires w < |s.pcs| && !Waiter(s.pcs[w]) && Waiter(Apply(c, s, a).pcs[w])
    ensures a == Probe(w) && (Coming(s) || Full(c, s))
    ensures forall v :: 0 <= v < |s.pcs| ==> !Waiter(s.pcs[v])
    ensures forall v :: 0 <= v < |s.pcs| && v != w ==> !Waiter(Apply(c, s, a).pcs[v])
  {
    assert s.pcs[w].Scanning?;
    Alone(s, w);
    if RoomAhead(c, s, s.pcs[w].offset) {
      RoomKept(c, s, a, w);
    }
  }

  lemma SoleStep(c: Shape, s: State, a: Action)
    requires c.Valid() && Inv(c, s) && Sole(c, s) && Enabled(c, s, a)
    requires c.workers <= c.Capacity() + 1
    ensures Inv(c, Apply(c, s, a)) && Sole(c, Apply(c, s, a))
  {
    InvStep(c, s, a);
    var t := Apply(c, s, a);
    forall w | 0 <= w < |t.pcs| && t.pcs[w].Scanning?
      ensures RoomAhead(c, t, t.pcs[w].offset) || (!SomeParked(t) && (Coming(t) || Full(c, t)))
    {
      SoleScan(c, s, a, w);
    }
    forall w | 0 <= w < |t.pcs| && Waiter(t.pcs[w])
      ensures Coming(t) || Full(c, t)
      ensures forall v :: 0 <= v < |t.pcs| && Waiter(t.pcs[v]) ==> v == w
    {
      SoleWait(c, s, a, w);
    }
  }

  lemma {:induction false} SoleRun(c: Shape, s: State, run: seq<Action>)
    requires c.Valid() && Inv(c, s) && Sole(c, s) && Runs(c, s, run)
    requires c.workers <= c.Capacity() + 1
    ensures Inv(c, Exec(c, s, run)) && Sole(c, Exec(c, s, run))
    decreases |run|
  {
    if run != [] {
      SoleStep(c, s, run[0]);
      SoleRun(c, Apply(c, s, run[0]), run[1..]);
    }
  }

  // ---------------------------------------------------------------- many workers

  /** Worker `w` acquires the slot that is due. */
  function GrantRun(w: nat): seq<Action> { [Enter(w), Lock(w), Probe(w), Publish(w)] }

  /** Worker `w` probes `n` full channels. */
  function Probes(w: nat, n: nat): seq<Action> { seq(n, _ => Probe(w)) }

  /** Worker `w` scans in vain. */
  function ScanRun(c: Shape, w: nat): seq<Action> { [Lock(w)] + Probes(w, c.connections) + [Unlock(w)] }

  function MissRun(c: Shape, w: nat): seq<Action> { [Enter(w)] + ScanRun(c, w) }

  lemma GrantRuns(c: Shape, s: State, w: nat)
    requires c.Valid() && Shaped(c, s) && w < c.workers && s.pcs[w].Idle?
    requires s.mutex == None && !s.cancelled && s.slots[s.next] < c.streams
    ensures Runs(c, s, GrantRun(w))
    ensures Exec(c, s, GrantRun(w)) ==
            s.(pcs := s.pcs[w := Holding(s.next)], slots := s.slots[s.next := s.slots[s.next] + 1],
               next := (s.next + 1) % c.connections)
  {
    DivModUnique(s.next, c.connections, 0, s.next);
    var s1 := Apply(c, s, Enter(w));
    var s2 := Apply(c, s1, Lock(w));
    var s3 := Apply(c, s2, Probe(w));
    var s4 := Apply(c, s3, Publish(w));
    assert s3.pcs[w] == Pc.Took(s.next);
    assert s4.pcs == s.pcs[w := Holding(s.next)];
    Four(c, s, GrantRun(w));
  }

  lemma Four(c: Shape, s: State, run: seq<Action>)
    requires c.Valid() && |run| == 4
    requires Enabled(c, s, run[0])
    requires var s1 := Apply(c, s, run[0]);
             Enabled(c, s1, run[1]) &&
             var s2 := Apply(c, s1, run[1]);
             Enabled(c, s2, run[2]) &&
             var s3 := Apply(c, s2, run[2]);
             Enabled(c, s3, run[3])
    ensures Runs(c, s, run)
    ensures var s1 := Apply(c, s, run[0]);
            var s2 := Apply(c, s1, run[1]);
            var s3 := Apply(c, s2, run[2]);
            Exec(c, s, run) == Apply(c, s3, run[3])
  {
    var s1 := Apply(c, s, run[0]);
    var s2 := Apply(c, s1, run[1]);
    var s3 := Apply(c, s2, run[2]);
    var s4 := Apply(c, s3, run[3]);
    assert run[1..][1..] == run[2..] && run[2..][1..] == run[3..] && run[3..][1..] == [];
    assert Runs(c, s4, []) && Runs(c, s3, run[3..]) && Runs(c, s2, run[2..]) && Runs(c, s1, run[1..]);
    assert Exec(c, s3, run[3..]) == s4;
    assert Exec(c, s2, run[2..]) == s4;
    assert Exec(c, s1, run[1..]) == s4;
  }

  lemma {:induction false} ProbeRuns(c: Shape, s: State, w: nat, n: nat)
    requires c.Valid() && Shaped(c, s) && Full(c, s) && w < c.workers && 0 < n <= c.connections
    requires s.pcs[w] == Scanning(c.connections - n)
    ensures Runs(c, s, Probes(w, n)) && Exec(c, s, Probes(w, n)) == s.(pcs := s.pcs[w := Missed])
    decreases n
  {
    var t := Apply(c, s, Probe(w));
    assert Probes(w, n)[0] == Probe(w);
    assert Probes(w, n)[1..] == Probes(w, n - 1);
    if n > 1 {
      ShapedStep(c, s, Probe(w));
      assert t.slots == s.slots;
      ProbeRuns(c, t, w, n - 1);
      assert t.pcs[w := Missed] == s.pcs[w := Missed];
    } else {
      assert Probes(w, n)[1..] == [];
    }
  }

  lemma ScanRuns(c: Shape, s: State, w: nat)
    requires c.Valid() && Shaped(c, s) && Full(c, s) && w < c.workers && s.pcs[w].Locking? && s.mutex == None
    ensures Runs(c, s, ScanRun(c, w)) && Exec(c, s, ScanRun(c, w)) == s.(pcs := s.pcs[w := Parked])
  {
    var t := Apply(c, s, Lock(w));
    OneAction(c, s, Lock(w));
    ShapedStep(c, s, Lock(w));
    ProbeRuns(c, t, w, c.connections);
    RunsAppend(c, s, [Lock(w)], Probes(w, c.connections));
    var u := t.(pcs := t.pcs[w := Missed]);
    OneAction(c, u, Unlock(w));
    RunsAppend(c, s, [Lock(w)] + Probes(w, c.connections), [Unlock(w)]);
    assert u.pcs[w := Parked] == s.pcs[w := Parked];
  }

  /** With every channel full, an acquire parks and changes nothing else. */
  lemma MissRuns(c: Shape, s: State, w: nat)
    requires c.Valid() && Shaped(c, s) && Full(c, s) && w < c.workers && s.pcs[w].Idle?
    requires s.mutex == None && !s.cancelled
    ensures Runs(c, s, MissRun(c, w))
    ensures Exec(c, s, MissRun(c, w)) == s.(pcs := s.pcs[w := Parked])
  {
    var t := Apply(c, s, Enter(w));
    OneAction(c, s, Enter(w));
    ShapedStep(c, s, Enter(w));
    ScanRuns(c, t, w);
    RunsAppend(c, s, [Enter(w)], ScanRun(c, w));
    assert t.pcs[w := Parked] == s.pcs[w := Parked];
  }

  /** The state after workers 0 to k-1 have each taken a slot in turn. */
  predicate Filled(c: Shape, s: State, k: nat, p: Position)
    requires c.Valid()
  {
    && Shaped(c, s) && s.mutex == None && !s.token && !s.cancelled
    && k == p.rounds * c.connections + p.due && p.due < c.connections
    && Spread(s, p) && s.next == p.due
    && (forall w :: 0 <= w < |s.pcs| ==> if w < k then s.pcs[w].Holding? else s.pcs[w].Idle?)
    && (0 < k <= |s.pcs| ==> s.pcs[0] == Holding(0))
  }

  /** One more worker takes the slot that is due. */
  lemma FillOne(c: Shape, s: State, k: nat, q: Position)
    requires c.Valid() && Filled(c, s, k, q) && k < c.workers && k < c.Capacity()
    ensures Runs(c, s, GrantRun(k)) && Filled(c, Exec(c, s, GrantRun(k)), k + 1, Advance(c, q))
  {
    assert q.rounds < c.streams by { MulMono(c.streams, q.rounds, c.connections); }
    assert s.slots[s.next] == Share(q, q.due);
    GrantRuns(c, s, k);
    PositionStep(c, k, q);
    if q.due + 1 == c.connections {
      DivModUnique(q.due + 1, c.connections, 1, 0);
    } else {
      DivModUnique(q.due + 1, c.connections, 0, q.due + 1);
    }
    assert Spread(Exec(c, s, GrantRun(k)), Advance(c, q));
    assert k == 0 ==> q.due == 0 by { MulMono(1, q.rounds, c.connections); }
  }

  lemma {:induction false} FillRuns(c: Shape, k: nat) returns (run: seq<Action>, p: Position)
    requires c.Valid() && k <= c.workers && k <= c.Capacity()
    ensures Runs(c, Init(c), run) && Filled(c, Exec(c, Init(c), run), k, p)
    ensures forall a :: a in run ==> !a.Drain?
  {
    if k == 0 {
      run, p := [], Position(0, 0);
    } else {
      var r, q := FillRuns(c, k - 1);
      FillOne(c, Exec(c, Init(c), r), k - 1, q);
      RunsAppend(c, Init(c), r, GrantRun(k - 1));
      run, p := r + GrantRun(k - 1), Advance(c, q);
    }
  }

  /** All slots taken, two workers parked, everything else as `FillRuns` left it. */
  predicate Crowded(c: Shape, s: State, m: nat)
    requires c.Valid()
  {
    && Shaped(c, s) && Full(c, s) && s.mutex == None && !s.token && !s.cancelled && s.next == 0
    && 2 <= m && m + 2 <= c.workers
    && (forall w :: 0 <= w < m ==> s.pcs[w].Holding?)
    && s.pcs[0] == Holding(0)
    && s.pcs[m].Parked? && s.pcs[m + 1].Parked?
    && (forall w :: m + 2 <= w < c.workers ==> s.pcs[w].Idle?)
  }

  lemma CrowdRuns(c: Shape) returns (run: seq<Action>)
    requires c.Valid() && c.Capacity() >= 2 && c.workers >= c.Capacity() + 2
    ensures Runs(c, Init(c), run) && Crowded(c, Exec(c, Init(c), run), c.Capacity())
  {
    var m := c.Capacity();
    var r, p := FillRuns(c, m);
    var s := Exec(c, Init(c), r);
    DivModUnique(m, c.connections, p.rounds, p.due);
    DivModUnique(m, c.connections, c.streams, 0);
    assert Full(c, s);
    MissRuns(c, s, m);
    RunsAppend(c, Init(c), r, MissRun(c, m));
    var t := Exec(c, s, MissRun(c, m));
    MissRuns(c, t, m + 1);
    run := r + MissRun(c, m) + MissRun(c, m + 1);
    RunsAppend(c, Init(c), r + MissRun(c, m), MissRun(c, m + 1));
  }

  /** A parked worker that takes the token acquires the slot at the front of the scan. */
  lemma WakeRuns(c: Shape, s: State, w: nat)
    requires c.Valid() && Shaped(c, s) && w < c.workers && s.pcs[w].Parked?
    requires s.token && s.mutex == None && s.next == 0 && s.slots[0] < c.streams
    ensures var run := [Wake(w), Lock(w), Probe(w), Publish(w)];
            && Runs(c, s, run)
            && Exec(c, s, run) ==
                 s.(pcs := s.pcs[w := Holding(0)], slots := s.slots[0 := s.slots[0] + 1],
                    next := 1 % c.connections, token := false)
  {
    DivModUnique(0, c.connections, 0, 0);
    var s1 := Apply(c, s, Wake(w));
    var s2 := Apply(c, s1, Lock(w));
    var s3 := Apply(c, s2, Probe(w));
    assert s3.pcs[w] == Pc.Took(0);
    assert Apply(c, s3, Publish(w)).pcs == s.pcs[w := Holding(0)];
    Four(c, s, [Wake(w), Lock(w), Probe(w), Publish(w)]);
  }

  /** Workers 0 and 1 release; the second token is dropped. */
  lemma ReleaseRuns(c: Shape, s: State, m: nat) returns (i: nat)
    requires c.Valid() && Crowded(c, s, m) && Inv(c, s)
    ensures i < c.connections && s.slots[i] == c.streams && (i == 0 ==> c.streams >= 2)
    ensures var run := [Drain(0), Drain(1), Signal(0), Signal(1)];
            && Runs(c, s, run)
            && var slots := s.slots[0 := s.slots[0] - 1];
               Exec(c, s, run) ==
                 s.(pcs := s.pcs[0 := Idle][1 := Idle], slots := slots[i := slots[i] - 1], token := true)
  {
    i := s.pcs[1].index;
    HolderOccupies(c, s, 0);
    HolderOccupies(c, s, 1);
    if i == 0 {
      TwoOnOne(c, s);
    }
    var s1 := Apply(c, s, Drain(0));
    var s2 := Apply(c, s1, Drain(1));
    var s3 := Apply(c, s2, Signal(0));
    assert Apply(c, s3, Signal(1)).pcs == s.pcs[0 := Idle][1 := Idle];
    Four(c, s, [Drain(0), Drain(1), Signal(0), Signal(1)]);
  }

  /** Two releases, one token: the first parked worker takes a slot, the second stays. */
  lemma TwoReleases(c: Shape, s: State, m: nat) returns (run: seq<Action>)
    requires c.Valid() && Crowded(c, s, m) && Inv(c, s)
    ensures Runs(c, s, run) && Stranded(c, Exec(c, s, run))
  {
    var i := ReleaseRuns(c, s, m);
    var first := [Drain(0), Drain(1), Signal(0), Signal(1)];
    var t := Exec(c, s, first);
    WakeRuns(c, t, m);
    var second := [Wake(m), Lock(m), Probe(m), Publish(m)];
    run := first + second;
    RunsAppend(c, s, first, second);
    var u := Exec(c, t, second);
    assert u.pcs[m + 1].Parked?;
    assert u.slots[i] < c.streams;
  }

  lemma TwoOnOne(c: Shape, s: State)
    requires c.Valid() && Inv(c, s) && |s.pcs| >= 2 && s.pcs[0] == Holding(0) && s.pcs[1] == Holding(0)
    ensures c.streams >= 2
  {
    var rest := s.pcs[1..];
    CountPositive(rest, HolderOf(0), 0);
    assert Count(s.pcs, HolderOf(0)) == 1 + Count(rest, HolderOf(0));
  }

  // ---------------------------------------------------------------- exactly when

  /**
   A run can leave a worker parked beside a free slot with nobody about to wake it if and
   only if there are at least two slots and at least two more workers than slots.
   */
  lemma {:induction false} StrandedExactlyWhen(c: Shape)
    requires c.Valid()
    ensures (exists run :: Runs(c, Init(c), run) && Stranded(c, Exec(c, Init(c), run))) <==>
            c.Capacity() >= 2 && c.workers >= c.Capacity() + 2
  {
    InitInv(c);
    if c.Capacity() >= 2 && c.workers >= c.Capacity() + 2 {
      var r := CrowdRuns(c);
      var s := Exec(c, Init(c), r);
      InvRun(c, Init(c), r);
      var more := TwoReleases(c, s, c.Capacity());
      RunsAppend(c, Init(c), r, more);
      assert Stranded(c, Exec(c, Init(c), r + more));
    } else {
      forall run | Runs(c, Init(c), run) ensures !Stranded(c, Exec(c, Init(c), run)) {
        NotStranded(c, run);
      }
    }
  }

  lemma {:induction false} NotStranded(c: Shape, run: seq<Action>)
    requires c.Valid() && Runs(c, Init(c), run)
    requires c.Capacity() < 2 || c.workers < c.Capacity() + 2
    ensures !Stranded(c, Exec(c, Init(c), run))
  {
    InitInv(c);
    InvRun(c, Init(c), run);
    var s := Exec(c, Init(c), run);
    if c.Capacity() < 2 {
      MulMono(1, c.connections, c.streams);
      OneSlotNeverStrands(c, s);
    } else {
      SoleRun(c, Init(c), run);
      if Quiet(s) && SomeParked(s) {
        var w :| 0 <= w < |s.pcs| && s.pcs[w].Parked?;
        assert Waiter(s.pcs[w]);
        assert !Coming(s);
      }
    }
  }
}
