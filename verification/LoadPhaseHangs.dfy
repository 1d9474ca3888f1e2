/**
 How a load phase can hang, and what of the scheduler it can never meet.

 The main routine waits for every worker to call `Done`.  A worker whose first loop guard
 fails never does, and with more workers than slots some cannot; nothing releases a slot
 before the barrier opens.
 */
module LoadPhaseHangs {
  import opened Octets
  import opened Counting
  import opened SchedulerBounds
  import opened SchedulerWakeups
  import opened LoadPhase
  import S = Scheduler

  // ---------------------------------------------------------------- deserters

  lemma {:induction false} OpenNeedsAll(c: S.Shape, s: Phase, run: seq<Step>)
    requires c.Valid() && Runs(c, s, run) && (s.isOpen ==> s.pending == 0)
    ensures var t := Exec(c, s, run); t.isOpen ==> t.pending == 0
    decreases |run|
  {
    if run != [] {
      OpenNeedsAll(c, Do(c, s, run[0]), run[1..]);
    }
  }

  /** An open barrier means that every worker has called `Done`. */
  lemma OpenMeansJoined(c: S.Shape, run: seq<Step>)
    requires c.Valid() && Runs(c, Start(c), run) && Exec(c, Start(c), run).isOpen
    ensures var s := Exec(c, Start(c), run); |s.joined| == c.workers && forall w :: 0 <= w < c.workers ==> s.joined[w]
  {
    OpenNeedsAll(c, Start(c), run);
    StartInv(c);
    RunInv(c, Start(c), run);
    var s := Exec(c, Start(c), run);
    CountBound(s.joined, Joined());
    forall w | 0 <= w < c.workers ensures s.joined[w] {
      assert Joined()(s.joined[w]);
    }
  }

  /** Worker `w` has left without calling `Done`. */
  predicate Deserter(s: Phase, w: nat)
  {
    w < |s.sched.pcs| && w < |s.joined| && s.sched.pcs[w].Exited? && !s.joined[w]
  }

  ghost predicate SomeDeserter(s: Phase) { exists w :: Deserter(s, w) }

  lemma DeserterStep(c: S.Shape, s: Phase, x: Step, w: nat)
    requires c.Valid() && Can(c, s, x) && Deserter(s, w) && w < |s.stages| && s.stages[w].Outside?
    ensures Deserter(Do(c, s, x), w)
  {
  }

  lemma {:induction false} DeserterStays(c: S.Shape, s: Phase, run: seq<Step>, w: nat)
    requires c.Valid() && PhaseInv(c, s) && Runs(c, s, run) && Deserter(s, w)
    ensures Deserter(Exec(c, s, run), w)
    decreases |run|
  {
    if run != [] {
      assert LinkedAt(s.sched.pcs[w], s.stages[w]);
      DeserterStep(c, s, run[0], w);
      StepInv(c, s, run[0]);
      DeserterStays(c, Do(c, s, run[0]), run[1..], w);
    }
  }

  lemma {:induction false} Appended(c: S.Shape, s: Phase, a: seq<Step>, b: seq<Step>)
    requires c.Valid() && Runs(c, s, a) && Runs(c, Exec(c, s, a), b)
    ensures Runs(c, s, a + b) && Exec(c, s, a + b) == Exec(c, Exec(c, s, a), b)
    decreases |a|
  {
    if a == [] {
      assert a + b == b;
    } else {
      assert (a + b)[0] == a[0] && (a + b)[1..] == a[1..] + b;
      Appended(c, Do(c, s, a[0]), a[1..], b);
    }
  }

  lemma OneStep(c: S.Shape, s: Phase, x: Step)
    requires c.Valid() && Can(c, s, x)
    ensures Runs(c, s, [x]) && Exec(c, s, [x]) == Do(c, s, x)
  {
    assert [x][1..] == [];
  }

  /** A deserter keeps the barrier shut in every continuation. */
  lemma {:induction false} DeserterKeepsItShut(c: S.Shape, run: seq<Step>, more: seq<Step>, w: nat)
    requires c.Valid() && Runs(c, Start(c), run) && Deserter(Exec(c, Start(c), run), w)
    requires Runs(c, Exec(c, Start(c), run), more)
    ensures !Exec(c, Exec(c, Start(c), run), more).isOpen
  {
    StartInv(c);
    RunInv(c, Start(c), run);
    DeserterStays(c, Exec(c, Start(c), run), more, w);
    Appended(c, Start(c), run, more);
    if Exec(c, Start(c), run + more).isOpen {
      OpenMeansJoined(c, run + more);
    }
  }

  /**
   A phase in which nothing can move has its barrier shut if and only if there are more
   workers than slots or some worker left without calling `Done`; open, it has ended.
   */
  lemma {:induction false} HaltedShutExactlyWhen(c: S.Shape, run: seq<Step>)
    requires c.Valid() && Runs(c, Start(c), run) && Halted(c, Exec(c, Start(c), run))
    ensures var s := Exec(c, Start(c), run);
            && (!s.isOpen <==> c.workers > c.Capacity() || SomeDeserter(s))
            && (s.isOpen ==> forall w :: 0 <= w < |s.sched.pcs| ==> s.sched.pcs[w].Exited?)
  {
    var s := Exec(c, Start(c), run);
    if c.workers > c.Capacity() {
      BarrierNeedsCapacity(c, run);
    } else {
      PhaseEndsOrWaitsForDeserter(c, run);
      if s.isOpen {
        OpenMeansJoined(c, run);
      } else {
        var w :| 0 <= w < c.workers && s.sched.pcs[w].Exited? && !s.joined[w];
        assert Deserter(s, w);
      }
    }
  }

  // ---------------------------------------------------------------- runs of a phase

  function Lifted(run: seq<S.Action>): (r: seq<Step>)
    ensures |r| == |run| && forall k :: 0 <= k < |run| ==> r[k] == Sched(run[k])
  {
    seq(|run|, k requires 0 <= k < |run| => Sched(run[k]))
  }

  /** Workers have come no further than a slot, and nobody has begun. */
  predicate Early(c: S.Shape, s: Phase)
  {
    && !s.isOpen && s.pending == c.workers
    && |s.stages| == |s.joined| == |s.sched.pcs| == c.workers
    && forall w :: 0 <= w < c.workers ==> !s.joined[w] && (s.stages[w].Outside? || s.stages[w].Acquired?)
  }

  /** A scheduler run without a release is the beginning of a phase. */
  lemma {:induction false} LiftRuns(c: S.Shape, s: Phase, run: seq<S.Action>)
    requires c.Valid() && Early(c, s) && S.Runs(c, s.sched, run) && forall a :: a in run ==> !a.Drain?
    ensures Runs(c, s, Lifted(run))
    ensures var t := Exec(c, s, Lifted(run)); Early(c, t) && t.sched == S.Exec(c, s.sched, run)
    decreases |run|
  {
    if run != [] {
      assert run[0] in run && forall a :: a in run[1..] ==> a in run;
      assert Lifted(run)[0] == Sched(run[0]) && Lifted(run)[1..] == Lifted(run[1..]);
      LiftRuns(c, Do(c, s, Sched(run[0])), run[1..]);
    }
  }

  lemma PhaseOf(c: S.Shape, run: seq<S.Action>) returns (steps: seq<Step>)
    requires c.Valid() && S.Runs(c, S.Init(c), run) && forall a :: a in run ==> !a.Drain?
    ensures Runs(c, Start(c), steps)
    ensures var t := Exec(c, Start(c), steps);
            PhaseInv(c, t) && Early(c, t) && t.sched == S.Exec(c, S.Init(c), run)
  {
    steps := Lifted(run);
    LiftRuns(c, Start(c), run);
    StartInv(c);
    RunInv(c, Start(c), steps);
  }

  /** Of the first `n` workers, on connections, `k` are at the barrier; the others are elsewhere. */
  ghost predicate Gathered(c: S.Shape, s: Phase, k: nat, n: nat)
  {
    && PhaseInv(c, s) && !s.isOpen && k <= n <= c.workers && s.pending == c.workers - k
    && (forall w :: 0 <= w < k ==> s.stages[w].Waiting? && s.joined[w])
    && (forall w :: k <= w < n ==> s.stages[w].Acquired? && !s.joined[w])
    && (forall w :: n <= w < c.workers ==> s.stages[w].Outside? && !s.joined[w])
  }

  /** Worker `k` begins its first operation and calls `Done`. */
  lemma GatherOne(c: S.Shape, s: Phase, k: nat, n: nat)
    requires c.Valid() && Gathered(c, s, k, n) && k < n
    ensures Can(c, s, Begin(k)) && Can(c, Do(c, s, Begin(k)), Arrive(k))
    ensures var u := Do(c, Do(c, s, Begin(k)), Arrive(k)); Gathered(c, u, k + 1, n) && u.sched == s.sched
  {
    assert LinkedAt(s.sched.pcs[k], s.stages[k]) && S.InRange(c, s.sched.pcs[k]);
    var t := Do(c, s, Begin(k));
    StepInv(c, s, Begin(k));
    assert t.stages[k].Begun?;
    StepInv(c, t, Arrive(k));
  }

  lemma TwoSteps(c: S.Shape, s: Phase, x: Step, y: Step)
    requires c.Valid() && Can(c, s, x) && Can(c, Do(c, s, x), y)
    ensures Runs(c, s, [x, y]) && Exec(c, s, [x, y]) == Do(c, Do(c, s, x), y)
  {
    OneStep(c, Do(c, s, x), y);
    assert [x, y][1..] == [y];
  }

  lemma {:induction false} GatherRuns(c: S.Shape, s: Phase, k: nat, n: nat) returns (run: seq<Step>)
    requires c.Valid() && Gathered(c, s, 0, n) && k <= n
    ensures Runs(c, s, run) && Gathered(c, Exec(c, s, run), k, n) && Exec(c, s, run).sched == s.sched
    decreases k
  {
    if k == 0 {
      run := [];
    } else {
      var r := GatherRuns(c, s, k - 1, n);
      var t := Exec(c, s, r);
      GatherOne(c, t, k - 1, n);
      TwoSteps(c, t, Begin(k - 1), Arrive(k - 1));
      Appended(c, s, r, [Begin(k - 1), Arrive(k - 1)]);
      run := r + [Begin(k - 1), Arrive(k - 1)];
    }
  }

  /** The first `n` workers take slots and go to the barrier; the others do what `rest` says. */
  lemma GatheringRuns(c: S.Shape, n: nat, run: seq<S.Action>) returns (steps: seq<Step>)
    requires c.Valid() && n <= c.workers && S.Runs(c, S.Init(c), run) && forall a :: a in run ==> !a.Drain?
    requires var s := S.Exec(c, S.Init(c), run);
             |s.pcs| == c.workers && forall w :: 0 <= w < c.workers ==> (s.pcs[w].Holding? <==> w < n)
    ensures Runs(c, Start(c), steps)
    ensures var t := Exec(c, Start(c), steps);
            Gathered(c, t, n, n) && t.sched == S.Exec(c, S.Init(c), run)
  {
    var first := PhaseOf(c, run);
    var s := Exec(c, Start(c), first);
    forall w | 0 <= w < c.workers ensures s.stages[w].Acquired? <==> w < n {
      assert LinkedAt(s.sched.pcs[w], s.stages[w]);
    }
    assert Gathered(c, s, 0, n);
    var last := GatherRuns(c, s, n, n);
    Appended(c, Start(c), first, last);
    steps := first + last;
  }

  // ---------------------------------------------------------------- when the barrier opens

  ghost predicate Opens(c: S.Shape, run: seq<Step>)
    requires c.Valid()
  {
    Runs(c, Start(c), run) && Exec(c, Start(c), run).isOpen
  }

  lemma OpeningRuns(c: S.Shape) returns (run: seq<Step>)
    requires c.Valid() && c.workers <= c.Capacity()
    ensures Opens(c, run)
  {
    var fill, p := FillRuns(c, c.workers);
    var first := GatheringRuns(c, c.workers, fill);
    var s := Exec(c, Start(c), first);
    OneStep(c, s, Open);
    Appended(c, Start(c), first, [Open]);
    run := first + [Open];
  }

  /** The barrier opens in some run if and only if there are no more workers than slots. */
  lemma {:induction false} BarrierOpensExactlyWhen(c: S.Shape)
    requires c.Valid()
    ensures (exists run :: Opens(c, run)) <==> c.workers <= c.Capacity()
  {
    if c.workers <= c.Capacity() {
      var run := OpeningRuns(c);
    }
    forall run | Opens(c, run) ensures c.workers <= c.Capacity() {
      OpenedPhaseIsExact(c, run);
    }
  }

  // ---------------------------------------------------------------- runs that hang

  /** Nothing can move, and the barrier is shut. */
  ghost predicate Hangs(c: S.Shape, run: seq<Step>)
    requires c.Valid()
  {
    Runs(c, Start(c), run) && Halted(c, Exec(c, Start(c), run)) && !Exec(c, Start(c), run).isOpen
  }

  lemma {:induction false} QuitRuns(c: S.Shape, k: nat) returns (run: seq<S.Action>)
    requires c.Valid() && k <= c.workers
    ensures S.Runs(c, S.Init(c), run) && forall a :: a in run ==> !a.Drain?
    ensures var s := S.Exec(c, S.Init(c), run);
            && |s.pcs| == c.workers
            && forall w :: 0 <= w < c.workers ==> s.pcs[w] == if w < k then S.Exited else S.Idle
  {
    if k == 0 {
      run := [];
    } else {
      var r := QuitRuns(c, k - 1);
      var s := S.Exec(c, S.Init(c), r);
      S.OneAction(c, s, S.Quit(k - 1));
      S.RunsAppend(c, S.Init(c), r, [S.Quit(k - 1)]);
      run := r + [S.Quit(k - 1)];
    }
  }

  /** Every worker finds the deadline passed at its first turn. */
  lemma AllQuitHangs(c: S.Shape) returns (run: seq<Step>)
    requires c.Valid() && c.workers >= 1
    ensures Hangs(c, run)
  {
    var quits := QuitRuns(c, c.workers);
    run := GatheringRuns(c, 0, quits);
    var s := Exec(c, Start(c), run);
    forall x | Can(c, s, x) ensures x == Sched(S.Cancel) {
    }
  }

  /** A phase can hang if and only if it has a worker. */
  lemma {:induction false} HangsExactlyWhen(c: S.Shape)
    requires c.Valid()
    ensures (exists run :: Hangs(c, run)) <==> c.workers >= 1
  {
    if c.workers >= 1 {
      var run := AllQuitHangs(c);
    }
    forall run | Hangs(c, run) ensures c.workers >= 1 {
      StartInv(c);
      RunInv(c, Start(c), run);
      assert Can(c, Exec(c, Start(c), run), Open) || c.workers >= 1;
    }
  }

  /** The first `m` workers on connections, those up to `k` parked, the others idle. */
  predicate Packed(c: S.Shape, s: S.State, m: nat, k: nat)
    requires c.Valid()
  {
    && S.Shaped(c, s) && Full(c, s) && s.mutex == None && !s.token && !s.cancelled
    && m <= k <= c.workers
    && forall w :: 0 <= w < c.workers ==>
         if w < m then s.pcs[w].Holding? else if w < k then s.pcs[w].Parked? else s.pcs[w].Idle?
  }

  lemma {:induction false} PackRuns(c: S.Shape, k: nat) returns (run: seq<S.Action>)
    requires c.Valid() && c.Capacity() <= k <= c.workers
    ensures S.Runs(c, S.Init(c), run) && forall a :: a in run ==> !a.Drain?
    ensures Packed(c, S.Exec(c, S.Init(c), run), c.Capacity(), k)
    decreases k
  {
    var m := c.Capacity();
    if k == m {
      var r, p := FillRuns(c, m);
      DivModUnique(m, c.connections, p.rounds, p.due);
      DivModUnique(m, c.connections, c.streams, 0);
      run := r;
    } else {
      var r := PackRuns(c, k - 1);
      var s := S.Exec(c, S.Init(c), r);
      MissRuns(c, s, k - 1);
      S.RunsAppend(c, S.Init(c), r, MissRun(c, k - 1));
      run := r + MissRun(c, k - 1);
    }
  }

  /** All workers arrive; those without a slot park, and nobody will ever release one. */
  lemma CrowdHangs(c: S.Shape) returns (run: seq<Step>)
    requires c.Valid() && c.workers > c.Capacity()
    ensures Hangs(c, run) && !SomeDeserter(Exec(c, Start(c), run))
  {
    var m := c.Capacity();
    var pack := PackRuns(c, c.workers);
    run := GatheringRuns(c, m, pack);
    var s := Exec(c, Start(c), run);
    forall x | Can(c, s, x) ensures x == Sched(S.Cancel) {
    }
  }

  /** A phase can hang with no deserter if and only if there are more workers than slots. */
  lemma {:induction false} CrowdHangsExactlyWhen(c: S.Shape)
    requires c.Valid()
    ensures (exists run :: Hangs(c, run) && !SomeDeserter(Exec(c, Start(c), run))) <==> c.workers > c.Capacity()
  {
    if c.workers > c.Capacity() {
      var run := CrowdHangs(c);
      assert Hangs(c, run) && !SomeDeserter(Exec(c, Start(c), run));
    }
    forall run | Hangs(c, run) && !SomeDeserter(Exec(c, Start(c), run)) ensures c.workers > c.Capacity() {
      HaltedShutExactlyWhen(c, run);
    }
  }

  // ---------------------------------------------------------------- no wake-up ever

  /** The first `n` channels of the scan are full. */
  predicate SeenFull(c: S.Shape, s: S.State, n: nat)
    requires c.Valid() && |s.slots| == c.connections
  {
    forall o :: 0 <= o < n ==> s.slots[S.At(c, s, o)] == c.streams
  }

  /** Nothing has been released: what a scan has seen full is full. */
  predicate Tight(c: S.Shape, s: S.State)
    requires c.Valid() && |s.slots| == c.connections
  {
    !s.token && forall w :: 0 <= w < |s.pcs| ==> TightAt(c, s, s.pcs[w])
  }

  predicate TightAt(c: S.Shape, s: S.State, p: S.Pc)
    requires c.Valid() && |s.slots| == c.connections
  {
    && !p.Drained?
    && (p.Missed? || p.Parked? ==> Full(c, s))
    && (p.Scanning? ==> SeenFull(c, s, p.offset))
  }

  lemma SeenAll(c: S.Shape, s: S.State)
    requires c.Valid() && S.Shaped(c, s) && SeenFull(c, s, c.connections)
    ensures Full(c, s)
  {
    forall i | 0 <= i < |s.slots| ensures s.slots[i] == c.streams {
      var o := Probed(c, s, i);
    }
  }

  /** A scan finds a channel full. */
  lemma TightMiss(c: S.Shape, s: S.State, w: nat)
    requires c.Valid() && S.Inv(c, s) && Tight(c, s) && S.Enabled(c, s, S.Probe(w))
    requires s.slots[S.At(c, s, s.pcs[w].offset)] == c.streams
    ensures Tight(c, S.Apply(c, s, S.Probe(w)))
  {
    var t, o := S.Apply(c, s, S.Probe(w)), s.pcs[w].offset;
    assert TightAt(c, s, s.pcs[w]) && SeenFull(c, s, o + 1);
    if o + 1 == c.connections {
      SeenAll(c, s);
    }
    forall v | 0 <= v < |t.pcs| ensures TightAt(c, t, t.pcs[v]) {
      assert TightAt(c, s, s.pcs[v]);
      TightSame(c, s, t, t.pcs[v]);
    }
  }

  lemma TightSame(c: S.Shape, s: S.State, t: S.State, p: S.Pc)
    requires c.Valid() && |s.slots| == c.connections && t.slots == s.slots && t.next == s.next
    ensures TightAt(c, s, p) <==> TightAt(c, t, p)
  {
    assert forall o: nat :: S.At(c, s, o) == S.At(c, t, o);
  }

  /** A scan finds room: then nobody has missed, and nobody else scans. */
  lemma TightHit(c: S.Shape, s: S.State, w: nat)
    requires c.Valid() && S.Inv(c, s) && Tight(c, s) && S.Enabled(c, s, S.Probe(w))
    requires s.slots[S.At(c, s, s.pcs[w].offset)] < c.streams
    ensures Tight(c, S.Apply(c, s, S.Probe(w)))
  {
    var t := S.Apply(c, s, S.Probe(w));
    assert S.InMutex(s.pcs[w]);
    forall v | 0 <= v < |t.pcs| ensures TightAt(c, t, t.pcs[v]) {
      assert TightAt(c, s, s.pcs[v]);
      assert v != w ==> !S.InMutex(s.pcs[v]);
    }
  }

  /** An action that leaves the channels as they are. */
  lemma TightElse(c: S.Shape, s: S.State, a: S.Action)
    requires c.Valid() && S.Inv(c, s) && Tight(c, s) && S.Enabled(c, s, a) && !a.Drain? && !a.Probe?
    ensures |S.Apply(c, s, a).slots| == c.connections && Tight(c, S.Apply(c, s, a))
  {
    var t := S.Apply(c, s, a);
    assert !a.Cancel? ==> TightAt(c, s, s.pcs[a.w]);
    assert a.Publish? ==> S.InMutex(s.pcs[a.w]);
    forall v | 0 <= v < |t.pcs| ensures TightAt(c, t, t.pcs[v]) {
      assert TightAt(c, s, s.pcs[v]);
      if !a.Publish? {
        TightSame(c, s, t, t.pcs[v]);
      } else {
        assert !t.pcs[v].Scanning?;
      }
    }
  }

  lemma TightStep(c: S.Shape, s: S.State, a: S.Action)
    requires c.Valid() && S.Inv(c, s) && Tight(c, s) && S.Enabled(c, s, a) && !a.Drain?
    ensures |S.Apply(c, s, a).slots| == c.connections && Tight(c, S.Apply(c, s, a))
  {
    if !a.Probe? {
      TightElse(c, s, a);
    } else if s.slots[S.At(c, s, s.pcs[a.w].offset)] < c.streams {
      TightHit(c, s, a.w);
    } else {
      TightMiss(c, s, a.w);
    }
  }

  /** While the barrier is shut no worker has finished an operation, so none releases. */
  lemma ShutNoDrain(c: S.Shape, s: Phase, a: S.Action)
    requires c.Valid() && PhaseInv(c, s) && !s.isOpen && Can(c, s, Sched(a))
    ensures !a.Drain?
  {
    forall w | 0 <= w < |s.stages| ensures !s.stages[w].Finished? {
      assert BarrierAt(s.stages[w], s.joined[w], s.isOpen);
    }
  }

  lemma {:induction false} ShutIsTight(c: S.Shape, s: Phase, run: seq<Step>)
    requires c.Valid() && PhaseInv(c, s) && (!s.isOpen ==> Tight(c, s.sched)) && Runs(c, s, run)
    ensures var t := Exec(c, s, run); PhaseInv(c, t) && (!t.isOpen ==> Tight(c, t.sched))
    decreases |run|
  {
    if run != [] {
      StepInv(c, s, run[0]);
      if !s.isOpen && run[0].Sched? {
        ShutNoDrain(c, s, run[0].a);
        TightStep(c, s.sched, run[0].a);
      }
      ShutIsTight(c, Do(c, s, run[0]), run[1..]);
    }
  }

  lemma PhaseTight(c: S.Shape, run: seq<Step>)
    requires c.Valid() && Runs(c, Start(c), run)
    ensures var s := Exec(c, Start(c), run);
            && PhaseInv(c, s)
            && (!s.isOpen ==> Tight(c, s.sched))
            && (s.isOpen ==> forall w :: 0 <= w < |s.sched.pcs| ==> !s.sched.pcs[w].Parked?)
            && (!s.isOpen ==> forall w :: 0 <= w < |s.sched.pcs| && s.sched.pcs[w].Parked? ==> Full(c, s.sched))
  {
    StartInv(c);
    ShutIsTight(c, Start(c), run);
    var s := Exec(c, Start(c), run);
    if s.isOpen {
      PhaseRefinesScheduler(c, Start(c), run);
      FirstScanSucceeds(c, Project(run));
    } else {
      assert forall w :: 0 <= w < |s.sched.pcs| ==> TightAt(c, s.sched, s.sched.pcs[w]);
    }
  }

  /** In no run of a phase does a worker ever receive a wake-up token. */
  lemma {:induction false} NobodyEverWoken(c: S.Shape, run: seq<Step>, w: nat)
    requires c.Valid() && Runs(c, Start(c), run)
    ensures !Can(c, Exec(c, Start(c), run), Sched(S.Wake(w)))
  {
    PhaseTight(c, run);
  }

  /** In no run of a phase is a worker parked beside a free slot. */
  lemma {:induction false} NoPhaseStrands(c: S.Shape, run: seq<Step>)
    requires c.Valid() && Runs(c, Start(c), run)
    ensures !Stranded(c, Exec(c, Start(c), run).sched)
  {
    PhaseTight(c, run);
  }

  // ---------------------------------------------------------------- bounded before the barrier

  /** How many steps a worker can still take before the barrier opens. */
  function Left(c: S.Shape, p: S.Pc, g: Stage): nat
  {
    match p
    case Idle => c.connections + 6
    case Locking => c.connections + 5
    case Scanning(o) => if o < c.connections then c.connections - o + 4 else 4
    case Took(_) => 3
    case Missed => 2
    case Parked => 1
    case Holding(_) => if g.Acquired? then 2 else if g.Begun? then 1 else 0
    case Drained => 0
    case Exited => 0
  }

  function AllLeft(c: S.Shape, s: Phase): (r: seq<nat>)
    requires |s.stages| == |s.sched.pcs|
    ensures |r| == |s.stages|
  {
    seq(|s.stages|, w requires 0 <= w < |s.stages| => Left(c, s.sched.pcs[w], s.stages[w]))
  }

  /** The steps all workers and a cancellation can still take. */
  function Remaining(c: S.Shape, s: Phase): nat
    requires |s.stages| == |s.sched.pcs|
  {
    Sum(AllLeft(c, s)) + if s.sched.cancelled then 0 else 1
  }

  /** A step of worker `w` that leaves the others where they are. */
  lemma {:induction false} LeftDrops(c: S.Shape, s: Phase, t: Phase, w: nat)
    requires |s.stages| == |s.sched.pcs| == |t.stages| == |t.sched.pcs| && w < |s.stages|
    requires t.sched.cancelled == s.sched.cancelled
    requires forall v :: 0 <= v < |s.stages| && v != w ==>
               t.sched.pcs[v] == s.sched.pcs[v] && t.stages[v] == s.stages[v]
    requires Left(c, t.sched.pcs[w], t.stages[w]) < Left(c, s.sched.pcs[w], s.stages[w])
    ensures Remaining(c, t) < Remaining(c, s)
  {
    var r := AllLeft(c, s);
    assert AllLeft(c, t) == r[w := Left(c, t.sched.pcs[w], t.stages[w])];
    SumUpdate(r, w, Left(c, t.sched.pcs[w], t.stages[w]));
  }

  /** An action that neither releases nor wakes brings its worker nearer to the barrier or the end. */
  lemma {:induction false} ActionDrops(c: S.Shape, s: S.State, a: S.Action, g: Stage, h: Stage)
    requires c.Valid() && S.Enabled(c, s, a) && !a.Cancel? && !a.Drain? && !a.Wake? && !a.Signal?
    requires S.InRange(c, s.pcs[a.w]) && (a.Publish? ==> h.Acquired?)
    ensures Left(c, S.Apply(c, s, a).pcs[a.w], h) < Left(c, s.pcs[a.w], g)
  {
  }

  /** While the barrier is shut, every step but the opening brings the phase nearer to its end. */
  lemma {:induction false} SchedDrops(c: S.Shape, s: Phase, a: S.Action)
    requires c.Valid() && PhaseInv(c, s) && !s.isOpen && Tight(c, s.sched) && Can(c, s, Sched(a))
    ensures PhaseInv(c, Do(c, s, Sched(a))) && Remaining(c, Do(c, s, Sched(a))) < Remaining(c, s)
  {
    ShutNoDrain(c, s, a);
    StepInv(c, s, Sched(a));
    var t := Do(c, s, Sched(a));
    if a.Cancel? {
      assert AllLeft(c, t) == AllLeft(c, s);
    } else {
      assert TightAt(c, s.sched, s.sched.pcs[a.w]) && S.InRange(c, s.sched.pcs[a.w]);
      ActionDrops(c, s.sched, a, s.stages[a.w], t.stages[a.w]);
      LeftDrops(c, s, t, a.w);
    }
  }

  lemma {:induction false} WorkerDrops(c: S.Shape, s: Phase, x: Step)
    requires c.Valid() && PhaseInv(c, s) && !s.isOpen && Can(c, s, x) && !x.Sched? && !x.Open?
    ensures PhaseInv(c, Do(c, s, x)) && Remaining(c, Do(c, s, x)) < Remaining(c, s)
  {
    StepInv(c, s, x);
    assert LinkedAt(s.sched.pcs[x.w], s.stages[x.w]);
    assert BarrierAt(s.stages[x.w], s.joined[x.w], s.isOpen);
    LeftDrops(c, s, Do(c, s, x), x.w);
  }

  lemma {:induction false} ShutStepDrops(c: S.Shape, s: Phase, x: Step)
    requires c.Valid() && PhaseInv(c, s) && !s.isOpen && Tight(c, s.sched) && Can(c, s, x) && !x.Open?
    ensures PhaseInv(c, Do(c, s, x)) && Remaining(c, Do(c, s, x)) < Remaining(c, s)
    ensures !Do(c, s, x).isOpen && Tight(c, Do(c, s, x).sched)
  {
    if x.Sched? {
      SchedDrops(c, s, x.a);
      ShutNoDrain(c, s, x.a);
      TightStep(c, s.sched, x.a);
    } else {
      WorkerDrops(c, s, x);
    }
  }

  lemma {:induction false} OpenStays(c: S.Shape, s: Phase, run: seq<Step>)
    requires c.Valid() && Runs(c, s, run) && s.isOpen
    ensures Exec(c, s, run).isOpen
    decreases |run|
  {
    if run != [] {
      OpenStays(c, Do(c, s, run[0]), run[1..]);
    }
  }

  lemma {:induction false} ShutRunIsShort(c: S.Shape, s: Phase, run: seq<Step>)
    requires c.Valid() && PhaseInv(c, s) && !s.isOpen && Tight(c, s.sched)
    requires Runs(c, s, run) && !Exec(c, s, run).isOpen
    ensures |run| <= Remaining(c, s)
    decreases |run|
  {
    if run != [] {
      var t := Do(c, s, run[0]);
      if run[0].Open? {
        OpenStays(c, t, run[1..]);
      } else {
        ShutStepDrops(c, s, run[0]);
        ShutRunIsShort(c, t, run[1..]);
      }
    }
  }

  /** The steps a phase can take with its barrier shut. */
  function MostSteps(c: S.Shape): nat { c.workers * (c.connections + 6) + 1 }

  /** A phase whose barrier is still shut has taken no more steps than that. */
  lemma {:induction false} ShutPhaseIsBounded(c: S.Shape, run: seq<Step>)
    requires c.Valid() && Runs(c, Start(c), run) && !Exec(c, Start(c), run).isOpen
    ensures |run| <= MostSteps(c)
  {
    var s := Start(c);
    StartInv(c);
    ShutRunIsShort(c, s, run);
    SumBound(AllLeft(c, s), c.connections + 6);
  }

  /** The run has gone as far as it can, or further than a shut barrier allows. */
  ghost predicate Exhausted(c: S.Shape, run: seq<Step>)
    requires c.Valid() && Runs(c, Start(c), run)
  {
    Halted(c, Exec(c, Start(c), run)) || |run| > MostSteps(c)
  }

  /**
   Whatever the interleaving, after boundedly many steps or at its end a phase has its barrier
   open if and only if there are no more workers than slots and nobody left without `Done`.
   */
  lemma {:induction false} OpensInBoundedSteps(c: S.Shape, run: seq<Step>)
    requires c.Valid() && Runs(c, Start(c), run) && Exhausted(c, run)
    ensures var s := Exec(c, Start(c), run);
            s.isOpen <==> c.workers <= c.Capacity() && !SomeDeserter(s)
  {
    var s := Exec(c, Start(c), run);
    if !s.isOpen {
      ShutPhaseIsBounded(c, run);
      HaltedShutExactlyWhen(c, run);
    } else {
      OpenedPhaseIsExact(c, run);
      OpenMeansJoined(c, run);
      StartInv(c);
      RunInv(c, Start(c), run);
    }
  }
}
