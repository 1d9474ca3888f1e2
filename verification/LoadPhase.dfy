/**
 One load phase: workers that acquire, begin, meet at the start barrier, operate, finish
 and release, interleaved with the main routine that opens the barrier.

 The deadline is a choice: an idle worker may start another operation or leave.
 */
module LoadPhase {
  import opened Octets
  import opened Counting
  import opened Scheduler
  import opened SchedulerBounds
  import R = Recorder

  /** A worker between the return of acquire and the slot drain of release. */
  datatype Stage =
    | Outside
    | Acquired(index: nat)    // before recorder.begin
    | Begun(index: nat)       // first operation, before Done
    | Waiting(index: nat)     // at the barrier
    | Operating(index: nat)
    | Finished(index: nat)    // before release

  datatype Phase = Phase(
    sched: State,
    stages: seq<Stage>,
    joined: seq<bool>,        // called Done on the start barrier
    pending: nat,             // the barrier's counter
    isOpen: bool,             // the barrier's channel is closed
    record: R.Record)

  datatype Step =
    | Sched(a: Action)
    | Begin(w: nat)
    | Arrive(w: nat)
    | Proceed(w: nat)
    | Finish(w: nat, check: R.Check)
    | Open

  function Start(c: Shape): Phase
  {
    Phase(Scheduler.Init(c), seq(c.workers, _ => Outside), seq(c.workers, _ => false),
          c.workers, false, R.Fresh(c.connections))
  }

  predicate Can(c: Shape, s: Phase, x: Step)
    requires c.Valid()
  {
    match x
    case Sched(a) =>
      && Enabled(c, s.sched, a)
      && (a.Drain? || a.Publish? ==> a.w < |s.stages|)
      && (a.Drain? ==> s.stages[a.w].Finished?)
    case Begin(w) =>
      && w < |s.stages| == |s.joined| && s.stages[w].Acquired?
      && s.stages[w].index < |s.record.activeByDial| == |s.record.maxByDial|
    case Arrive(w) => w < |s.stages| == |s.joined| && s.stages[w].Begun? && s.pending > 0
    case Proceed(w) => w < |s.stages| && s.stages[w].Waiting? && s.isOpen
    case Finish(w, _) =>
      w < |s.stages| && s.stages[w].Operating? && s.stages[w].index < |s.record.activeByDial|
    case Open => s.pending == 0 && !s.isOpen
  }

  function Do(c: Shape, s: Phase, x: Step): Phase
    requires c.Valid() && Can(c, s, x)
  {
    match x
    case Sched(a) =>
      s.(sched := Apply(c, s.sched, a),
         stages := if a.Publish? then s.stages[a.w := Acquired(s.sched.pcs[a.w].index)]
                   else if a.Drain? then s.stages[a.w := Outside]
                   else s.stages)
    case Begin(w) =>
      var i := s.stages[w].index;
      s.(record := s.record.Begin(i),
         stages := s.stages[w := if s.joined[w] then Operating(i) else Begun(i)])
    case Arrive(w) =>
      s.(pending := s.pending - 1, joined := s.joined[w := true],
         stages := s.stages[w := Waiting(s.stages[w].index)])
    case Proceed(w) => s.(stages := s.stages[w := Operating(s.stages[w].index)])
    case Finish(w, check) =>
      var i := s.stages[w].index;
      s.(record := s.record.Finish(i, check), stages := s.stages[w := Finished(i)])
    case Open => s.(isOpen := true)
  }

  predicate Runs(c: Shape, s: Phase, run: seq<Step>)
    requires c.Valid()
    decreases |run|
  {
    run != [] ==> Can(c, s, run[0]) && Runs(c, Do(c, s, run[0]), run[1..])
  }

  function Exec(c: Shape, s: Phase, run: seq<Step>): Phase
    requires c.Valid() && Runs(c, s, run)
    decreases |run|
  {
    if run == [] then s else Exec(c, Do(c, s, run[0]), run[1..])
  }

  // ---------------------------------------------------------------- refinement

  /** The scheduler's part of a phase run. */
  function Project(run: seq<Step>): seq<Action>
  {
    if run == [] then []
    else (if run[0].Sched? then [run[0].a] else []) + Project(run[1..])
  }

  /** A phase run is, on the scheduler, a scheduler run. */
  lemma {:induction false} PhaseRefinesScheduler(c: Shape, s: Phase, run: seq<Step>)
    requires c.Valid() && Runs(c, s, run)
    ensures Scheduler.Runs(c, s.sched, Project(run))
    ensures Scheduler.Exec(c, s.sched, Project(run)) == Exec(c, s, run).sched
    decreases |run|
  {
    if run != [] {
      PhaseRefinesScheduler(c, Do(c, s, run[0]), run[1..]);
      if run[0].Sched? {
        assert Project(run)[0] == run[0].a && Project(run)[1..] == Project(run[1..]);
      } else {
        assert Project(run) == Project(run[1..]);
      }
    }
  }

  // ---------------------------------------------------------------- what every step keeps

  function Active(): Stage -> bool { (g: Stage) => g.Begun? || g.Waiting? || g.Operating? }

  function ActiveOn(i: nat): Stage -> bool { (g: Stage) => (g.Begun? || g.Waiting? || g.Operating?) && g.index == i }

  function Joined(): bool -> bool { (b: bool) => b }

  predicate LinkedAt(p: Pc, g: Stage) { if p.Holding? then !g.Outside? && g.index == p.index else g.Outside? }

  /** A worker has a stage exactly while it is on a connection. */
  predicate Linked(c: Shape, s: Phase)
  {
    && |s.stages| == |s.joined| == |s.sched.pcs| == c.workers
    && forall w :: 0 <= w < |s.stages| ==> LinkedAt(s.sched.pcs[w], s.stages[w])
  }

  predicate BarrierAt(g: Stage, joined: bool, isOpen: bool)
  {
    && (joined && !isOpen ==> g.Waiting?)
    && (joined ==> !g.Begun?)
    && (!joined ==> g.Outside? || g.Acquired? || g.Begun?)
  }

  ghost predicate Barrier(c: Shape, s: Phase)
    requires |s.stages| == |s.joined|
  {
    && s.pending + Count(s.joined, Joined()) == c.workers
    && forall w :: 0 <= w < |s.stages| ==> BarrierAt(s.stages[w], s.joined[w], s.isOpen)
  }

  /** The counters are the numbers of workers between begin and finish. */
  ghost predicate Recorded(c: Shape, s: Phase)
  {
    && |s.record.activeByDial| == |s.record.maxByDial| == c.connections
    && s.record.active == Count(s.stages, Active())
    && (forall i :: 0 <= i < c.connections ==> s.record.activeByDial[i] == Count(s.stages, ActiveOn(i)))
  }

  predicate Bounded(c: Shape, s: Phase)
    requires |s.record.activeByDial| == |s.record.maxByDial| == c.connections
  {
    && s.record.active <= s.record.maxActive <= c.workers
    && (forall i :: 0 <= i < c.connections ==> s.record.activeByDial[i] <= s.record.maxByDial[i] <= c.streams)
  }

  predicate Reached(c: Shape, s: Phase)
    requires |s.record.maxByDial| == c.connections
  {
    s.isOpen ==>
      && s.record.maxActive == c.workers <= c.Capacity()
      && (c.workers == c.Capacity() ==>
            forall i :: 0 <= i < c.connections ==> s.record.maxByDial[i] == c.streams)
  }

  ghost predicate PhaseInv(c: Shape, s: Phase)
  {
    && Inv(c, s.sched) && Linked(c, s) && Barrier(c, s)
    && Recorded(c, s) && Bounded(c, s) && Reached(c, s)
  }

  lemma StartInv(c: Shape)
    requires c.Valid()
    ensures PhaseInv(c, Start(c))
  {
    var s := Start(c);
    InitInv(c);
    CountNone(s.joined, Joined());
    CountNone(s.stages, Active());
    forall i | 0 <= i < c.connections ensures Count(s.stages, ActiveOn(i)) == 0 {
      CountNone(s.stages, ActiveOn(i));
    }
  }

  lemma StageCounts(stages: seq<Stage>, w: nat, g: Stage, n: nat)
    requires w < |stages|
    ensures Count(stages[w := g], Active()) ==
            Count(stages, Active()) - (if Active()(stages[w]) then 1 else 0) + (if Active()(g) then 1 else 0)
    ensures forall i :: 0 <= i < n ==>
              Count(stages[w := g], ActiveOn(i)) ==
              Count(stages, ActiveOn(i)) - (if ActiveOn(i)(stages[w]) then 1 else 0) + (if ActiveOn(i)(g) then 1 else 0)
  {
    CountUpdate(stages, Active(), w, g);
    forall i | 0 <= i < n
      ensures Count(stages[w := g], ActiveOn(i)) ==
              Count(stages, ActiveOn(i)) - (if ActiveOn(i)(stages[w]) then 1 else 0) + (if ActiveOn(i)(g) then 1 else 0)
    {
      CountUpdate(stages, ActiveOn(i), w, g);
    }
  }

  /** Operations on a connection never exceed its occupied slots. */
  lemma ActiveWithinSlots(c: Shape, s: Phase)
    requires Inv(c, s.sched) && Linked(c, s)
    ensures Count(s.stages, Active()) <= c.workers
    ensures forall i :: 0 <= i < c.connections ==>
              Count(s.stages, ActiveOn(i)) <= s.sched.slots[i] <= c.streams
  {
    CountBound(s.stages, Active());
    forall i | 0 <= i < c.connections
      ensures Count(s.stages, ActiveOn(i)) <= s.sched.slots[i] <= c.streams
    {
      CountLe(s.stages, ActiveOn(i), s.sched.pcs, HolderOf(i));
    }
  }

  lemma StepSched(c: Shape, s: Phase, a: Action)
    requires c.Valid() && PhaseInv(c, s) && Can(c, s, Sched(a))
    ensures PhaseInv(c, Do(c, s, Sched(a)))
  {
    var t := Do(c, s, Sched(a));
    InvStep(c, s.sched, a);
    if a.Publish? {
      StageCounts(s.stages, a.w, Acquired(s.sched.pcs[a.w].index), c.connections);
    } else if a.Drain? {
      StageCounts(s.stages, a.w, Outside, c.connections);
    }
    forall w | 0 <= w < |t.stages|
      ensures LinkedAt(t.sched.pcs[w], t.stages[w]) && BarrierAt(t.stages[w], t.joined[w], t.isOpen)
    {
      assert LinkedAt(s.sched.pcs[w], s.stages[w]) && BarrierAt(s.stages[w], s.joined[w], s.isOpen);
      if a.Cancel? || w != a.w {
        assert t.sched.pcs[w] == s.sched.pcs[w] && t.stages[w] == s.stages[w];
      }
    }
  }

  lemma StepBegin(c: Shape, s: Phase, w: nat)
    requires c.Valid() && PhaseInv(c, s) && Can(c, s, Begin(w))
    ensures PhaseInv(c, Do(c, s, Begin(w)))
  {
    var t := Do(c, s, Begin(w));
    StageCounts(s.stages, w, t.stages[w], c.connections);
    assert Linked(c, t);
    ActiveWithinSlots(c, t);
    assert BarrierAt(s.stages[w], s.joined[w], s.isOpen);
    assert Recorded(c, t);
  }

  lemma StepArrive(c: Shape, s: Phase, w: nat)
    requires c.Valid() && PhaseInv(c, s) && Can(c, s, Arrive(w))
    ensures PhaseInv(c, Do(c, s, Arrive(w)))
  {
    var t := Do(c, s, Arrive(w));
    StageCounts(s.stages, w, t.stages[w], c.connections);
    assert BarrierAt(s.stages[w], s.joined[w], s.isOpen);
    CountUpdate(s.joined, Joined(), w, true);
  }

  lemma StepProceed(c: Shape, s: Phase, w: nat)
    requires c.Valid() && PhaseInv(c, s) && Can(c, s, Proceed(w))
    ensures PhaseInv(c, Do(c, s, Proceed(w)))
  {
    var t := Do(c, s, Proceed(w));
    StageCounts(s.stages, w, t.stages[w], c.connections);
    assert BarrierAt(s.stages[w], s.joined[w], s.isOpen);
  }

  lemma StepFinish(c: Shape, s: Phase, w: nat, check: R.Check)
    requires c.Valid() && PhaseInv(c, s) && Can(c, s, Finish(w, check))
    ensures PhaseInv(c, Do(c, s, Finish(w, check)))
  {
    var t := Do(c, s, Finish(w, check));
    StageCounts(s.stages, w, t.stages[w], c.connections);
    assert BarrierAt(s.stages[w], s.joined[w], s.isOpen);
    assert s.joined[w] && s.isOpen;
    assert t.record.maxByDial == s.record.maxByDial && t.record.maxActive == s.record.maxActive;
  }

  /** When the counter is zero every worker stands at the barrier, on a connection. */
  lemma AllWait(c: Shape, s: Phase)
    requires c.Valid() && PhaseInv(c, s) && s.pending == 0 && !s.isOpen
    ensures forall w :: 0 <= w < |s.stages| ==> s.stages[w].Waiting? && s.sched.pcs[w].Holding?
    ensures s.record.active == c.workers == Count(s.sched.pcs, Holder())
    ensures forall i :: 0 <= i < c.connections ==> s.record.activeByDial[i] == s.sched.slots[i]
  {
    CountBound(s.joined, Joined());
    forall w | 0 <= w < |s.stages| ensures s.stages[w].Waiting? && s.sched.pcs[w].Holding? {
      assert Joined()(s.joined[w]);
      assert BarrierAt(s.stages[w], s.joined[w], s.isOpen) && LinkedAt(s.sched.pcs[w], s.stages[w]);
    }
    CountBound(s.stages, Active());
    CountBound(s.sched.pcs, Holder());
    forall i | 0 <= i < c.connections ensures s.record.activeByDial[i] == s.sched.slots[i] {
      assert forall w :: 0 <= w < |s.stages| ==> LinkedAt(s.sched.pcs[w], s.stages[w]);
      CountLe(s.stages, ActiveOn(i), s.sched.pcs, HolderOf(i));
      CountLe(s.sched.pcs, HolderOf(i), s.stages, ActiveOn(i));
    }
  }

  lemma StepOpen(c: Shape, s: Phase)
    requires c.Valid() && PhaseInv(c, s) && Can(c, s, Open)
    ensures PhaseInv(c, Do(c, s, Open))
  {
    AllWait(c, s);
    FullMeansCapacity(c, s.sched);
    var t := Do(c, s, Open);
    forall w | 0 <= w < |t.stages| ensures BarrierAt(t.stages[w], t.joined[w], t.isOpen) {
      assert BarrierAt(s.stages[w], s.joined[w], s.isOpen);
    }
  }

  lemma StepInv(c: Shape, s: Phase, x: Step)
    requires c.Valid() && PhaseInv(c, s) && Can(c, s, x)
    ensures PhaseInv(c, Do(c, s, x))
  {
    match x
    case Sched(a) => StepSched(c, s, a);
    case Begin(w) => StepBegin(c, s, w);
    case Arrive(w) => StepArrive(c, s, w);
    case Proceed(w) => StepProceed(c, s, w);
    case Finish(w, check) => StepFinish(c, s, w, check);
    case Open => StepOpen(c, s);
  }

  lemma {:induction false} RunInv(c: Shape, s: Phase, run: seq<Step>)
    requires c.Valid() && PhaseInv(c, s) && Runs(c, s, run)
    ensures PhaseInv(c, Exec(c, s, run))
    decreases |run|
  {
    if run != [] {
      StepInv(c, s, run[0]);
      RunInv(c, Do(c, s, run[0]), run[1..]);
    }
  }

  // ---------------------------------------------------------------- the phase as a whole

  /** In every run, active operations stay within occupied slots, and those within the configuration. */
  lemma {:induction false} ActiveNeverExceedsSlots(c: Shape, run: seq<Step>, i: nat)
    requires c.Valid() && Runs(c, Start(c), run) && i < c.connections
    ensures var s := Exec(c, Start(c), run);
            && |s.record.activeByDial| == |s.record.maxByDial| == |s.sched.slots| == c.connections
            && 0 <= s.record.activeByDial[i] <= s.sched.slots[i] <= c.streams
            && s.record.maxByDial[i] <= c.streams
  {
    StartInv(c);
    RunInv(c, Start(c), run);
    ActiveWithinSlots(c, Exec(c, Start(c), run));
  }

  /**
   In every run in which the start barrier has opened, the recorded maximum is exactly the
   number of workers, there are no more workers than slots, and a full configuration has
   driven every connection to its configured number of streams.
   */
  lemma {:induction false} OpenedPhaseIsExact(c: Shape, run: seq<Step>)
    requires c.Valid() && Runs(c, Start(c), run) && Exec(c, Start(c), run).isOpen
    ensures var s := Exec(c, Start(c), run);
            && s.record.maxActive == c.workers
            && c.workers <= c.Capacity()
            && |s.record.maxByDial| == c.connections
            && (c.workers == c.Capacity() ==>
                  forall i :: 0 <= i < c.connections ==> s.record.maxByDial[i] == c.streams)
  {
    StartInv(c);
    RunInv(c, Start(c), run);
  }

  /** With more workers than slots the barrier stays shut in every run. */
  lemma {:induction false} BarrierNeedsCapacity(c: Shape, run: seq<Step>)
    requires c.Valid() && Runs(c, Start(c), run) && c.workers > c.Capacity()
    ensures !Exec(c, Start(c), run).isOpen
  {
    StartInv(c);
    RunInv(c, Start(c), run);
  }

  /**
   The topology gate, reached after an opened barrier and with every dial made, turns a
   phase down for one reason only: a connection whose peer allows too few streams.
   */
  lemma {:induction false} GateRejectsOnlyPeerLimits(c: Shape, run: seq<Step>, peerLimits: seq<nat>)
    requires c.Valid() && Runs(c, Start(c), run) && Exec(c, Start(c), run).isOpen
    requires |peerLimits| == c.connections
    ensures var record := Exec(c, Start(c), run).record;
            && record.maxActive == c.workers && |record.maxByDial| == c.connections
            && (forall i :: 0 <= i < c.connections ==> record.maxByDial[i] <= c.streams)
            && var summary := R.Summary(c.connections, record, peerLimits);
               var config := R.Config(c.connections, c.workers, c.streams);
               (forall i :: 0 <= i < c.connections ==> R.DialOk(summary, config, i)) <==>
               (forall i :: 0 <= i < c.connections ==>
                  peerLimits[i] != 0 && peerLimits[i] >= c.streams % 0x1_0000_0000)
  {
    StartInv(c);
    RunInv(c, Start(c), run);
    var summary := R.Summary(c.connections, Exec(c, Start(c), run).record, peerLimits);
    var config := R.Config(c.connections, c.workers, c.streams);
    assert forall i :: 0 <= i < c.connections ==>
        (R.DialOk(summary, config, i) <==> peerLimits[i] != 0 && peerLimits[i] >= c.streams % 0x1_0000_0000);
  }

  /** The gate applied to a phase whose barrier opened: accepted, or turned down for a peer limit. */
  method GateAfterOpening(c: Shape, ghost run: seq<Step>, record: R.Record, peerLimits: seq<nat>)
    returns (v: R.Verdict)
    requires c.Valid() && Runs(c, Start(c), run) && Exec(c, Start(c), run).isOpen
    requires record == Exec(c, Start(c), run).record && |peerLimits| == c.connections
    ensures v.Accepted? || v.PeerLimited?
    ensures v.PeerLimited? ==>
              && v.index < c.connections
              && (peerLimits[v.index] == 0 || peerLimits[v.index] < c.streams % 0x1_0000_0000)
    ensures c.streams < 0x1_0000_0000 ==>
              (v.Accepted? <==> forall i :: 0 <= i < c.connections ==> peerLimits[i] >= c.streams)
  {
    GateRejectsOnlyPeerLimits(c, run, peerLimits);
    v := R.ValidateMeasuredTopology(R.Summary(c.connections, record, peerLimits),
                                    R.Config(c.connections, c.workers, c.streams));
  }

  // ---------------------------------------------------------------- the history of a phase

  /** What a step is to the recorder. */
  function EventOf(s: Phase, x: Step): seq<R.Event>
  {
    match x
    case Begin(w) => if w < |s.stages| && !s.stages[w].Outside? then [R.Begun(s.stages[w].index)] else []
    case Finish(w, check) =>
      if w < |s.stages| && !s.stages[w].Outside? then [R.Finished(s.stages[w].index, check)] else []
    case _ => []
  }

  /** The begins and finishes of a run, in order. */
  function History(c: Shape, s: Phase, run: seq<Step>): seq<R.Event>
    requires c.Valid() && Runs(c, s, run)
    decreases |run|
  {
    if run == [] then [] else EventOf(s, run[0]) + History(c, Do(c, s, run[0]), run[1..])
  }

  predicate OnDials(history: seq<R.Event>, dials: nat)
  {
    forall k :: 0 <= k < |history| ==> history[k].dial < dials
  }

  /** A step does to the record what its event does. */
  lemma {:induction false} StepRecorded(c: Shape, s: Phase, x: Step, before: seq<R.Event>)
    requires c.Valid() && PhaseInv(c, s) && Can(c, s, x)
    requires OnDials(before, c.connections) && s.record == R.After(c.connections, before)
    ensures var after := before + EventOf(s, x);
            OnDials(after, c.connections) && Do(c, s, x).record == R.After(c.connections, after)
  {
    var after := before + EventOf(s, x);
    if EventOf(s, x) == [] {
      assert after == before;
    } else {
      assert after[..|after| - 1] == before;
    }
  }

  lemma {:induction false} RecordFollows(c: Shape, s: Phase, run: seq<Step>, before: seq<R.Event>)
    requires c.Valid() && PhaseInv(c, s) && Runs(c, s, run)
    requires OnDials(before, c.connections) && s.record == R.After(c.connections, before)
    ensures var all := before + History(c, s, run);
            OnDials(all, c.connections) && Exec(c, s, run).record == R.After(c.connections, all)
    decreases |run|
  {
    if run == [] {
      Empty(before);
    } else {
      var x := run[0];
      var t := Do(c, s, x);
      StepRecorded(c, s, x, before);
      StepInv(c, s, x);
      RecordFollows(c, t, run[1..], before + EventOf(s, x));
      Assoc(before, EventOf(s, x), History(c, t, run[1..]));
    }
  }

  /**
   The record of every run is the record of its begins and finishes, so that every operation
   that finished is counted under its own outcome and the maxima are the peaks of the run.
   */
  lemma {:induction false} RecordIsHistory(c: Shape, run: seq<Step>)
    requires c.Valid() && Runs(c, Start(c), run)
    ensures var r, history := Exec(c, Start(c), run).record, History(c, Start(c), run);
            && OnDials(history, c.connections) && r == R.After(c.connections, history)
            && r.timedOut == Count(history, R.TimedOut) && r.failed == Count(history, R.Failed)
            && r.successful == Count(history, R.Succeeded) && r.bytesReceived == R.Payloads(history)
            && R.IsPeak(history, r.maxActive)
  {
    StartInv(c);
    RecordFollows(c, Start(c), run, []);
    var history := History(c, Start(c), run);
    assert [] + history == history;
    R.OutcomesAreExact(c.connections, history);
    R.MaximaAreExact(c.connections, history, 0);
  }

  // ---------------------------------------------------------------- committed profiles

  /** http2-smoke, http2-diagnostic and http2-comparison. */
  predicate Committed(c: Shape)
  {
    c == Shape(1, 1, 1) || c == Shape(1, 8, 8) || c == Shape(16, 8, 128)
  }

  /**
   Under a committed profile no acquire ever waits, and a phase whose barrier opened has
   every connection at exactly its configured number of streams.
   */
  lemma {:induction false} CommittedProfiles(c: Shape, run: seq<Step>)
    requires Committed(c) && c.Valid() && Runs(c, Start(c), run)
    ensures var s := Exec(c, Start(c), run);
            && (forall w :: 0 <= w < |s.sched.pcs| ==> !s.sched.pcs[w].Missed? && !s.sched.pcs[w].Parked?)
            && (s.isOpen ==> s.record.maxActive == c.workers && |s.record.maxByDial| == c.connections &&
                             forall i :: 0 <= i < c.connections ==> s.record.maxByDial[i] == c.streams)
  {
    assert c.workers == c.Capacity();
    PhaseRefinesScheduler(c, Start(c), run);
    FirstScanSucceeds(c, Project(run));
    if Exec(c, Start(c), run).isOpen {
      OpenedPhaseIsExact(c, run);
    }
  }

  // ---------------------------------------------------------------- how a phase can end

  /** No worker and not the main routine can take a step; cancellation aside. */
  ghost predicate Halted(c: Shape, s: Phase)
    requires c.Valid()
  {
    forall x :: Can(c, s, x) ==> x == Sched(Cancel)
  }

  /** A worker that has neither left nor waits at a shut barrier can move, or lets another move. */
  lemma WorkerMoves(c: Shape, s: Phase, w: nat) returns (x: Step)
    requires c.Valid() && PhaseInv(c, s) && w < c.workers
    requires forall v :: 0 <= v < |s.sched.pcs| ==> !s.sched.pcs[v].Missed? && !s.sched.pcs[v].Parked?
    requires !s.sched.pcs[w].Exited? && (s.stages[w].Waiting? ==> s.isOpen)
    ensures Can(c, s, x) && x != Sched(Cancel)
  {
    var p, g := s.sched.pcs[w], s.stages[w];
    assert LinkedAt(p, g) && BarrierAt(g, s.joined[w], s.isOpen);
    if p.Holding? {
      HolderOccupies(c, s.sched, w);
      if g.Begun? {
        CountMissesOne(s.joined, Joined(), w);
      }
      x := match g
           case Acquired(_) => Begin(w)
           case Begun(_) => Arrive(w)
           case Waiting(_) => Proceed(w)
           case Operating(_) => Finish(w, R.Check(false, true, 0))
           case _ => Sched(Drain(w));
    } else if s.sched.mutex.Some? {
      assert InMutex(s.sched.pcs[s.sched.mutex.value]);
      var a := MutexHolderMoves(c, s.sched);
      x := Sched(a);
    } else {
      assert !InMutex(p);
      x := Sched(if p.Idle? then Quit(w) else if p.Locking? then Lock(w) else Signal(w));
    }
  }

  lemma HaltedPhase(c: Shape, s: Phase)
    requires c.Valid() && PhaseInv(c, s) && Halted(c, s)
    requires forall v :: 0 <= v < |s.sched.pcs| ==> !s.sched.pcs[v].Missed? && !s.sched.pcs[v].Parked?
    ensures if s.isOpen then forall w :: 0 <= w < c.workers ==> s.sched.pcs[w].Exited?
            else exists w :: 0 <= w < c.workers && s.sched.pcs[w].Exited? && !s.joined[w]
  {
    if s.isOpen {
      forall w | 0 <= w < c.workers ensures s.sched.pcs[w].Exited? {
        if !s.sched.pcs[w].Exited? {
          var x := WorkerMoves(c, s, w);
        }
      }
    } else {
      assert s.pending > 0 by { assert !Can(c, s, Open); }
      CountBound(s.joined, Joined());
      var w :| 0 <= w < |s.joined| && !Joined()(s.joined[w]);
      assert BarrierAt(s.stages[w], s.joined[w], s.isOpen);
      if !s.sched.pcs[w].Exited? {
        var x := WorkerMoves(c, s, w);
      }
    }
  }

  /**
   With enough slots, a phase that can go no further has either ended, barrier open and
   every worker gone, or hangs at a shut barrier because some worker left before its first
   operation and never called Done.
   */
  lemma {:induction false} PhaseEndsOrWaitsForDeserter(c: Shape, run: seq<Step>)
    requires c.Valid() && c.workers <= c.Capacity() && Runs(c, Start(c), run)
    requires Halted(c, Exec(c, Start(c), run))
    ensures var s := Exec(c, Start(c), run);
            && |s.sched.pcs| == |s.joined| == c.workers
            && if s.isOpen then forall w :: 0 <= w < c.workers ==> s.sched.pcs[w].Exited?
               else exists w :: 0 <= w < c.workers && s.sched.pcs[w].Exited? && !s.joined[w]
  {
    StartInv(c);
    RunInv(c, Start(c), run);
    PhaseRefinesScheduler(c, Start(c), run);
    FirstScanSucceeds(c, Project(run));
    HaltedPhase(c, Exec(c, Start(c), run));
  }
}
