/**
 How often a waiting worker can be overtaken.

 `release` wakes one parked worker, but the slot it gave back is open to everybody: the
 worker that is woken may find it taken again and park once more.  Failed scans of one and
 the same `acquire` are counted, because a worker that merely has not got the mutex yet is
 held up by nothing the scheduler does.
 */
module SchedulerFairness {
  import opened Octets
  import opened Counting
  import opened Scheduler
  import opened SchedulerBounds
  import opened SchedulerWakeups

  /** Between the call of `acquire` and the slot it returns. */
  predicate InAcquire(p: Pc) { p.Locking? || p.Scanning? || p.Missed? || p.Parked? }

  /** Worker `w` is in `acquire` all along the run, and so in one and the same call. */
  predicate Stays(c: Shape, s: State, run: seq<Action>, w: nat)
    requires c.Valid() && Runs(c, s, run)
    decreases |run|
  {
    && w < |s.pcs| && InAcquire(s.pcs[w])
    && (run != [] ==> Stays(c, Apply(c, s, run[0]), run[1..], w))
  }

  /** The scans of worker `w` that found every channel full. */
  function FailedScans(run: seq<Action>, w: nat): nat
  {
    if run == [] then 0 else (if run[0] == Unlock(w) then 1 else 0) + FailedScans(run[1..], w)
  }

  /** In one `acquire` of worker `w`: `k` failed scans, and `k` slots granted to others. */
  predicate Overtaken(c: Shape, s: State, run: seq<Action>, w: nat, k: nat)
    requires c.Valid()
  {
    Runs(c, s, run) && Stays(c, s, run, w) && FailedScans(run, w) == k && Grants(c, s, run) == k
  }

  // ---------------------------------------------------------------- runs put together

  lemma {:induction false} Joined(c: Shape, s: State, a: seq<Action>, b: seq<Action>, w: nat)
    requires c.Valid() && Runs(c, s, a) && Runs(c, Exec(c, s, a), b)
    ensures Runs(c, s, a + b) && Exec(c, s, a + b) == Exec(c, Exec(c, s, a), b)
    ensures FailedScans(a + b, w) == FailedScans(a, w) + FailedScans(b, w)
    ensures Grants(c, s, a + b) == Grants(c, s, a) + Grants(c, Exec(c, s, a), b)
    ensures Stays(c, s, a, w) && Stays(c, Exec(c, s, a), b, w) ==> Stays(c, s, a + b, w)
    decreases |a|
  {
    RunsAppend(c, s, a, b);
    if a == [] {
      assert a + b == b;
    } else {
      assert (a + b)[0] == a[0] && (a + b)[1..] == a[1..] + b;
      Joined(c, Apply(c, s, a[0]), a[1..], b, w);
    }
  }

  /** Actions of the others leave a worker where it is. */
  lemma {:induction false} Untouched(c: Shape, s: State, run: seq<Action>, w: nat)
    requires c.Valid() && Runs(c, s, run) && w < |s.pcs| && InAcquire(s.pcs[w])
    requires forall j :: 0 <= j < |run| ==> !run[j].Cancel? && run[j].w != w
    ensures Stays(c, s, run, w) && FailedScans(run, w) == 0
    decreases |run|
  {
    if run != [] {
      assert !run[0].Cancel? && run[0].w != w;
      assert forall j :: 0 <= j < |run[1..]| ==> run[1..][j] == run[j + 1];
      Untouched(c, Apply(c, s, run[0]), run[1..], w);
    }
  }

  lemma {:induction false} NoProbeNoGrant(c: Shape, s: State, run: seq<Action>)
    requires c.Valid() && Runs(c, s, run) && forall j :: 0 <= j < |run| ==> !run[j].Probe?
    ensures Grants(c, s, run) == 0
    decreases |run|
  {
    if run != [] {
      assert forall j :: 0 <= j < |run[1..]| ==> run[1..][j] == run[j + 1];
      NoProbeNoGrant(c, Apply(c, s, run[0]), run[1..]);
    }
  }

  // ---------------------------------------------------------------- a jam

  /** Every slot taken, worker `w` parked, and nobody under way. */
  ghost predicate Jammed(c: Shape, s: State, w: nat)
    requires c.Valid()
  {
    && Inv(c, s) && Full(c, s) && s.mutex == None && !s.token && !s.cancelled
    && w < c.workers && s.pcs[w].Parked?
  }

  /** A worker on the connection that is due gives its slot back and says so. */
  function GiveRun(v: nat): seq<Action> { [Drain(v), Signal(v)] }

  lemma GiveRuns(c: Shape, s: State, v: nat, w: nat)
    requires c.Valid() && Jammed(c, s, w) && v < c.workers && s.pcs[v] == Holding(s.next)
    ensures Runs(c, s, GiveRun(v)) && Grants(c, s, GiveRun(v)) == 0
    ensures Stays(c, s, GiveRun(v), w) && FailedScans(GiveRun(v), w) == 0
    ensures Exec(c, s, GiveRun(v)) ==
            s.(pcs := s.pcs[v := Idle], slots := s.slots[s.next := c.streams - 1], token := true)
  {
    var t := Apply(c, s, Drain(v));
    assert GiveRun(v)[1..] == [Signal(v)];
    OneAction(c, t, Signal(v));
    assert t.pcs[v := Idle] == s.pcs[v := Idle];
    Untouched(c, s, GiveRun(v), w);
    NoProbeNoGrant(c, s, GiveRun(v));
  }

  /** It calls `acquire` again and takes the slot back before the parked worker has woken. */
  lemma RetakeRuns(c: Shape, s: State, v: nat, w: nat)
    requires c.Valid() && Shaped(c, s) && v < c.workers && w < c.workers && v != w
    requires s.pcs[v].Idle? && InAcquire(s.pcs[w])
    requires s.mutex == None && !s.cancelled && s.slots[s.next] < c.streams
    ensures Runs(c, s, GrantRun(v)) && Grants(c, s, GrantRun(v)) == 1
    ensures Stays(c, s, GrantRun(v), w) && FailedScans(GrantRun(v), w) == 0
  {
    GrantRuns(c, s, v);
    Untouched(c, s, GrantRun(v), w);
    DivModUnique(s.next, c.connections, 0, s.next);
    var run := GrantRun(v);
    var s2 := Apply(c, Apply(c, s, Enter(v)), Lock(v));
    var s3 := Apply(c, s2, Probe(v));
    assert s3.pcs[v].Took?;
    assert run[1..][1..] == run[2..] && run[2..][1..] == run[3..] && run[3..][1..] == [];
    assert Grants(c, s3, run[3..]) == 0;
    assert Grants(c, s2, run[2..]) == 1;
    assert Grants(c, Apply(c, s, Enter(v)), run[1..]) == 1;
  }

  lemma {:induction false} VainProbes(c: Shape, s: State, w: nat, n: nat)
    requires c.Valid() && Shaped(c, s) && Full(c, s) && w < c.workers && 0 < n <= c.connections
    requires s.pcs[w] == Scanning(c.connections - n)
    ensures Runs(c, s, Probes(w, n)) && Grants(c, s, Probes(w, n)) == 0
    ensures Stays(c, s, Probes(w, n), w) && FailedScans(Probes(w, n), w) == 0
    decreases n
  {
    ProbeRuns(c, s, w, n);
    var t := Apply(c, s, Probe(w));
    assert Probes(w, n)[0] == Probe(w) && Probes(w, n)[1..] == Probes(w, n - 1);
    if n > 1 {
      ShapedStep(c, s, Probe(w));
      VainProbes(c, t, w, n - 1);
    } else {
      assert Probes(w, n)[1..] == [];
    }
  }

  /** The parked worker wakes, finds every channel full and parks again. */
  function VainRun(c: Shape, w: nat): seq<Action>
  {
    [Wake(w), Lock(w)] + Probes(w, c.connections) + [Unlock(w)]
  }

  lemma VainStart(c: Shape, s: State, w: nat)
    requires c.Valid() && Shaped(c, s) && w < c.workers && s.pcs[w].Parked? && s.mutex == None && s.token
    ensures var run, t := [Wake(w), Lock(w)], s.(pcs := s.pcs[w := Scanning(0)], mutex := Some(w), token := false);
            && Runs(c, s, run) && Exec(c, s, run) == t && Shaped(c, t)
            && Stays(c, s, run, w) && FailedScans(run, w) == 0 && Grants(c, s, run) == 0
  {
    var s1 := Apply(c, s, Wake(w));
    var s2 := Apply(c, s1, Lock(w));
    var run: seq<Action> := [Wake(w), Lock(w)];
    assert run[1..] == [Lock(w)] && run[1..][1..] == [];
    OneAction(c, s1, Lock(w));
    assert FailedScans(run[1..], w) == 0;
    assert s1.pcs[w := Scanning(0)] == s.pcs[w := Scanning(0)];
    assert Stays(c, s2, [], w) && Stays(c, s1, [Lock(w)], w);
    NoProbeNoGrant(c, s, run);
  }

  lemma VainRuns(c: Shape, s: State, w: nat)
    requires c.Valid() && Shaped(c, s) && Full(c, s) && w < c.workers && s.pcs[w].Parked?
    requires s.mutex == None && s.token
    ensures Runs(c, s, VainRun(c, w)) && Exec(c, s, VainRun(c, w)) == s.(token := false)
    ensures Stays(c, s, VainRun(c, w), w) && FailedScans(VainRun(c, w), w) == 1 && Grants(c, s, VainRun(c, w)) == 0
  {
    var first, probes, last: seq<Action> := [Wake(w), Lock(w)], Probes(w, c.connections), [Unlock(w)];
    VainStart(c, s, w);
    var t := Exec(c, s, first);
    ProbeRuns(c, t, w, c.connections);
    VainProbes(c, t, w, c.connections);
    Joined(c, s, first, probes, w);
    var u := Exec(c, t, probes);
    var v := Apply(c, u, Unlock(w));
    assert last[1..] == [];
    assert Runs(c, v, []) && Stays(c, v, [], w);
    assert Runs(c, u, last) && Exec(c, u, last) == v && Stays(c, u, last, w);
    assert v.pcs == s.pcs;
    Joined(c, s, first + probes, last, w);
  }

  // ---------------------------------------------------------------- overtaken, again and again

  /** A slot is given back and taken again; what remains of it is the token. */
  lemma SwapRuns(c: Shape, s: State, v: nat, w: nat)
    requires c.Valid() && Jammed(c, s, w) && v < c.workers && s.pcs[v] == Holding(s.next)
    ensures var run := GiveRun(v) + GrantRun(v);
            && Runs(c, s, run) && Stays(c, s, run, w) && FailedScans(run, w) == 0 && Grants(c, s, run) == 1
            && Exec(c, s, run) == s.(next := (s.next + 1) % c.connections, token := true)
  {
    GiveRuns(c, s, v, w);
    var t := Exec(c, s, GiveRun(v));
    RetakeRuns(c, t, v, w);
    GrantRuns(c, t, v);
    Joined(c, s, GiveRun(v), GrantRun(v), w);
    var u := Exec(c, t, GrantRun(v));
    assert u.slots == s.slots && u.pcs == s.pcs;
  }

  /** Once round: the slot changes hands, and the parked worker is woken in vain. */
  lemma OnceRound(c: Shape, s: State, w: nat) returns (run: seq<Action>)
    requires c.Valid() && Jammed(c, s, w)
    ensures Overtaken(c, s, run, w, 1) && Jammed(c, Exec(c, s, run), w)
  {
    var v := OccupiedHasHolder(c, s, s.next);
    assert !InMutex(s.pcs[v]);
    SwapRuns(c, s, v, w);
    var swap := GiveRun(v) + GrantRun(v);
    var u := Exec(c, s, swap);
    InvRun(c, s, swap);
    VainRuns(c, u, w);
    Joined(c, s, swap, VainRun(c, w), w);
    run := swap + VainRun(c, w);
    InvRun(c, s, run);
  }

  lemma {:induction false} RoundAndRound(c: Shape, s: State, w: nat, k: nat) returns (run: seq<Action>)
    requires c.Valid() && Jammed(c, s, w)
    ensures Overtaken(c, s, run, w, k) && Jammed(c, Exec(c, s, run), w)
    decreases k
  {
    if k == 0 {
      run := [];
    } else {
      var first := RoundAndRound(c, s, w, k - 1);
      var last := OnceRound(c, Exec(c, s, first), w);
      Joined(c, s, first, last, w);
      run := first + last;
    }
  }

  /** Every slot taken and one more worker parked. */
  lemma JamRuns(c: Shape) returns (run: seq<Action>)
    requires c.Valid() && c.workers > c.Capacity()
    ensures Runs(c, Init(c), run) && Jammed(c, Exec(c, Init(c), run), c.Capacity())
  {
    var m := c.Capacity();
    var r, p := FillRuns(c, m);
    var s := Exec(c, Init(c), r);
    DivModUnique(m, c.connections, p.rounds, p.due);
    DivModUnique(m, c.connections, c.streams, 0);
    assert Full(c, s);
    MissRuns(c, s, m);
    RunsAppend(c, Init(c), r, MissRun(c, m));
    run := r + MissRun(c, m);
    InitInv(c);
    InvRun(c, Init(c), run);
  }

  lemma {:induction false} FailedScanMissed(c: Shape, s: State, run: seq<Action>, w: nat) returns (n: nat)
    requires c.Valid() && Runs(c, s, run) && FailedScans(run, w) > 0
    ensures n <= |run| && Runs(c, s, run[..n])
    ensures w < |Exec(c, s, run[..n]).pcs| && Exec(c, s, run[..n]).pcs[w].Missed?
    decreases |run|
  {
    if run[0] == Unlock(w) {
      n := 0;
      assert run[..0] == [];
    } else {
      var m := FailedScanMissed(c, Apply(c, s, run[0]), run[1..], w);
      n := m + 1;
      assert run[..n][0] == run[0] && run[..n][1..] == run[1..][..m];
    }
  }

  /** After `before`, worker `w` is overtaken `k` times along `run`. */
  predicate Happens(c: Shape, before: seq<Action>, run: seq<Action>, w: nat, k: nat)
    requires c.Valid()
  {
    Runs(c, Init(c), before) && Overtaken(c, Exec(c, Init(c), before), run, w, k)
  }

  lemma OvertakingRuns(c: Shape, k: nat) returns (before: seq<Action>, run: seq<Action>, w: nat)
    requires c.Valid() && c.workers > c.Capacity()
    ensures Happens(c, before, run, w, k)
  {
    before := JamRuns(c);
    w := c.Capacity();
    run := RoundAndRound(c, Exec(c, Init(c), before), w, k);
  }

  lemma NeverOvertaken(c: Shape, before: seq<Action>, run: seq<Action>, w: nat, k: nat)
    requires c.Valid() && k > 0 && Happens(c, before, run, w, k)
    ensures c.workers > c.Capacity()
  {
    if c.workers <= c.Capacity() {
      var n := FailedScanMissed(c, Exec(c, Init(c), before), run, w);
      RunsAppend(c, Init(c), before, run[..n]);
      FirstScanSucceeds(c, before + run[..n]);
    }
  }

  /**
   A worker can be woken and sent back in one `acquire` any number of times, a slot going to
   somebody else each time, if and only if there are more workers than slots; otherwise not
   even once.
   */
  lemma {:induction false} OvertakenExactlyWhen(c: Shape, k: nat)
    requires c.Valid() && k > 0
    ensures (exists before, run, w :: Happens(c, before, run, w, k)) <==> c.workers > c.Capacity()
  {
    if c.workers > c.Capacity() {
      var before, run, w := OvertakingRuns(c, k);
    }
    forall before, run, w | Happens(c, before, run, w, k) ensures c.workers > c.Capacity() {
      NeverOvertaken(c, before, run, w, k);
    }
  }

  // ---------------------------------------------------------------- before the mutex

  /** Worker 1 has called `acquire` and not got the mutex yet; every slot is free. */
  predicate AtTheDoor(c: Shape, s: State)
    requires c.Valid()
  {
    && Shaped(c, s) && c.workers >= 2 && s.mutex == None && !s.cancelled
    && s.pcs[0].Idle? && s.pcs[1].Locking? && forall i :: 0 <= i < |s.slots| ==> s.slots[i] == 0
  }

  lemma PassesOnce(c: Shape, s: State)
    requires c.Valid() && AtTheDoor(c, s)
    ensures var run := GrantRun(0) + GiveRun(0);
            && Runs(c, s, run) && Stays(c, s, run, 1) && Grants(c, s, run) == 1
            && AtTheDoor(c, Exec(c, s, run))
  {
    RetakeRuns(c, s, 0, 1);
    GrantRuns(c, s, 0);
    var t := Exec(c, s, GrantRun(0));
    var u := Apply(c, t, Drain(0));
    assert GiveRun(0)[1..] == [Signal(0)];
    OneAction(c, u, Signal(0));
    assert Exec(c, t, GiveRun(0)).slots == s.slots;
    Untouched(c, t, GiveRun(0), 1);
    NoProbeNoGrant(c, t, GiveRun(0));
    Joined(c, s, GrantRun(0), GiveRun(0), 1);
  }

  lemma {:induction false} PassesAgain(c: Shape, s: State, k: nat) returns (run: seq<Action>)
    requires c.Valid() && AtTheDoor(c, s)
    ensures Runs(c, s, run) && Stays(c, s, run, 1) && Grants(c, s, run) == k && AtTheDoor(c, Exec(c, s, run))
    decreases k
  {
    if k == 0 {
      run := [];
    } else {
      var first := PassesAgain(c, s, k - 1);
      var last := GrantRun(0) + GiveRun(0);
      PassesOnce(c, Exec(c, s, first));
      Joined(c, s, first, last, 1);
      run := first + last;
    }
  }

  /** After `before`, `k` slots are granted along `run` while worker `w` is in one `acquire`. */
  predicate HeldUp(c: Shape, before: seq<Action>, run: seq<Action>, w: nat, k: nat)
    requires c.Valid()
  {
    && Runs(c, Init(c), before)
    && var s := Exec(c, Init(c), before);
    && Runs(c, s, run) && Stays(c, s, run, w) && Grants(c, s, run) == k
  }

  lemma {:induction false} GrantsGoToOthers(c: Shape, s: State, run: seq<Action>, w: nat)
    requires c.Valid() && Runs(c, s, run) && Stays(c, s, run, w) && |s.pcs| == 1
    ensures Grants(c, s, run) == 0
    decreases |run|
  {
    if run != [] {
      GrantsGoToOthers(c, Apply(c, s, run[0]), run[1..], w);
    }
  }

  lemma DoorRuns(c: Shape, k: nat) returns (before: seq<Action>, run: seq<Action>)
    requires c.Valid() && c.workers >= 2
    ensures HeldUp(c, before, run, 1, k)
  {
    before := [Enter(1)];
    OneAction(c, Init(c), Enter(1));
    run := PassesAgain(c, Exec(c, Init(c), before), k);
  }

  /**
   Without counting failed scans the condition is no more than company: any second worker can
   pass any number of times while the first has not got the mutex.
   */
  lemma {:induction false} HeldUpExactlyWhen(c: Shape, k: nat)
    requires c.Valid() && k > 0
    ensures (exists before, run, w :: HeldUp(c, before, run, w, k)) <==> c.workers >= 2
  {
    if c.workers >= 2 {
      var before, run := DoorRuns(c, k);
    }
    forall before, run, w | HeldUp(c, before, run, w, k) ensures c.workers >= 2 {
      InitInv(c);
      InvRun(c, Init(c), before);
      if c.workers == 1 {
        GrantsGoToOthers(c, Exec(c, Init(c), before), run, w);
      }
    }
  }
}
