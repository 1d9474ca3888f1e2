/**
 The lock-free peak of the concurrent WebSocket message phase: each worker adds itself to
 an atomic counter, then raises an atomic peak with a load and compare-and-swap loop, works,
 sends its result and, last, takes itself off the counter.

 A worker's `retries` count its failed swaps; they are part of the model only.
 */
module PeakLoop {
  import opened Octets
  import opened Counting

  datatype Pc =
    | Ready                                                  // before active.Add(1)
    | Added(current: nat, retries: nat)                      // about to load the peak
    | Loaded(current: nat, observed: nat, retries: nat)      // about to compare and swap
    | Working
    | Reported                                               // result sent, still counted
    | Gone

  datatype State = State(pcs: seq<Pc>, active: nat, peak: nat)

  datatype Action = Add(w: nat) | Load(w: nat) | Swap(w: nat) | Report(w: nat) | Leave(w: nat)

  function Init(n: nat): State { State(seq(n, _ => Ready), 0, 0) }

  predicate Enabled(s: State, a: Action)
  {
    && a.w < |s.pcs|
    && match a
       case Add(w) => s.pcs[w].Ready?
       case Load(w) => s.pcs[w].Added?
       case Swap(w) => s.pcs[w].Loaded?
       case Report(w) => s.pcs[w].Working?
       case Leave(w) => s.pcs[w].Reported? && s.active > 0
  }

  function Apply(s: State, a: Action): State
    requires Enabled(s, a)
  {
    var w := a.w;
    match a
    case Add(_) => s.(pcs := s.pcs[w := Added(s.active + 1, 0)], active := s.active + 1)
    case Load(_) =>
      var p := s.pcs[w];
      s.(pcs := s.pcs[w := if p.current <= s.peak then Working else Loaded(p.current, s.peak, p.retries)])
    case Swap(_) =>
      var p := s.pcs[w];
      if s.peak == p.observed then s.(pcs := s.pcs[w := Working], peak := p.current)
      else s.(pcs := s.pcs[w := Added(p.current, p.retries + 1)])
    case Report(_) => s.(pcs := s.pcs[w := Reported])
    case Leave(_) => s.(pcs := s.pcs[w := Gone], active := s.active - 1)
  }

  predicate Runs(s: State, run: seq<Action>)
    decreases |run|
  {
    run != [] ==> Enabled(s, run[0]) && Runs(Apply(s, run[0]), run[1..])
  }

  function Exec(s: State, run: seq<Action>): State
    requires Runs(s, run)
    decreases |run|
  {
    if run == [] then s else Exec(Apply(s, run[0]), run[1..])
  }

  /** Between the two additions to the counter. */
  function Counted(): Pc -> bool { (p: Pc) => !p.Ready? && !p.Gone? }

  /** The most workers counted at once, over the states of a run. */
  function MostAtOnce(s: State, run: seq<Action>): nat
    requires Runs(s, run)
    decreases |run|
  {
    var here := Count(s.pcs, Counted());
    if run == [] then here
    else
      var later := MostAtOnce(Apply(s, run[0]), run[1..]);
      if here > later then here else later
  }

  predicate Pending(p: Pc) { p.Added? || p.Loaded? }

  predicate PlaceOk(s: State, most: nat, p: Pc)
  {
    && (Pending(p) ==> 0 < p.current <= most)
    && (p.Added? ==> p.retries <= s.peak)
    && (p.Loaded? ==> p.retries <= p.observed <= s.peak && p.observed < p.current)
  }

  /** `most` is the most workers seen at once so far. */
  ghost predicate Inv(s: State, most: nat)
  {
    && s.active == Count(s.pcs, Counted())
    && s.active <= most && s.peak <= most <= |s.pcs|
    && (forall w :: 0 <= w < |s.pcs| ==> PlaceOk(s, most, s.pcs[w]))
    && (s.peak == most || exists w :: 0 <= w < |s.pcs| && Pending(s.pcs[w]) && s.pcs[w].current == most)
  }

  function Max(a: nat, b: nat): nat { if a > b then a else b }

  lemma PlacesStep(s: State, most: nat, a: Action)
    requires Inv(s, most) && Enabled(s, a)
    ensures var t := Apply(s, a);
            forall v :: 0 <= v < |t.pcs| ==> PlaceOk(t, Max(most, t.active), t.pcs[v])
  {
    var t := Apply(s, a);
    assert PlaceOk(s, most, s.pcs[a.w]);
    forall v | 0 <= v < |t.pcs| ensures PlaceOk(t, Max(most, t.active), t.pcs[v]) {
      assert PlaceOk(s, most, s.pcs[v]);
      assert v == a.w || t.pcs[v] == s.pcs[v];
    }
  }

  /** A worker that saw the most is still there to raise the peak, or has raised it. */
  lemma WitnessStep(s: State, most: nat, a: Action)
    requires Inv(s, most) && Enabled(s, a)
    ensures var t := Apply(s, a);
            var top := Max(most, t.active);
            t.peak == top || exists w :: 0 <= w < |t.pcs| && Pending(t.pcs[w]) && t.pcs[w].current == top
  {
    var t := Apply(s, a);
    assert PlaceOk(s, most, s.pcs[a.w]);
    if a.Add? && t.active > most {
      assert Pending(t.pcs[a.w]) && t.pcs[a.w].current == t.active;
    } else if s.peak != most {
      var v :| 0 <= v < |s.pcs| && Pending(s.pcs[v]) && s.pcs[v].current == most;
      assert t.peak == most || (Pending(t.pcs[v]) && t.pcs[v].current == most);
    }
  }

  lemma InvStep(s: State, most: nat, a: Action)
    requires Inv(s, most) && Enabled(s, a)
    ensures Inv(Apply(s, a), Max(most, Apply(s, a).active))
  {
    var t := Apply(s, a);
    CountUpdate(s.pcs, Counted(), a.w, t.pcs[a.w]);
    CountBound(t.pcs, Counted());
    assert PlaceOk(s, most, s.pcs[a.w]);
    PlacesStep(s, most, a);
    WitnessStep(s, most, a);
  }

  lemma {:induction false} InvRun(s: State, most: nat, run: seq<Action>)
    requires Inv(s, most) && Runs(s, run)
    ensures Inv(Exec(s, run), Max(most, MostAtOnce(s, run)))
    decreases |run|
  {
    if run != [] {
      InvStep(s, most, run[0]);
      InvRun(Apply(s, run[0]), Max(most, Apply(s, run[0]).active), run[1..]);
      assert MostAtOnce(Apply(s, run[0]), run[1..]) >= Apply(s, run[0]).active by {
        MostIsAtLeastNow(Apply(s, run[0]), run[1..]);
        assert Inv(Apply(s, run[0]), Max(most, Apply(s, run[0]).active));
      }
    }
  }

  lemma MostIsAtLeastNow(s: State, run: seq<Action>)
    requires Runs(s, run)
    ensures MostAtOnce(s, run) >= Count(s.pcs, Counted())
  {
  }

  lemma InitInv(n: nat)
    ensures Inv(Init(n), 0)
  {
    CountNone(Init(n).pcs, Counted());
  }

  /**
   Once every worker has sent its result, the peak is exactly the largest number of workers
   that were counted at the same time anywhere in the run, whatever the interleaving.
   */
  lemma {:induction false} PeakIsExact(n: nat, run: seq<Action>)
    requires Runs(Init(n), run)
    requires var s := Exec(Init(n), run);
             forall w :: 0 <= w < |s.pcs| ==> s.pcs[w].Reported? || s.pcs[w].Gone?
    ensures Exec(Init(n), run).peak == MostAtOnce(Init(n), run) <= n
  {
    InitInv(n);
    InvRun(Init(n), 0, run);
    ExecKeepsWorkers(Init(n), run);
  }

  lemma {:induction false} ExecKeepsWorkers(s: State, run: seq<Action>)
    requires Runs(s, run)
    ensures |Exec(s, run).pcs| == |s.pcs|
    decreases |run|
  {
    if run != [] {
      ExecKeepsWorkers(Apply(s, run[0]), run[1..]);
    }
  }

  /** No worker's swap fails as often as there are workers, so the loop cannot spin for ever. */
  lemma {:induction false} RetriesAreBounded(n: nat, run: seq<Action>, w: nat)
    requires Runs(Init(n), run) && w < n
    ensures var s := Exec(Init(n), run);
            && |s.pcs| == n
            && (Pending(s.pcs[w]) ==> s.pcs[w].retries <= n)
            && (s.pcs[w].Loaded? ==> s.pcs[w].retries < n)
  {
    InitInv(n);
    InvRun(Init(n), 0, run);
    ExecKeepsWorkers(Init(n), run);
    var s := Exec(Init(n), run);
    assert PlaceOk(s, MostAtOnce(Init(n), run), s.pcs[w]);
  }

  /** A state in which everybody is counted at once. */
  ghost predicate AllAtOnce(s: State, run: seq<Action>)
    requires Runs(s, run)
    decreases |run|
  {
    || (forall w :: 0 <= w < |s.pcs| ==> Counted()(s.pcs[w]))
    || (run != [] && AllAtOnce(Apply(s, run[0]), run[1..]))
  }

  lemma {:induction false} MostIsAll(s: State, run: seq<Action>)
    requires Runs(s, run)
    ensures MostAtOnce(s, run) <= |s.pcs|
    ensures MostAtOnce(s, run) == |s.pcs| <==> AllAtOnce(s, run)
    decreases |run|
  {
    CountBound(s.pcs, Counted());
    if run != [] {
      MostIsAll(Apply(s, run[0]), run[1..]);
    }
  }

  /**
   The gate on effective concurrency passes exactly when at some moment of the run all
   workers were active together.
   */
  lemma {:induction false} GatePassesExactlyWhenAllOverlap(n: nat, run: seq<Action>)
    requires Runs(Init(n), run)
    requires var s := Exec(Init(n), run);
             forall w :: 0 <= w < |s.pcs| ==> s.pcs[w].Reported? || s.pcs[w].Gone?
    ensures Exec(Init(n), run).peak == n <==> AllAtOnce(Init(n), run)
  {
    PeakIsExact(n, run);
    MostIsAll(Init(n), run);
  }
}
