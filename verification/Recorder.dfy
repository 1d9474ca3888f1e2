/**
 The recorder of one load phase and the topology gate that later reads its summary.

 The recorder keeps the current number of operations, in all and per connection, and
 their running maxima.  Its methods run under a mutex, so each is one step.
 */
module Recorder {
  import opened Octets
  import opened Counting

  /** What `finish` learns about an operation. */
  datatype Check = Check(timedOut: bool, passed: bool, payloadLength: nat)

  datatype Record = Record(
    active: int, activeByDial: seq<int>,
    maxActive: int, maxByDial: seq<int>,
    total: nat, successful: nat, failed: nat, timedOut: nat, bytesReceived: nat)
  {
    function Begin(i: nat): Record
      requires i < |activeByDial| == |maxByDial|
    {
      var byDial := activeByDial[i := activeByDial[i] + 1];
      this.(active := active + 1, activeByDial := byDial,
            maxActive := if active + 1 > maxActive then active + 1 else maxActive,
            maxByDial := if byDial[i] > maxByDial[i] then maxByDial[i := byDial[i]] else maxByDial)
    }

    function Finish(i: nat, check: Check): Record
      requires i < |activeByDial|
    {
      var r := this.(active := active - 1, activeByDial := activeByDial[i := activeByDial[i] - 1], total := total + 1);
      if check.timedOut then r.(timedOut := timedOut + 1)
      else if !check.passed then r.(failed := failed + 1)
      else r.(successful := successful + 1, bytesReceived := bytesReceived + check.payloadLength)
    }
  }

  function Fresh(dials: nat): Record
  {
    Record(0, seq(dials, _ => 0), 0, seq(dials, _ => 0), 0, 0, 0, 0, 0)
  }

  /** The recorder as the workers share it. */
  class PhaseRecorder {
    var activeOperations: int
    var activeOperationsByDial: seq<int>
    var maximumActiveOperations: int
    var maximumActiveOperationsByDial: seq<int>
    var totalRequests: nat
    var successfulRequests: nat
    var failedRequests: nat
    var timeoutRequests: nat
    var bytesReceived: nat

    function Value(): Record
      reads this
    {
      Record(activeOperations, activeOperationsByDial,
             maximumActiveOperations, maximumActiveOperationsByDial,
             totalRequests, successfulRequests, failedRequests, timeoutRequests, bytesReceived)
    }

    constructor (dials: nat)
      ensures Value() == Fresh(dials)
    {
      activeOperations, maximumActiveOperations := 0, 0;
      activeOperationsByDial := seq(dials, _ => 0);
      maximumActiveOperationsByDial := seq(dials, _ => 0);
      totalRequests, successfulRequests, failedRequests, timeoutRequests, bytesReceived := 0, 0, 0, 0, 0;
    }

    method Begin(i: nat)
      requires i < |activeOperationsByDial| == |maximumActiveOperationsByDial|
      modifies this
      ensures Value() == old(Value()).Begin(i)
    {
      activeOperations := activeOperations + 1;
      activeOperationsByDial := activeOperationsByDial[i := activeOperationsByDial[i] + 1];
      if activeOperations > maximumActiveOperations {
        maximumActiveOperations := activeOperations;
      }
      if activeOperationsByDial[i] > maximumActiveOperationsByDial[i] {
        maximumActiveOperationsByDial := maximumActiveOperationsByDial[i := activeOperationsByDial[i]];
      }
    }

    method Finish(i: nat, check: Check)
      requires i < |activeOperationsByDial|
      modifies this
      ensures Value() == old(Value()).Finish(i, check)
      ensures totalRequests == old(totalRequests) + 1 && activeOperations == old(activeOperations) - 1
      ensures timeoutRequests == old(timeoutRequests) + (if check.timedOut then 1 else 0)
      ensures failedRequests == old(failedRequests) + (if !check.timedOut && !check.passed then 1 else 0)
      ensures successfulRequests == old(successfulRequests) + (if !check.timedOut && check.passed then 1 else 0)
      ensures bytesReceived == old(bytesReceived) + (if !check.timedOut && check.passed then check.payloadLength else 0)
    {
      activeOperations := activeOperations - 1;
      activeOperationsByDial := activeOperationsByDial[i := activeOperationsByDial[i] - 1];
      totalRequests := totalRequests + 1;
      if check.timedOut {
        timeoutRequests := timeoutRequests + 1;
        return;
      }
      if !check.passed {
        failedRequests := failedRequests + 1;
        return;
      }
      successfulRequests := successfulRequests + 1;
      bytesReceived := bytesReceived + check.payloadLength;
    }
  }

  // ---------------------------------------------------------------- what the record means

  datatype Event = Begun(dial: nat) | Finished(dial: nat, check: Check)

  /** The record after a history of begins and finishes. */
  function After(dials: nat, history: seq<Event>): (r: Record)
    requires forall k :: 0 <= k < |history| ==> history[k].dial < dials
    ensures |r.activeByDial| == |r.maxByDial| == dials
  {
    if history == [] then Fresh(dials)
    else
      var r := After(dials, history[..|history| - 1]);
      match history[|history| - 1]
      case Begun(i) => r.Begin(i)
      case Finished(i, check) => r.Finish(i, check)
  }

  /** Operations under way: begins minus finishes. */
  function Level(history: seq<Event>): int
  {
    if history == [] then 0
    else Level(history[..|history| - 1]) + (if history[|history| - 1].Begun? then 1 else -1)
  }

  function LevelOn(history: seq<Event>, i: nat): int
  {
    if history == [] then 0
    else
      var e := history[|history| - 1];
      LevelOn(history[..|history| - 1], i) + (if e.dial != i then 0 else if e.Begun? then 1 else -1)
  }

  /** `m` is the largest level over all prefixes of the history. */
  ghost predicate IsPeak(history: seq<Event>, m: int)
  {
    && (forall n :: 0 <= n <= |history| ==> Level(history[..n]) <= m)
    && (exists n :: 0 <= n <= |history| && Level(history[..n]) == m)
  }

  ghost predicate IsPeakOn(history: seq<Event>, i: nat, m: int)
  {
    && (forall n :: 0 <= n <= |history| ==> LevelOn(history[..n], i) <= m)
    && (exists n :: 0 <= n <= |history| && LevelOn(history[..n], i) == m)
  }

  /** A peak over a history and one more event is the larger of the old peak and the new level. */
  lemma PeakGrows(history: seq<Event>, m: int)
    requires history != [] && IsPeak(history[..|history| - 1], m)
    ensures IsPeak(history, if Level(history) > m then Level(history) else m)
  {
    var before := history[..|history| - 1];
    assert forall n :: 0 <= n < |history| ==> history[..n] == before[..n];
    assert history[..|history|] == history;
    if Level(history) <= m {
      var n :| 0 <= n <= |before| && Level(before[..n]) == m;
      assert Level(history[..n]) == m;
    }
  }

  lemma PeakGrowsOn(history: seq<Event>, i: nat, m: int)
    requires history != [] && IsPeakOn(history[..|history| - 1], i, m)
    ensures IsPeakOn(history, i, if LevelOn(history, i) > m then LevelOn(history, i) else m)
  {
    var before := history[..|history| - 1];
    assert forall n :: 0 <= n < |history| ==> history[..n] == before[..n];
    assert history[..|history|] == history;
    if LevelOn(history, i) <= m {
      var n :| 0 <= n <= |before| && LevelOn(before[..n], i) == m;
      assert LevelOn(history[..n], i) == m;
    }
  }

  lemma {:induction false} RecordsLevels(dials: nat, history: seq<Event>, i: nat)
    requires i < dials && forall k :: 0 <= k < |history| ==> history[k].dial < dials
    ensures After(dials, history).active == Level(history)
    ensures After(dials, history).activeByDial[i] == LevelOn(history, i)
  {
    if history != [] {
      RecordsLevels(dials, history[..|history| - 1], i);
    }
  }

  /** The maxima are the peaks of the history, in all and on every connection. */
  lemma {:induction false} MaximaAreExact(dials: nat, history: seq<Event>, i: nat)
    requires i < dials && forall k :: 0 <= k < |history| ==> history[k].dial < dials
    ensures IsPeak(history, After(dials, history).maxActive)
    ensures IsPeakOn(history, i, After(dials, history).maxByDial[i])
  {
    if history == [] {
      assert Level(history[..0]) == 0 && LevelOn(history[..0], i) == 0;
    } else {
      var before := history[..|history| - 1];
      var r := After(dials, before);
      MaximaAreExact(dials, before, i);
      RecordsLevels(dials, before, i);
      RecordsLevels(dials, history, i);
      PeakGrows(history, r.maxActive);
      PeakGrowsOn(history, i, r.maxByDial[i]);
      assert before[..|before|] == before;
      assert Level(before) <= r.maxActive && LevelOn(before, i) <= r.maxByDial[i];
    }
  }

  /** Every finished request is counted once, as successful, failed or timed out. */
  lemma {:induction false} OutcomesAddUp(dials: nat, history: seq<Event>)
    requires forall k :: 0 <= k < |history| ==> history[k].dial < dials
    ensures var r := After(dials, history);
            r.total == r.successful + r.failed + r.timedOut && 2 * r.total + r.active == |history|
  {
    if history != [] {
      OutcomesAddUp(dials, history[..|history| - 1]);
    }
  }

  /** The finishes of each outcome, as the history tells them. */
  predicate TimedOut(e: Event) { e.Finished? && e.check.timedOut }

  predicate Failed(e: Event) { e.Finished? && !e.check.timedOut && !e.check.passed }

  predicate Succeeded(e: Event) { e.Finished? && !e.check.timedOut && e.check.passed }

  /** The payloads of the operations that passed in time. */
  function Payloads(history: seq<Event>): nat
  {
    if history == [] then 0
    else (if Succeeded(history[0]) then history[0].check.payloadLength else 0) + Payloads(history[1..])
  }

  lemma {:induction false} PayloadsSnoc(history: seq<Event>, e: Event)
    ensures Payloads(history + [e]) == Payloads(history) + if Succeeded(e) then e.check.payloadLength else 0
  {
    if history == [] {
      assert (history + [e])[1..] == [];
    } else {
      assert (history + [e])[0] == history[0] && (history + [e])[1..] == history[1..] + [e];
      PayloadsSnoc(history[1..], e);
    }
  }

  /**
   After any history each class counts exactly its finishes, and the octets received are the
   payloads of the operations that passed in time.
   */
  lemma {:induction false} OutcomesAreExact(dials: nat, history: seq<Event>)
    requires forall k :: 0 <= k < |history| ==> history[k].dial < dials
    ensures var r := After(dials, history);
            && r.timedOut == Count(history, TimedOut) && r.failed == Count(history, Failed)
            && r.successful == Count(history, Succeeded) && r.bytesReceived == Payloads(history)
    decreases |history|
  {
    if history != [] {
      var before, e := history[..|history| - 1], history[|history| - 1];
      assert history == before + [e];
      OutcomesAreExact(dials, before);
      CountSnoc(before, TimedOut, e);
      CountSnoc(before, Failed, e);
      CountSnoc(before, Succeeded, e);
      PayloadsSnoc(before, e);
    }
  }

  // ---------------------------------------------------------------- the topology gate

  datatype Config = Config(connections: nat, concurrency: nat, streamsPerConnection: nat)

  datatype Summary = Summary(observedDials: nat, record: Record, peerLimits: seq<nat>)

  datatype Verdict =
    | Accepted
    | ShapeRejected
    | OverConfigured(index: nat)
    | PeerLimited(index: nat)

  /** `uint32(config.StreamsPerConnection)` */
  function ToUint32(n: nat): nat { n % 0x1_0000_0000 }

  /** Connection `i` kept to the configured streams, and its peer advertises that many or more. */
  predicate DialOk(s: Summary, c: Config, i: nat)
    requires i < |s.record.maxByDial| == |s.peerLimits|
  {
    && s.record.maxByDial[i] <= c.streamsPerConnection
    && s.peerLimits[i] != 0 && s.peerLimits[i] >= ToUint32(c.streamsPerConnection)
  }

  /** `validateMeasuredTopology`: the first reason to turn a summary down, in the order of the checks. */
  method ValidateMeasuredTopology(s: Summary, c: Config) returns (v: Verdict)
    ensures v.ShapeRejected? <==>
              || s.observedDials != c.connections || s.record.maxActive != c.concurrency
              || |s.record.maxByDial| != c.connections || |s.peerLimits| != c.connections
    ensures v.Accepted? <==>
              && s.observedDials == c.connections && s.record.maxActive == c.concurrency
              && |s.record.maxByDial| == c.connections && |s.peerLimits| == c.connections
              && forall i :: 0 <= i < c.connections ==>
                   && s.record.maxByDial[i] <= c.streamsPerConnection
                   && s.peerLimits[i] != 0 && s.peerLimits[i] >= c.streamsPerConnection % 0x1_0000_0000
    ensures v.OverConfigured? || v.PeerLimited? ==>
              && v.index < c.connections == |s.record.maxByDial| == |s.peerLimits|
              && (forall i :: 0 <= i < v.index ==> DialOk(s, c, i))
    ensures v.OverConfigured? ==> s.record.maxByDial[v.index] > c.streamsPerConnection
    ensures v.PeerLimited? ==>
              && s.record.maxByDial[v.index] <= c.streamsPerConnection
              && (s.peerLimits[v.index] == 0 || s.peerLimits[v.index] < c.streamsPerConnection % 0x1_0000_0000)
  {
    if s.observedDials != c.connections || s.record.maxActive != c.concurrency ||
       |s.record.maxByDial| != c.connections || |s.peerLimits| != c.connections
    {
      return ShapeRejected;
    }
    for index := 0 to |s.record.maxByDial|
      invariant forall i :: 0 <= i < index ==>
                  && s.record.maxByDial[i] <= c.streamsPerConnection
                  && s.peerLimits[i] != 0 && s.peerLimits[i] >= c.streamsPerConnection % 0x1_0000_0000
    {
      if s.record.maxByDial[index] > c.streamsPerConnection {
        return OverConfigured(index);
      }
      var peerLimit := s.peerLimits[index];
      if peerLimit == 0 || peerLimit < ToUint32(c.streamsPerConnection) {
        return PeerLimited(index);
      }
    }
    return Accepted;
  }

  /** A peer that allows more streams never makes the gate turn down what it accepted. */
  method RaisedLimit(s: Summary, c: Config, i: nat, limit: nat) returns (before: Verdict, after: Verdict)
    requires i < |s.peerLimits| && limit >= s.peerLimits[i]
    ensures before.Accepted? ==> after.Accepted?
    ensures before.ShapeRejected? <==> after.ShapeRejected?
  {
    before := ValidateMeasuredTopology(s, c);
    after := ValidateMeasuredTopology(s.(peerLimits := s.peerLimits[i := limit]), c);
  }
}
