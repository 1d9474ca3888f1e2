/**
 The TLS record observer (section 5.1 of RFC 8446): a parser that counts complete records
 in each direction of a connection, however the bytes are cut into calls.  On a record
 longer than a record can be it forgets what it has buffered.
 */
module TlsRecords {
  import opened Octets
  import opened Incremental

  const MAX_LENGTH: nat := 18432

  /** The record at the front of a buffer. */
  function NextRecord(b: Bytes): Step<Bytes>
  {
    if |b| < 5 then More
    else
      var length := Short(b, 3);
      if length > MAX_LENGTH then Refused
      else if |b| < 5 + length then More
      else Got(b[..5 + length], 5 + length)
  }

  lemma NextRecordStable(b: Bytes, more: Bytes)
    ensures Stable(NextRecord, b, more)
  {
    if |b| >= 5 {
      var length := Short(b, 3);
      if |b| >= 5 + length {
        assert (b + more)[..5 + length] == b[..5 + length];
      }
    }
  }

  lemma NextRecordSteady()
    ensures Steady(NextRecord)
  {
    forall b ensures Sized(NextRecord, b) { }
    forall b, more ensures Stable(NextRecord, b, more) {
      NextRecordStable(b, more);
    }
  }

  // ---------------------------------------------------------------- the parser

  datatype Counter = Counter(pending: Bytes, count: nat, bytes: nat)

  const FRESH := Counter([], 0, 0)

  /** One call, for a parser `next` of records. */
  function Fed(next: Bytes -> Step<Bytes>, c: Counter, value: Bytes): Counter
  {
    var d := Drain(next, c.pending + value);
    Counter(if d.refused then [] else d.rest, c.count + |d.items|, c.bytes + |Concat(d.items)|)
  }

  function FedAll(next: Bytes -> Step<Bytes>, c: Counter, chunks: seq<Bytes>): Counter
    decreases |chunks|
  {
    if chunks == [] then c else FedAll(next, Fed(next, c, chunks[0]), chunks[1..])
  }

  /** `c` is what the counter `start`, fed with `value`, becomes once `taken` is counted. */
  predicate Counting(next: Bytes -> Step<Bytes>, start: Counter, value: Bytes, taken: seq<Bytes>, c: Counter)
  {
    && Underway(next, Drain(next, start.pending + value), taken, c.pending)
    && c.count == start.count + |taken| && c.bytes == start.bytes + |Concat(taken)|
  }

  lemma CountNone(next: Bytes -> Step<Bytes>, start: Counter, value: Bytes)
    ensures Counting(next, start, value, [], start.(pending := start.pending + value))
  {
    Empty(Drain(next, start.pending + value).items);
  }

  lemma CountOne(next: Bytes -> Step<Bytes>, start: Counter, value: Bytes, taken: seq<Bytes>, c: Counter, n: nat)
    requires Counting(next, start, value, taken, c) && 1 <= n <= |c.pending|
    requires next(c.pending) == Got(c.pending[..n], n)
    ensures Counting(next, start, value, taken + [c.pending[..n]], Counter(c.pending[n..], c.count + 1, c.bytes + n))
  {
    TakeOne(next, Drain(next, start.pending + value), taken, c.pending);
    ConcatSnoc(taken, c.pending[..n]);
  }

  lemma CountedAll(next: Bytes -> Step<Bytes>, start: Counter, value: Bytes, taken: seq<Bytes>, c: Counter)
    requires Counting(next, start, value, taken, c) && !next(c.pending).Got?
    ensures Fed(next, start, value) == c.(pending := if next(c.pending).Refused? then [] else c.pending)
  {
    TakeNone(next, Drain(next, start.pending + value), taken, c.pending);
  }

  class TlsRecordParser {
    var pending: Bytes
    var count: nat
    var bytes: nat

    constructor ()
      ensures State() == FRESH
    {
      pending, count, bytes := [], 0, 0;
    }

    function State(): Counter
      reads this
    {
      Counter(pending, count, bytes)
    }

    /** `feed` */
    method Feed(value: Bytes)
      modifies this
      ensures State() == Fed(NextRecord, old(State()), value)
    {
      ghost var start := State();
      ghost var taken: seq<Bytes> := [];
      CountNone(NextRecord, start, value);
      pending := pending + value;
      while |pending| >= 5
        invariant Counting(NextRecord, start, value, taken, State())
        decreases |pending|
      {
        var length := Short(pending, 3);
        if length > MAX_LENGTH {
          CountedAll(NextRecord, start, value, taken, State());
          pending := [];
          return;
        }
        if |pending| < 5 + length {
          CountedAll(NextRecord, start, value, taken, State());
          return;
        }
        CountOne(NextRecord, start, value, taken, State(), 5 + length);
        taken := taken + [pending[..5 + length]];
        count := count + 1;
        bytes := bytes + (5 + length);
        pending := pending[5 + length..];
      }
      CountedAll(NextRecord, start, value, taken, State());
    }
  }

  // ---------------------------------------------------------------- the records of a stream

  function Announced(high: nat, low: nat): nat { 256 * high + low }

  /** Five octets, the last two of which announce at most 18432 more, and those. */
  predicate IsRecord(r: Bytes)
  {
    |r| >= 5 && Announced(r[3], r[4]) <= 18432 && |r| == 5 + Announced(r[3], r[4])
  }

  /** The stream is these records and an incomplete one behind them. */
  predicate Holds(s: Bytes, records: seq<Bytes>, tail: Bytes)
  {
    && s == Concat(records) + tail && NextRecord(tail).More?
    && forall r :: r in records ==> IsRecord(r)
  }

  lemma FrontRecord(r: Bytes, rest: Bytes)
    requires IsRecord(r)
    ensures NextRecord(r + rest) == Got(r, |r|) && (r + rest)[|r|..] == rest
  {
  }

  lemma {:induction false} HoldsDrains(s: Bytes, records: seq<Bytes>, tail: Bytes)
    requires Holds(s, records, tail)
    ensures Drain(NextRecord, s) == Drained(records, tail, false)
    decreases |records|
  {
    if records == [] {
      Empty(tail);
    } else {
      var r, behind := records[0], Concat(records[1..]) + tail;
      assert r in records;
      Assoc(r, Concat(records[1..]), tail);
      FrontRecord(r, behind);
      HoldsDrains(behind, records[1..], tail);
      assert records == [r] + records[1..];
    }
  }

  lemma {:induction false} DrainHolds(s: Bytes)
    ensures var d := Drain(NextRecord, s);
            && s == Concat(d.items) + d.rest && (forall r :: r in d.items ==> IsRecord(r))
            && (if d.refused then NextRecord(d.rest).Refused? else NextRecord(d.rest).More?)
    decreases |s|
  {
    var n := NextRecord(s);
    if n.Got? {
      var behind := s[n.consumed..];
      var d := Drain(NextRecord, behind);
      DrainHolds(behind);
      assert s == n.item + behind;
      Assoc(n.item, Concat(d.items), d.rest);
      assert ([n.item] + d.items)[1..] == d.items;
      assert IsRecord(n.item);
    } else {
      Empty(s);
    }
  }

  /** No record in the stream announces more than a record can hold. */
  predicate InBounds(s: Bytes) { !Drain(NextRecord, s).refused }

  /** A stream within bounds is records and a tail in exactly one way; any other in none. */
  lemma {:induction false} RecordsUnique(s: Bytes)
    ensures InBounds(s) <==> exists records, tail :: Holds(s, records, tail)
    ensures forall records, tail :: Holds(s, records, tail) ==>
              records == Drain(NextRecord, s).items && tail == Drain(NextRecord, s).rest
  {
    DrainHolds(s);
    var d := Drain(NextRecord, s);
    assert InBounds(s) ==> Holds(s, d.items, d.rest);
    forall records, tail | Holds(s, records, tail)
      ensures InBounds(s) && records == d.items && tail == d.rest
    {
      HoldsDrains(s, records, tail);
    }
  }

  // ---------------------------------------------------------------- every cutting

  lemma {:induction false} FedAllInBounds(next: Bytes -> Step<Bytes>, c: Counter, chunks: seq<Bytes>)
    requires Steady(next) && next(c.pending).More?
    requires !Drain(next, c.pending + Concat(chunks)).refused
    ensures FedAll(next, c, chunks) == Fed(next, c, Concat(chunks))
    decreases |chunks|
  {
    if chunks == [] {
      Empty(c.pending);
      assert Drain(next, c.pending) == Drained([], c.pending, false);
    } else {
      var tail := Concat(chunks[1..]);
      var head := c.pending + chunks[0];
      Assoc(c.pending, chunks[0], tail);
      NotRefusedEarlier(next, head, tail);
      DrainContinues(next, head, tail);
      DrainLeavesNone(next, head);
      var d := Drain(next, head);
      ConcatAppend(d.items, Drain(next, d.rest + tail).items);
      FedAllInBounds(next, Fed(next, c, chunks[0]), chunks[1..]);
    }
  }

  lemma NotRefusedEarlier(next: Bytes -> Step<Bytes>, head: Bytes, tail: Bytes)
    requires Steady(next)
    ensures Drain(next, head).refused ==> Drain(next, head + tail).refused
  {
    if Drain(next, head).refused {
      RefusalStays(next, head, tail);
    }
  }

  /**
   However a stream within bounds is cut, the parser counts its records and their octets and
   keeps its tail.
   */
  lemma {:induction false} CountsAreExact(chunks: seq<Bytes>, records: seq<Bytes>, tail: Bytes)
    requires Holds(Concat(chunks), records, tail)
    ensures FedAll(NextRecord, FRESH, chunks) == Counter(tail, |records|, |Concat(records)|)
  {
    HoldsDrains(Concat(chunks), records, tail);
    NextRecordSteady();
    FedFresh(NextRecord, chunks, records, tail);
  }

  lemma FedFresh(next: Bytes -> Step<Bytes>, chunks: seq<Bytes>, records: seq<Bytes>, tail: Bytes)
    requires Steady(next) && next([]).More? && Drain(next, Concat(chunks)) == Drained(records, tail, false)
    ensures FedAll(next, FRESH, chunks) == Counter(tail, |records|, |Concat(records)|)
  {
    Empty(Concat(chunks));
    FedAllInBounds(next, FRESH, chunks);
  }

  /** An item is the octets it takes, and a refusal needs a header of five. */
  predicate Cut(next: Bytes -> Step<Bytes>, b: Bytes)
  {
    && (next(b).Got? ==> next(b).consumed <= |b| && next(b).item == b[..next(b).consumed])
    && (next(b).Refused? ==> |b| >= 5)
  }

  lemma {:induction false} DrainIsWhole(next: Bytes -> Step<Bytes>, s: Bytes)
    requires Steady(next) && forall b :: Cut(next, b)
    ensures var d := Drain(next, s); |s| == |Concat(d.items)| + |d.rest| && (d.refused ==> |d.rest| >= 5)
    decreases |s|
  {
    assert Sized(next, s) && Cut(next, s);
    if next(s).Got? {
      var d := Drain(next, s[next(s).consumed..]);
      DrainIsWhole(next, s[next(s).consumed..]);
      assert ([next(s).item] + d.items)[1..] == d.items;
    }
  }

  lemma {:induction false} NothingGained(next: Bytes -> Step<Bytes>, c: Counter, chunks: seq<Bytes>)
    requires Steady(next) && (forall b :: Cut(next, b)) && next([]).More? && next(c.pending).More?
    ensures var e := FedAll(next, c, chunks);
            && e.bytes + |e.pending| <= c.bytes + |c.pending| + |Concat(chunks)|
            && (e.bytes + |e.pending| == c.bytes + |c.pending| + |Concat(chunks)| <==>
                !Drain(next, c.pending + Concat(chunks)).refused)
    decreases |chunks|
  {
    if chunks == [] {
      Empty(c.pending);
    } else {
      var tail, head := Concat(chunks[1..]), c.pending + chunks[0];
      Assoc(c.pending, chunks[0], tail);
      DrainIsWhole(next, head);
      DrainLeavesNone(next, head);
      NothingGained(next, Fed(next, c, chunks[0]), chunks[1..]);
      if Drain(next, head).refused {
        RefusalStays(next, head, tail);
      } else {
        DrainContinues(next, head, tail);
      }
    }
  }

  lemma NextRecordCuts()
    ensures forall b :: Cut(NextRecord, b)
  {
  }

  /**
   Octets counted and octets buffered are the octets fed if and only if the stream is complete
   records and an incomplete one.
   */
  lemma {:induction false} Conservation(chunks: seq<Bytes>)
    ensures var e := FedAll(NextRecord, FRESH, chunks);
            e.bytes + |e.pending| == |Concat(chunks)| <==> exists records, tail :: Holds(Concat(chunks), records, tail)
  {
    Empty(Concat(chunks));
    NextRecordSteady();
    NextRecordCuts();
    NothingGained(NextRecord, FRESH, chunks);
    RecordsUnique(Concat(chunks));
  }

  // ---------------------------------------------------------------- when the cutting matters

  lemma {:induction false} EmptyChunks(next: Bytes -> Step<Bytes>, c: Counter, chunks: seq<Bytes>)
    requires next(c.pending).More? && Concat(chunks) == []
    ensures FedAll(next, c, chunks) == c
    decreases |chunks|
  {
    if chunks != [] {
      assert chunks[0] == [] && Concat(chunks[1..]) == [];
      Empty(c.pending);
      EmptyChunks(next, c, chunks[1..]);
    }
  }

  /** A stream that ends with the header it is refused for. */
  lemma {:induction false} RefusedAtEnd(next: Bytes -> Step<Bytes>, c: Counter, chunks: seq<Bytes>)
    requires Steady(next) && (forall b :: Cut(next, b)) && next([]).More? && next(c.pending).More?
    requires var d := Drain(next, c.pending + Concat(chunks)); d.refused && |d.rest| == 5
    ensures FedAll(next, c, chunks) == Fed(next, c, Concat(chunks))
    decreases |chunks|
  {
    if chunks == [] {
      Empty(c.pending);
    } else {
      var tail, head := Concat(chunks[1..]), c.pending + chunks[0];
      var d := Drain(next, head);
      Assoc(c.pending, chunks[0], tail);
      if d.refused {
        RefusalStays(next, head, tail);
        DrainIsWhole(next, head);
        assert tail == [];
        EmptyChunks(next, Fed(next, c, chunks[0]), chunks[1..]);
      } else {
        DrainContinues(next, head, tail);
        DrainLeavesNone(next, head);
        ConcatAppend(d.items, Drain(next, d.rest + tail).items);
        RefusedAtEnd(next, Fed(next, c, chunks[0]), chunks[1..]);
      }
    }
  }

  /** One more octet completes at most a header, so nothing is behind a refusal it causes. */
  predicate Prompt(next: Bytes -> Step<Bytes>, b: Bytes, last: byte)
  {
    next(b).More? ==>
      var n := next(b + [last]);
      && (n.Refused? ==> |b| == 4)
      && (n.Got? ==> n.consumed == |b| + 1)
  }

  lemma RefusedEarlier(next: Bytes -> Step<Bytes>, head: Bytes, last: byte)
    requires Steady(next) && (forall b, l :: Prompt(next, b, l)) && next([]).More?
    ensures var d := Drain(next, head + [last]); d.refused && |d.rest| > 5 ==> Drain(next, head).refused
  {
    var e := Drain(next, head);
    if !e.refused {
      DrainContinues(next, head, [last]);
      DrainLeavesNone(next, head);
      assert Prompt(next, e.rest, last);
      var all := e.rest + [last];
      assert next(all).Got? ==> all[next(all).consumed..] == [];
    }
  }

  /** Octets behind the refused header: the last one, fed alone, is kept. */
  lemma LastOctetKept(next: Bytes -> Step<Bytes>, head: Bytes, last: byte)
    requires Drain(next, head).refused && next([last]).More?
    ensures Concat([head, [last]]) == head + [last]
    ensures FedAll(next, FRESH, [head, [last]]).pending == [last]
  {
    var chunks, behind: seq<Bytes> := [head, [last]], [[last]];
    assert chunks[1..] == behind && behind[1..] == [];
    Empty([last]);
    Empty(head);
    var c := Fed(next, FRESH, head);
    assert FedAll(next, FRESH, chunks) == FedAll(next, c, behind) == Fed(next, c, [last]);
  }

  lemma NextRecordPrompt()
    ensures forall b, l :: Prompt(NextRecord, b, l)
  {
  }

  /** Some cutting leaves other counters or another buffer than one call does. */
  ghost predicate StateDepends(next: Bytes -> Step<Bytes>, s: Bytes)
  {
    exists chunks :: Concat(chunks) == s && FedAll(next, FRESH, chunks) != Fed(next, FRESH, s)
  }

  lemma {:induction false} RefusalDropsBuffer(next: Bytes -> Step<Bytes>, s: Bytes)
    requires Drain(next, s).refused
    ensures Fed(next, FRESH, s).pending == []
  {
    Empty(s);
  }

  lemma {:induction false} CuttingWithOctetsBehind(next: Bytes -> Step<Bytes>, head: Bytes, last: byte)
    requires Steady(next) && (forall b, l :: Prompt(next, b, l)) && next([]).More? && next([last]).More?
    requires var d := Drain(next, head + [last]); d.refused && |d.rest| > 5
    ensures StateDepends(next, head + [last])
  {
    RefusedEarlier(next, head, last);
    LastOctetKept(next, head, last);
    RefusalDropsBuffer(next, head + [last]);
    assert FedAll(next, FRESH, [head, [last]]) != Fed(next, FRESH, head + [last]);
  }

  /** Records, and behind them a header that announces too much. */
  predicate Oversize(s: Bytes, records: seq<Bytes>, tail: Bytes)
  {
    && s == Concat(records) + tail && (forall r :: r in records ==> IsRecord(r))
    && |tail| >= 5 && Announced(tail[3], tail[4]) > 18432
  }

  /** The same with more octets behind the header. */
  predicate LateOversize(s: Bytes, records: seq<Bytes>, tail: Bytes)
  {
    Oversize(s, records, tail) && |tail| > 5
  }

  lemma {:induction false} OversizeDrains(s: Bytes, records: seq<Bytes>, tail: Bytes)
    requires Oversize(s, records, tail)
    ensures Drain(NextRecord, s) == Drained(records, tail, true)
    decreases |records|
  {
    if records == [] {
      Empty(tail);
    } else {
      var r, behind := records[0], Concat(records[1..]) + tail;
      assert r in records;
      Assoc(r, Concat(records[1..]), tail);
      FrontRecord(r, behind);
      OversizeDrains(behind, records[1..], tail);
      assert records == [r] + records[1..];
    }
  }

  lemma OversizeExactlyWhen(s: Bytes)
    ensures (var d := Drain(NextRecord, s); d.refused && |d.rest| > 5) <==>
            exists records, tail :: LateOversize(s, records, tail)
  {
    var d := Drain(NextRecord, s);
    DrainHolds(s);
    if d.refused && |d.rest| > 5 {
      assert LateOversize(s, d.items, d.rest);
    }
    forall records, tail | LateOversize(s, records, tail) ensures d.refused && |d.rest| > 5 {
      OversizeDrains(s, records, tail);
    }
  }

  lemma {:induction false} LateDepends(next: Bytes -> Step<Bytes>, s: Bytes)
    requires Steady(next) && (forall b, l :: Prompt(next, b, l)) && next([]).More? && s != []
    requires next([s[|s| - 1]]).More?
    requires var d := Drain(next, s); d.refused && |d.rest| > 5
    ensures StateDepends(next, s)
  {
    var head, last := s[..|s| - 1], s[|s| - 1];
    assert head + [last] == s;
    CuttingWithOctetsBehind(next, head, last);
  }

  lemma {:induction false} ElseIndifferent(next: Bytes -> Step<Bytes>, s: Bytes, chunks: seq<Bytes>)
    requires Steady(next) && (forall b :: Cut(next, b)) && next([]).More? && Concat(chunks) == s
    requires var d := Drain(next, s); !d.refused || |d.rest| == 5
    ensures FedAll(next, FRESH, chunks) == Fed(next, FRESH, s)
  {
    Empty(s);
    if Drain(next, s).refused {
      RefusedAtEnd(next, FRESH, chunks);
    } else {
      FedAllInBounds(next, FRESH, chunks);
    }
  }

  lemma {:induction false} StateDependsWhenRefused(s: Bytes)
    ensures StateDepends(NextRecord, s) <==> (var d := Drain(NextRecord, s); d.refused && |d.rest| > 5)
  {
    var d := Drain(NextRecord, s);
    NextRecordSteady();
    NextRecordCuts();
    DrainIsWhole(NextRecord, s);
    if d.refused && |d.rest| > 5 {
      NextRecordPrompt();
      LateDepends(NextRecord, s);
    } else {
      forall chunks | Concat(chunks) == s ensures FedAll(NextRecord, FRESH, chunks) == Fed(NextRecord, FRESH, s) {
        ElseIndifferent(NextRecord, s, chunks);
      }
    }
  }

  /**
   Counters and buffer together depend on the cutting if and only if the stream is records
   followed by a header that announces too much and at least one octet behind it.
   */
  lemma {:induction false} StateDependsExactlyWhen(s: Bytes)
    ensures StateDepends(NextRecord, s) <==> exists records, tail :: LateOversize(s, records, tail)
  {
    StateDependsWhenRefused(s);
    OversizeExactlyWhen(s);
  }

  // ---------------------------------------------------------------- when the counters show it

  /** Some cutting counts other records or octets than one call does. */
  ghost predicate CountersDepend(next: Bytes -> Step<Bytes>, s: Bytes)
  {
    exists chunks :: Concat(chunks) == s && TotalsOf(FedAll(next, FRESH, chunks)) != TotalsOf(Fed(next, FRESH, s))
  }

  /** A parser that starts anew somewhere in a stream and counts something has an item in front there. */
  lemma {:induction false} StartsSomewhere(next: Bytes -> Step<Bytes>, c: Counter, chunks: seq<Bytes>) returns (j: nat)
    requires Steady(next) && next([]).More? && next(c.pending).More?
    requires TotalsOf(FedAll(next, c, chunks)) != TotalsOf(c)
    ensures var x := c.pending + Concat(chunks); j <= |x| && next(x[j..]).Got?
    decreases |chunks|
  {
    var head, tail := c.pending + chunks[0], Concat(chunks[1..]);
    Assoc(c.pending, chunks[0], tail);
    var d := Drain(next, head);
    assert Sized(next, head) && Stable(next, head, tail);
    if next(head).Got? {
      j := 0;
      assert (head + tail)[0..] == head + tail;
    } else {
      DrainUnfolds(next, head);
      Empty(tail);
      var i := StartsSomewhere(next, Fed(next, c, chunks[0]), chunks[1..]);
      if next(head).Refused? {
        j := |head| + i;
        assert (head + tail)[j..] == tail[i..];
      } else {
        j := i;
      }
    }
  }

  /** A call that refuses nothing can be joined with the next. */
  lemma {:induction false} FedContinues(next: Bytes -> Step<Bytes>, c: Counter, a: Bytes, b: Bytes)
    requires Steady(next) && !Drain(next, c.pending + a).refused
    ensures var e := Fed(next, c, a);
            && next(e.pending).More? && Fed(next, e, b) == Fed(next, c, a + b)
            && Drain(next, c.pending + (a + b)).rest == Drain(next, e.pending + b).rest
            && Drain(next, c.pending + (a + b)).refused == Drain(next, e.pending + b).refused
  {
    var d := Drain(next, c.pending + a);
    Assoc(c.pending, a, b);
    DrainContinues(next, c.pending + a, b);
    DrainLeavesNone(next, c.pending + a);
    ConcatAppend(d.items, Drain(next, d.rest + b).items);
  }

  /** A call that refuses settles what one call would count. */
  lemma {:induction false} FedRefused(next: Bytes -> Step<Bytes>, c: Counter, a: Bytes, b: Bytes)
    requires Steady(next) && (forall x :: Cut(next, x)) && Drain(next, c.pending + a).refused
    ensures Fed(next, c, a + b) == Fed(next, c, a) && Fed(next, c, a).pending == []
    ensures var rest := Drain(next, c.pending + a).rest;
            |rest| >= 5 && Drain(next, c.pending + (a + b)).rest == rest + b
  {
    Assoc(c.pending, a, b);
    RefusalStays(next, c.pending + a, b);
    DrainIsWhole(next, c.pending + a);
  }

  /** A cutting that counts more than one call has an item in front somewhere behind the refused header. */
  lemma {:induction false} CountsBehind(next: Bytes -> Step<Bytes>, c: Counter, chunks: seq<Bytes>) returns (k: nat)
    requires Steady(next) && (forall b :: Cut(next, b)) && next([]).More? && next(c.pending).More?
    requires Drain(next, c.pending + Concat(chunks)).refused
    requires TotalsOf(FedAll(next, c, chunks)) != TotalsOf(Fed(next, c, Concat(chunks)))
    ensures var rest := Drain(next, c.pending + Concat(chunks)).rest;
            5 <= k <= |rest| && next(rest[k..]).Got?
    decreases |chunks|
  {
    if chunks == [] {
      Empty(c.pending);
      assert false;
    } else {
      var a, tail := chunks[0], Concat(chunks[1..]);
      var e := Fed(next, c, a);
      if Drain(next, c.pending + a).refused {
        FedRefused(next, c, a, tail);
        var rest := Drain(next, c.pending + a).rest;
        Empty(tail);
        var i := StartsSomewhere(next, e, chunks[1..]);
        k := |rest| + i;
        assert (rest + tail)[k..] == tail[i..];
      } else {
        FedContinues(next, c, a, tail);
        k := CountsBehind(next, e, chunks[1..]);
      }
    }
  }

  /** A record stands complete somewhere behind a header that announces too much. */
  predicate RecordBehind(s: Bytes, records: seq<Bytes>, tail: Bytes, k: nat, j: nat)
  {
    Oversize(s, records, tail) && 5 <= k <= j <= |tail| && IsRecord(tail[k..j])
  }

  lemma {:induction false} FedTwice(next: Bytes -> Step<Bytes>, head: Bytes, behind: Bytes)
    ensures Concat([head, behind]) == head + behind
    ensures FedAll(next, FRESH, [head, behind]) == Fed(next, Fed(next, FRESH, head), behind)
  {
    var chunks, last: seq<Bytes> := [head, behind], [behind];
    assert chunks[1..] == last && last[1..] == [];
    Empty(behind);
    assert Concat(last) == behind;
    var c := Fed(next, FRESH, head);
    assert FedAll(next, FRESH, chunks) == FedAll(next, c, last);
  }

  /** A refusal in the first of two calls, and an item in front of the second. */
  lemma {:induction false} TwoCallsCount(next: Bytes -> Step<Bytes>, head: Bytes, behind: Bytes)
    requires Steady(next) && Drain(next, head).refused && Drain(next, behind).items != []
    ensures CountersDepend(next, head + behind)
  {
    var d := Drain(next, head);
    RefusalStays(next, head, behind);
    FedTwice(next, head, behind);
    Empty(head);
    Empty(behind);
    Empty(head + behind);
    assert Fed(next, FRESH, head) == Counter([], |d.items|, |Concat(d.items)|);
    assert TotalsOf(FedAll(next, FRESH, [head, behind])) != TotalsOf(Fed(next, FRESH, head + behind));
  }

  lemma {:induction false} RecordBehindCounts(s: Bytes, records: seq<Bytes>, tail: Bytes, k: nat, j: nat)
    requires RecordBehind(s, records, tail, k, j)
    ensures CountersDepend(NextRecord, s)
  {
    var head, behind := Concat(records) + tail[..k], tail[k..];
    SplitAt(Concat(records), tail, k);
    OversizeDrains(head, records, tail[..k]);
    assert behind[..j - k] == tail[k..j];
    RecordInFront(behind, j - k);
    NextRecordSteady();
    TwoCallsCount(NextRecord, head, behind);
  }

  lemma {:induction false} RecordInFront(b: Bytes, n: nat)
    requires n <= |b| && IsRecord(b[..n])
    ensures Drain(NextRecord, b).items != []
  {
    assert b == b[..n] + b[n..];
    FrontRecord(b[..n], b[n..]);
  }

  /**
   The counters depend on the cutting if and only if the stream is records followed by a
   header that announces too much and a complete record stands somewhere behind that header.
   */
  lemma {:induction false} CuttingMattersExactlyWhen(s: Bytes)
    ensures CountersDepend(NextRecord, s) <==>
            exists records, tail, k, j :: RecordBehind(s, records, tail, k, j)
  {
    forall records, tail, k, j | RecordBehind(s, records, tail, k, j) ensures CountersDepend(NextRecord, s) {
      RecordBehindCounts(s, records, tail, k, j);
    }
    if CountersDepend(NextRecord, s) {
      var chunks :| Concat(chunks) == s &&
                    TotalsOf(FedAll(NextRecord, FRESH, chunks)) != TotalsOf(Fed(NextRecord, FRESH, s));
      var records, tail, k, j := FindRecordBehind(s, chunks);
    }
  }

  lemma {:induction false} FindBehind(next: Bytes -> Step<Bytes>, s: Bytes, chunks: seq<Bytes>) returns (k: nat)
    requires Steady(next) && (forall b :: Cut(next, b)) && next([]).More? && Concat(chunks) == s
    requires TotalsOf(FedAll(next, FRESH, chunks)) != TotalsOf(Fed(next, FRESH, s))
    ensures var d := Drain(next, s); d.refused && 5 <= k <= |d.rest| && next(d.rest[k..]).Got?
  {
    Empty(s);
    if Drain(next, s).refused {
      k := CountsBehind(next, FRESH, chunks);
    } else {
      FedAllInBounds(next, FRESH, chunks);
    }
  }

  lemma {:induction false} SliceOf(t: Bytes, k: nat, n: nat)
    requires k + n <= |t|
    ensures t[k..][..n] == t[k..k + n]
  {
  }

  lemma {:induction false} RecordAt(tail: Bytes, k: nat) returns (j: nat)
    requires k <= |tail| && NextRecord(tail[k..]).Got?
    ensures k <= j <= |tail| && IsRecord(tail[k..j])
  {
    var n := NextRecord(tail[k..]).consumed;
    j := k + n;
    SliceOf(tail, k, n);
    assert IsRecord(tail[k..][..n]);
  }

  lemma {:induction false} FindRecordBehind(s: Bytes, chunks: seq<Bytes>)
    returns (records: seq<Bytes>, tail: Bytes, k: nat, j: nat)
    requires Concat(chunks) == s && TotalsOf(FedAll(NextRecord, FRESH, chunks)) != TotalsOf(Fed(NextRecord, FRESH, s))
    ensures RecordBehind(s, records, tail, k, j)
  {
    records, tail := Drain(NextRecord, s).items, Drain(NextRecord, s).rest;
    NextRecordSteady();
    NextRecordCuts();
    DrainHolds(s);
    k := FindBehind(NextRecord, s, chunks);
    j := RecordAt(tail, k);
  }

  // ---------------------------------------------------------------- windows

  /** What passes through the connection, in order. */
  datatype Traffic = Sent(octets: Bytes) | Received(octets: Bytes)

  datatype Totals = Totals(records: int, octets: int)

  datatype Snapshot = Snapshot(sent: Totals, received: Totals)

  /** The chunks of one direction. */
  function Direction(traffic: seq<Traffic>, sent: bool): seq<Bytes>
  {
    if traffic == [] then []
    else (if traffic[0].Sent? == sent then [traffic[0].octets] else []) + Direction(traffic[1..], sent)
  }

  function Minus(a: Totals, b: Totals): Totals { Totals(a.records - b.records, a.octets - b.octets) }

  /** `subtractSnapshot` */
  function SubtractSnapshot(a: Snapshot, b: Snapshot): Snapshot
  {
    Snapshot(Minus(a.sent, b.sent), Minus(a.received, b.received))
  }

  function TotalsOf(c: Counter): Totals { Totals(c.count, c.bytes) }

  function SnapshotAfter(traffic: seq<Traffic>): Snapshot
  {
    Snapshot(TotalsOf(FedAll(NextRecord, FRESH, Direction(traffic, true))),
             TotalsOf(FedAll(NextRecord, FRESH, Direction(traffic, false))))
  }

  /** `recordObservingConn`; `traffic` is what has passed through it. */
  class RecordObservingConn {
    const sent: TlsRecordParser
    const received: TlsRecordParser
    ghost var traffic: seq<Traffic>

    constructor ()
      ensures Valid() && traffic == [] && fresh(sent) && fresh(received)
    {
      sent := new TlsRecordParser();
      received := new TlsRecordParser();
      traffic := [];
    }

    ghost predicate Valid()
      reads this, sent, received
    {
      && sent != received
      && sent.State() == FedAll(NextRecord, FRESH, Direction(traffic, true))
      && received.State() == FedAll(NextRecord, FRESH, Direction(traffic, false))
    }

    /** `Write`, of which the connection took the first `n` octets */
    method Write(p: Bytes, n: nat)
      requires Valid() && n <= |p|
      modifies this, sent
      ensures Valid() && traffic == old(traffic) + [Sent(p[..n])]
    {
      DirectionSnoc(traffic, Sent(p[..n]), true);
      DirectionSnoc(traffic, Sent(p[..n]), false);
      Empty(Direction(traffic, false));
      FedAllSnoc(NextRecord, FRESH, Direction(traffic, true), p[..n]);
      sent.Feed(p[..n]);
      traffic := traffic + [Sent(p[..n])];
    }

    /** `Read`, which delivered the octets `p` */
    method Read(p: Bytes)
      requires Valid()
      modifies this, received
      ensures Valid() && traffic == old(traffic) + [Received(p)]
    {
      DirectionSnoc(traffic, Received(p), true);
      Empty(Direction(traffic, true));
      DirectionSnoc(traffic, Received(p), false);
      FedAllSnoc(NextRecord, FRESH, Direction(traffic, false), p);
      received.Feed(p);
      traffic := traffic + [Received(p)];
    }

    method TakeSnapshot() returns (r: Snapshot)
      requires Valid()
      ensures r == SnapshotAfter(traffic)
    {
      r := Snapshot(Totals(sent.count, sent.bytes), Totals(received.count, received.bytes));
    }
  }

  lemma {:induction false} DirectionAppend(a: seq<Traffic>, b: seq<Traffic>, sent: bool)
    ensures Direction(a + b, sent) == Direction(a, sent) + Direction(b, sent)
  {
    if a == [] {
      Empty(b);
      Empty(Direction(b, sent));
    } else {
      assert (a + b)[1..] == a[1..] + b;
      DirectionAppend(a[1..], b, sent);
      Assoc(if a[0].Sent? == sent then [a[0].octets] else [], Direction(a[1..], sent), Direction(b, sent));
    }
  }

  lemma DirectionSnoc(a: seq<Traffic>, t: Traffic, sent: bool)
    ensures Direction(a + [t], sent) == Direction(a, sent) + if t.Sent? == sent then [t.octets] else []
  {
    DirectionAppend(a, [t], sent);
    assert [t][1..] == [];
    Empty(if t.Sent? == sent then [t.octets] else []);
  }

  lemma {:induction false} FedAllSnoc(next: Bytes -> Step<Bytes>, c: Counter, chunks: seq<Bytes>, value: Bytes)
    ensures FedAll(next, c, chunks + [value]) == Fed(next, FedAll(next, c, chunks), value)
    decreases |chunks|
  {
    if chunks == [] {
      Empty([value]);
      assert [value][1..] == [];
    } else {
      assert (chunks + [value])[1..] == chunks[1..] + [value];
      FedAllSnoc(next, Fed(next, c, chunks[0]), chunks[1..], value);
    }
  }

  /** Records completed in a window extend those completed before it. */
  lemma WindowRecords(next: Bytes -> Step<Bytes>, a: Bytes, b: Bytes)
    requires Steady(next) && !Drain(next, a + b).refused
    ensures !Drain(next, a).refused && Drain(next, a).items <= Drain(next, a + b).items
  {
    NotRefusedEarlier(next, a, b);
    DrainContinues(next, a, b);
  }

  /** The records of one direction that are completed in a window, in order. */
  function Completed(a: Bytes, b: Bytes): seq<Bytes>
    requires InBounds(a + b)
  {
    NextRecordSteady();
    WindowRecords(NextRecord, a, b);
    Drain(NextRecord, a + b).items[|Drain(NextRecord, a).items|..]
  }

  lemma WindowTotals(next: Bytes -> Step<Bytes>, before: seq<Bytes>, during: seq<Bytes>,
                     a: Bytes, b: Bytes, ws: seq<Bytes>)
    requires Steady(next) && next([]).More? && a == Concat(before) && b == Concat(during)
    requires !Drain(next, a + b).refused && Drain(next, a + b).items == Drain(next, a).items + ws
    ensures Minus(TotalsOf(FedAll(next, FRESH, before + during)), TotalsOf(FedAll(next, FRESH, before)))
            == Totals(|ws|, |Concat(ws)|)
  {
    NotRefusedEarlier(next, a, b);
    ConcatAppend(before, during);
    Empty(a);
    Empty(a + b);
    FedAllInBounds(next, FRESH, before);
    FedAllInBounds(next, FRESH, before + during);
    ConcatAppend(Drain(next, a).items, ws);
  }

  lemma OneDirection(before: seq<Bytes>, during: seq<Bytes>)
    requires InBounds(Concat(before) + Concat(during))
    ensures var ws := Completed(Concat(before), Concat(during));
            Minus(TotalsOf(FedAll(NextRecord, FRESH, before + during)), TotalsOf(FedAll(NextRecord, FRESH, before)))
            == Totals(|ws|, |Concat(ws)|)
  {
    var a, b := Concat(before), Concat(during);
    NextRecordSteady();
    WindowRecords(NextRecord, a, b);
    var ws := Completed(a, b);
    WindowTotals(NextRecord, before, during, a, b, ws);
  }

  /**
   The difference of two snapshots is, in each direction, the number and the octets of the
   records completed between them, whatever the interleaving and the cutting.
   */
  lemma {:induction false} WindowIsExact(before: seq<Traffic>, during: seq<Traffic>)
    requires forall sent :: InBounds(Concat(Direction(before, sent)) + Concat(Direction(during, sent)))
    ensures var delta := SubtractSnapshot(SnapshotAfter(before + during), SnapshotAfter(before));
            var ws := Completed(Concat(Direction(before, true)), Concat(Direction(during, true)));
            var wr := Completed(Concat(Direction(before, false)), Concat(Direction(during, false)));
            delta == Snapshot(Totals(|ws|, |Concat(ws)|), Totals(|wr|, |Concat(wr)|))
  {
    DirectionAppend(before, during, true);
    DirectionAppend(before, during, false);
    OneDirection(Direction(before, true), Direction(during, true));
    OneDirection(Direction(before, false), Direction(during, false));
  }
}
