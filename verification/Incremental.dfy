/**
 Incremental parsing: a buffer from which complete items are taken one after another, fed
 by calls that cut the byte stream anywhere.

 A parser is a function on the buffer.  It is steady when an item takes at least one byte
 and at most those present, and bytes arriving later change neither an item that is
 complete nor a refusal.
 */
module Incremental {
  import opened Octets

  datatype Step<+T> = More | Refused | Got(item: T, consumed: nat)

  /** What a buffer yields: its complete items, what is left, and whether the parser refused. */
  datatype Drained<+T> = Drained(items: seq<T>, rest: Bytes, refused: bool)

  predicate Sized<T>(next: Bytes -> Step<T>, b: Bytes)
  {
    next(b).Got? ==> 1 <= next(b).consumed <= |b|
  }

  predicate Stable<T(==)>(next: Bytes -> Step<T>, b: Bytes, more: Bytes)
  {
    !next(b).More? ==> next(b + more) == next(b)
  }

  ghost predicate Steady<T>(next: Bytes -> Step<T>)
  {
    && (forall b :: Sized(next, b))
    && (forall b, more :: Stable(next, b, more))
  }

  function Drain<T>(next: Bytes -> Step<T>, b: Bytes): Drained<T>
    decreases |b|
  {
    var s := next(b);
    if s.Got? && 1 <= s.consumed <= |b| then
      var d := Drain(next, b[s.consumed..]);
      Drained([s.item] + d.items, d.rest, d.refused)
    else Drained([], b, s.Refused?)
  }

  lemma DrainUnfolds<T>(next: Bytes -> Step<T>, b: Bytes)
    requires Sized(next, b)
    ensures !next(b).Got? ==> Drain(next, b) == Drained([], b, next(b).Refused?)
    ensures next(b).Got? ==>
              var d := Drain(next, b[next(b).consumed..]);
              Drain(next, b) == Drained([next(b).item] + d.items, d.rest, d.refused)
  {
  }

  /** The calls a transport makes, one per chunk, up to the first that refuses. */
  function FeedAll<T>(next: Bytes -> Step<T>, b: Bytes, chunks: seq<Bytes>): Drained<T>
    decreases |chunks|
  {
    if chunks == [] then Drained([], b, false)
    else
      var d := Drain(next, b + chunks[0]);
      if d.refused then Drained([], d.rest, true)
      else
        var e := FeedAll(next, d.rest, chunks[1..]);
        Drained(d.items + e.items, e.rest, e.refused)
  }

  /** `taken` are the first items of `whole`, and the others are in `b`. */
  predicate Underway<T(==)>(next: Bytes -> Step<T>, whole: Drained<T>, taken: seq<T>, b: Bytes)
  {
    var d := Drain(next, b);
    whole == Drained(taken + d.items, d.rest, d.refused)
  }

  lemma TakeOne<T>(next: Bytes -> Step<T>, whole: Drained<T>, taken: seq<T>, b: Bytes)
    requires Underway(next, whole, taken, b) && next(b).Got? && Sized(next, b)
    ensures Underway(next, whole, taken + [next(b).item], b[next(b).consumed..])
  {
    DrainUnfolds(next, b);
    Assoc(taken, [next(b).item], Drain(next, b[next(b).consumed..]).items);
  }

  lemma TakeNone<T>(next: Bytes -> Step<T>, whole: Drained<T>, taken: seq<T>, b: Bytes)
    requires Underway(next, whole, taken, b) && !next(b).Got?
    ensures whole == Drained(taken, b, next(b).Refused?)
  {
    DrainUnfolds(next, b);
    Empty(taken);
  }

  /** Feeding further bytes continues where the buffer stopped. */
  lemma {:induction false} DrainContinues<T>(next: Bytes -> Step<T>, b: Bytes, more: Bytes)
    requires Steady(next) && !Drain(next, b).refused
    ensures var d, e := Drain(next, b), Drain(next, Drain(next, b).rest + more);
            Drain(next, b + more) == Drained(d.items + e.items, e.rest, e.refused)
    decreases |b|
  {
    assert Sized(next, b) && Stable(next, b, more);
    if next(b).Got? {
      var n := next(b).consumed;
      assert (b + more)[n..] == b[n..] + more;
      DrainContinues(next, b[n..], more);
    }
  }

  /** A refusal stays, behind the same items and in front of all that follows. */
  lemma {:induction false} RefusalStays<T>(next: Bytes -> Step<T>, b: Bytes, more: Bytes)
    requires Steady(next) && Drain(next, b).refused
    ensures Drain(next, b + more) == Drained(Drain(next, b).items, Drain(next, b).rest + more, true)
    decreases |b|
  {
    assert Sized(next, b) && Stable(next, b, more);
    if next(b).Got? {
      var n := next(b).consumed;
      assert (b + more)[n..] == b[n..] + more;
      RefusalStays(next, b[n..], more);
    }
  }

  /** A drained buffer holds no complete item. */
  lemma {:induction false} DrainLeavesNone<T>(next: Bytes -> Step<T>, b: Bytes)
    requires Steady(next)
    ensures var d := Drain(next, b); if d.refused then next(d.rest).Refused? else next(d.rest).More?
    decreases |b|
  {
    assert Sized(next, b);
    if next(b).Got? {
      DrainLeavesNone(next, b[next(b).consumed..]);
    }
  }

  /** From a buffer without a complete item, any cutting gives what one call gives. */
  lemma {:induction false} FeedAllFrom<T>(next: Bytes -> Step<T>, b: Bytes, chunks: seq<Bytes>)
    requires Steady(next) && next(b).More?
    ensures var whole, fed := Drain(next, b + Concat(chunks)), FeedAll(next, b, chunks);
            && fed.refused == whole.refused
            && (!whole.refused ==> fed == whole)
            && fed.items <= whole.items
    decreases |chunks|
  {
    if chunks == [] {
      assert b + [] == b;
    } else {
      var head, tail := b + chunks[0], Concat(chunks[1..]);
      assert b + Concat(chunks) == head + tail;
      if Drain(next, head).refused {
        RefusalStays(next, head, tail);
      } else {
        DrainContinues(next, head, tail);
        DrainLeavesNone(next, head);
        FeedAllFrom(next, Drain(next, head).rest, chunks[1..]);
      }
    }
  }

  /** A stream cut in two. */
  lemma TwoCalls<T>(next: Bytes -> Step<T>, head: Bytes, tail: Bytes)
    ensures var d := Drain(next, head);
            var e := Drain(next, d.rest + tail);
            FeedAll(next, [], [head, tail]).items ==
              if d.refused then [] else d.items + if e.refused then [] else e.items
  {
    var d := Drain(next, head);
    assert [] + head == head && [head, tail][1..] == [tail] && [tail][1..] == [];
    assert FeedAll(next, d.rest, [tail]).items ==
        if Drain(next, d.rest + tail).refused then [] else Drain(next, d.rest + tail).items;
  }

  lemma OneCall<T>(next: Bytes -> Step<T>, b: Bytes)
    ensures FeedAll(next, [], [b]).items == if Drain(next, b).refused then [] else Drain(next, b).items
  {
    assert [] + b == b && [b][1..] == [];
  }

  /** The bytes of the first item alone yield that item, when it depends on no others. */
  lemma FirstAlone<T>(next: Bytes -> Step<T>, b: Bytes)
    requires next(b).Got? && Sized(next, b) && next([]).More?
    requires next(b[..next(b).consumed]) == next(b)
    ensures Drain(next, b[..next(b).consumed]) == Drained([next(b).item], [], false)
  {
    var n := next(b).consumed;
    assert b[..n][n..] == [];
  }

  lemma HeadAndTail(stream: Bytes, n: nat)
    requires n <= |stream|
    ensures Concat([stream[..n], stream[n..]]) == stream
  {
    var head, tail := stream[..n], stream[n..];
    var both, last: seq<Bytes> := [head, tail], [tail];
    assert both[1..] == last && last[1..] == [];
    Empty(tail);
    assert Concat(last) == tail;
    assert stream == head + tail;
  }

  /** Every cutting of a stream returns the same items. */
  ghost predicate AnyCutting<T>(next: Bytes -> Step<T>, stream: Bytes)
  {
    forall chunks :: Concat(chunks) == stream ==> FeedAll(next, [], chunks).items == FeedAll(next, [], [stream]).items
  }

  lemma CuttingHarmless<T(!new)>(next: Bytes -> Step<T>, stream: Bytes)
    requires Steady(next) && next([]).More?
    requires !Drain(next, stream).refused || Drain(next, stream).items == []
    ensures AnyCutting(next, stream)
  {
    OneCall(next, stream);
    forall chunks | Concat(chunks) == stream
      ensures FeedAll(next, [], chunks).items == FeedAll(next, [], [stream]).items
    {
      FeedAllFrom(next, [], chunks);
      Empty(stream);
    }
  }

  lemma CuttingHarmful<T(!new)>(next: Bytes -> Step<T>, stream: Bytes)
    requires Steady(next) && next([]).More? && next(stream).Got?
    requires Sized(next, stream) && next(stream[..next(stream).consumed]) == next(stream)
    requires Drain(next, stream).refused
    ensures !AnyCutting(next, stream)
  {
    var n := next(stream).consumed;
    var head, tail := stream[..n], stream[n..];
    OneCall(next, stream);
    FirstAlone(next, stream);
    TwoCalls(next, head, tail);
    HeadAndTail(stream, n);
    assert FeedAll(next, [], [head, tail]).items != FeedAll(next, [], [stream]).items;
  }
}
