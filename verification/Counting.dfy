/** Counting and summing over sequences, with what one update does to a count or a sum. */
module Counting {

  function Count<T>(xs: seq<T>, p: T -> bool): nat
  {
    if xs == [] then 0 else (if p(xs[0]) then 1 else 0) + Count(xs[1..], p)
  }

  lemma {:induction false} CountSnoc<T>(xs: seq<T>, p: T -> bool, x: T)
    ensures Count(xs + [x], p) == Count(xs, p) + if p(x) then 1 else 0
  {
    if xs == [] {
      assert (xs + [x])[1..] == [];
    } else {
      assert (xs + [x])[0] == xs[0] && (xs + [x])[1..] == xs[1..] + [x];
      CountSnoc(xs[1..], p, x);
    }
  }

  lemma {:induction false} CountUpdate<T>(xs: seq<T>, p: T -> bool, k: nat, x: T)
    requires k < |xs|
    ensures Count(xs[k := x], p) ==
            Count(xs, p) - (if p(xs[k]) then 1 else 0) + (if p(x) then 1 else 0)
  {
    if k == 0 {
      assert xs[0 := x][1..] == xs[1..];
    } else {
      CountUpdate(xs[1..], p, k - 1, x);
      assert xs[k := x][1..] == xs[1..][k - 1 := x];
    }
  }

  lemma {:induction false} CountBound<T>(xs: seq<T>, p: T -> bool)
    ensures Count(xs, p) <= |xs|
    ensures Count(xs, p) == |xs| <==> forall k :: 0 <= k < |xs| ==> p(xs[k])
  {
    if xs != [] {
      CountBound(xs[1..], p);
      assert forall k :: 1 <= k < |xs| ==> xs[k] == xs[1..][k - 1];
      if forall k :: 0 <= k < |xs| ==> p(xs[k]) {
        assert forall k :: 0 <= k < |xs[1..]| ==> p(xs[1..][k]);
      }
    }
  }

  lemma {:induction false} CountWitness<T>(xs: seq<T>, p: T -> bool) returns (k: nat)
    requires Count(xs, p) > 0
    ensures k < |xs| && p(xs[k])
  {
    if p(xs[0]) {
      k := 0;
    } else {
      var j := CountWitness(xs[1..], p);
      k := j + 1;
    }
  }

  lemma {:induction false} CountPositive<T>(xs: seq<T>, p: T -> bool, k: nat)
    requires k < |xs| && p(xs[k])
    ensures Count(xs, p) > 0
  {
    if k > 0 {
      CountPositive(xs[1..], p, k - 1);
    }
  }

  /** Distinct positions outside `p` keep the count away from the length. */
  lemma {:induction false} CountMissesOne<T>(xs: seq<T>, p: T -> bool, k: nat)
    requires k < |xs| && !p(xs[k])
    ensures Count(xs, p) <= |xs| - 1
  {
    if k == 0 {
      CountBound(xs[1..], p);
    } else {
      CountMissesOne(xs[1..], p, k - 1);
    }
  }

  lemma {:induction false} CountMissesTwo<T>(xs: seq<T>, p: T -> bool, j: nat, k: nat)
    requires j < k < |xs| && !p(xs[j]) && !p(xs[k])
    ensures Count(xs, p) <= |xs| - 2
  {
    if j == 0 {
      CountMissesOne(xs[1..], p, k - 1);
    } else {
      CountMissesTwo(xs[1..], p, j - 1, k - 1);
    }
  }

  lemma {:induction false} CountLe<T, U>(xs: seq<T>, p: T -> bool, ys: seq<U>, q: U -> bool)
    requires |xs| == |ys|
    requires forall k :: 0 <= k < |xs| && p(xs[k]) ==> q(ys[k])
    ensures Count(xs, p) <= Count(ys, q)
  {
    if xs != [] {
      assert forall k :: 0 <= k < |xs[1..]| ==> xs[1..][k] == xs[k + 1] && ys[1..][k] == ys[k + 1];
      CountLe(xs[1..], p, ys[1..], q);
    }
  }

  lemma {:induction false} CountNone<T>(xs: seq<T>, p: T -> bool)
    requires forall k :: 0 <= k < |xs| ==> !p(xs[k])
    ensures Count(xs, p) == 0
  {
    if xs != [] {
      assert forall k :: 0 <= k < |xs[1..]| ==> xs[1..][k] == xs[k + 1];
      CountNone(xs[1..], p);
    }
  }

  function Sum(xs: seq<nat>): nat
  {
    if xs == [] then 0 else xs[0] + Sum(xs[1..])
  }

  lemma {:induction false} SumUpdate(xs: seq<nat>, k: nat, x: nat)
    requires k < |xs|
    ensures Sum(xs[k := x]) == Sum(xs) - xs[k] + x
  {
    if k == 0 {
      assert xs[0 := x][1..] == xs[1..];
    } else {
      SumUpdate(xs[1..], k - 1, x);
      assert xs[k := x][1..] == xs[1..][k - 1 := x];
    }
  }

  /** A sum of entries of at most `m` is `|xs| * m` exactly when every entry is `m`. */
  lemma {:induction false} SumBound(xs: seq<nat>, m: nat)
    requires forall k :: 0 <= k < |xs| ==> xs[k] <= m
    ensures Sum(xs) <= |xs| * m
    ensures Sum(xs) == |xs| * m <==> forall k :: 0 <= k < |xs| ==> xs[k] == m
  {
    if xs != [] {
      assert forall k :: 0 <= k < |xs[1..]| ==> xs[1..][k] == xs[k + 1];
      SumBound(xs[1..], m);
      assert |xs| * m == m + |xs[1..]| * m;
      if forall k :: 0 <= k < |xs[1..]| ==> xs[1..][k] == m {
        if xs[0] == m {
          forall k | 0 <= k < |xs| ensures xs[k] == m {
            if k > 0 { assert xs[k] == xs[1..][k - 1]; }
          }
        }
      }
    }
  }

  lemma {:induction false} SumZero(xs: seq<nat>)
    requires forall k :: 0 <= k < |xs| ==> xs[k] == 0
    ensures Sum(xs) == 0
  {
    SumBound(xs, 0);
  }

  // ---------------------------------------------------------------- products and quotients

  lemma MulMono(a: int, b: int, c: nat)
    ensures a <= b ==> a * c <= b * c
  {
    if a <= b {
      assert (b - a) * c >= 0;
    }
  }

  lemma DivModUnique(n: nat, c: nat, q: nat, r: nat)
    requires c > 0 && n == q * c + r && r < c
    ensures n / c == q && n % c == r
  {
    var p := n / c;
    assert n == p * c + n % c;
    assert (q + 1) * c == q * c + c && (p + 1) * c == p * c + c;
    MulMono(q + 1, p, c);
    MulMono(p + 1, q, c);
  }
}
