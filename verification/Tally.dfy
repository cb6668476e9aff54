/** Weighted sums over a sequence of threads or processes, and how one update moves them. */
module Tally {

  function Sum<T>(weight: T -> nat, xs: seq<T>): nat {
    if xs == [] then 0 else weight(xs[0]) + Sum(weight, xs[1..])
  }

  lemma {:induction false} SumUpdate<T>(weight: T -> nat, xs: seq<T>, i: nat, x: T)
    requires i < |xs|
    ensures Sum(weight, xs[i := x]) + weight(xs[i]) == Sum(weight, xs) + weight(x)
  {
    if i == 0 {
      assert xs[i := x][1..] == xs[1..];
    } else {
      assert xs[i := x][1..] == xs[1..][i - 1 := x];
      SumUpdate(weight, xs[1..], i - 1, x);
    }
  }

  lemma {:induction false} SumZero<T>(weight: T -> nat, xs: seq<T>)
    ensures Sum(weight, xs) == 0 <==> forall i | 0 <= i < |xs| :: weight(xs[i]) == 0
  {
    if xs != [] {
      SumZero(weight, xs[1..]);
      assert forall i | 1 <= i < |xs| :: xs[i] == xs[1..][i - 1];
      assert forall i | 0 <= i < |xs| - 1 :: xs[1..][i] == xs[i + 1];
    }
  }

  lemma {:induction false} SumAtLeast<T>(weight: T -> nat, xs: seq<T>, i: nat)
    requires i < |xs|
    ensures Sum(weight, xs) >= weight(xs[i])
  {
    if i > 0 {
      SumAtLeast(weight, xs[1..], i - 1);
    }
  }

  lemma {:induction false} SumAppend<T>(weight: T -> nat, xs: seq<T>, x: T)
    ensures Sum(weight, xs + [x]) == Sum(weight, xs) + weight(x)
  {
    if xs != [] {
      assert (xs + [x])[1..] == xs[1..] + [x];
      SumAppend(weight, xs[1..], x);
    }
  }

  lemma {:induction false} SumAtMost<T>(weight: T -> nat, xs: seq<T>, most: nat)
    requires forall i | 0 <= i < |xs| :: weight(xs[i]) <= most
    ensures Sum(weight, xs) <= most * |xs|
  {
    if xs != [] {
      SumAtMost(weight, xs[1..], most);
      assert most * |xs| == most + most * |xs[1..]|;
    }
  }

  // The places of a sequence where something holds.
  function Places<T>(p: T -> bool, xs: seq<T>): set<nat> {
    set i | 0 <= i < |xs| && p(xs[i])
  }

  // A weight of one there and of nought elsewhere sums up to their number.
  lemma {:induction false} SumCounts<T>(weight: T -> nat, p: T -> bool, xs: seq<T>)
    requires forall x :: weight(x) == if p(x) then 1 else 0
    ensures Sum(weight, xs) == |Places(p, xs)|
  {
    if xs != [] {
      var n := |xs| - 1;
      var front := xs[..n];
      SumCounts(weight, p, front);
      SumAppend(weight, front, xs[n]);
      assert xs == front + [xs[n]];
      PlacesAppend(p, front, xs[n]);
    }
  }

  lemma PlacesAppend<T>(p: T -> bool, xs: seq<T>, x: T)
    ensures |Places(p, xs + [x])| == |Places(p, xs)| + if p(x) then 1 else 0
  {
    var more := xs + [x];
    assert forall i | 0 <= i < |xs| :: more[i] == xs[i];
    assert Places(p, more) == Places(p, xs) + if p(x) then {|xs|} else {};
  }
}
