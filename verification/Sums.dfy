/** Sums of a measure over the elements of a sequence, and how one update changes them. */
module Sums {

  function Sum<A>(f: A -> nat, xs: seq<A>): nat {
    if xs == [] then 0 else f(xs[0]) + Sum(f, xs[1..])
  }

  lemma {:induction false} SumUpdate<A>(f: A -> nat, xs: seq<A>, i: nat, x: A)
    requires i < |xs|
    ensures Sum(f, xs[i := x]) + f(xs[i]) == Sum(f, xs) + f(x)
    decreases xs
  {
    if i == 0 {
      assert xs[i := x][1..] == xs[1..];
    } else {
      assert xs[i := x][1..] == xs[1..][i - 1 := x];
      SumUpdate(f, xs[1..], i - 1, x);
    }
  }

  lemma {:induction false} SumConcat<A>(f: A -> nat, xs: seq<A>, ys: seq<A>)
    ensures Sum(f, xs + ys) == Sum(f, xs) + Sum(f, ys)
    decreases xs
  {
    if xs == [] {
      assert xs + ys == ys;
    } else {
      assert (xs + ys)[1..] == xs[1..] + ys;
      SumConcat(f, xs[1..], ys);
    }
  }

  /** An element that weighs something makes the sum positive. */
  lemma {:induction false} SumCovers<A>(f: A -> nat, xs: seq<A>, i: nat)
    requires i < |xs|
    ensures Sum(f, xs) >= f(xs[i])
    decreases xs
  {
    if i > 0 {
      SumCovers(f, xs[1..], i - 1);
    }
  }

  lemma SumOne<A>(f: A -> nat, x: A)
    ensures Sum(f, [x]) == f(x)
  {
    assert Sum(f, [x][1..]) == 0;
  }

  /** A sum of zeros. */
  lemma {:induction false} SumZero<A>(f: A -> nat, xs: seq<A>)
    requires forall i :: 0 <= i < |xs| ==> f(xs[i]) == 0
    ensures Sum(f, xs) == 0
    decreases xs
  {
    if xs != [] {
      SumZero(f, xs[1..]);
    }
  }

  lemma {:induction false} SumAtMostOneEach<A>(f: A -> nat, xs: seq<A>)
    requires forall i :: 0 <= i < |xs| ==> f(xs[i]) <= 1
    ensures Sum(f, xs) <= |xs|
    decreases xs
  {
    if xs != [] {
      SumAtMostOneEach(f, xs[1..]);
    }
  }

  /** With one element known to weigh nothing, at most |xs| - 1 weigh one. */
  lemma SumAllButOne<A>(f: A -> nat, xs: seq<A>, i: nat)
    requires i < |xs| && f(xs[i]) == 0
    requires forall j :: 0 <= j < |xs| ==> f(xs[j]) <= 1
    ensures Sum(f, xs) <= |xs| - 1
  {
    var ys := xs[..i] + xs[i + 1..];
    SumAtMostOneEach(f, ys);
    SumWithout(f, xs, i);
  }

  lemma {:induction false} SumWithout<A>(f: A -> nat, xs: seq<A>, i: nat)
    requires i < |xs|
    ensures Sum(f, xs) == f(xs[i]) + Sum(f, xs[..i] + xs[i + 1..])
    decreases xs
  {
    if i == 0 {
      assert xs[..i] + xs[i + 1..] == xs[1..];
    } else {
      var ys := xs[..i] + xs[i + 1..];
      assert ys[1..] == xs[1..][..i - 1] + xs[1..][i..];
      SumWithout(f, xs[1..], i - 1);
    }
  }
}
