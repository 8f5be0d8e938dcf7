/** Totals and counts over the threads of a system. */
module Counting {

  function Total<T>(f: T -> int, xs: seq<T>): int {
    if xs == [] then 0 else f(xs[0]) + Total(f, xs[1..])
  }

  lemma {:induction false} TotalUpdate<T>(f: T -> int, xs: seq<T>, k: nat, x: T)
    requires k < |xs|
    ensures Total(f, xs[k := x]) == Total(f, xs) - f(xs[k]) + f(x)
    decreases |xs|
  {
    if k == 0 {
      assert xs[k := x][1..] == xs[1..];
    } else {
      assert xs[k := x][1..] == xs[1..][k - 1 := x];
      TotalUpdate(f, xs[1..], k - 1, x);
    }
  }

  lemma {:induction false} TotalNonNegative<T>(f: T -> int, xs: seq<T>)
    requires forall k :: 0 <= k < |xs| ==> f(xs[k]) >= 0
    ensures Total(f, xs) >= 0
    decreases |xs|
  {
    if xs != [] {
      assert forall k :: 0 <= k < |xs[1..]| ==> xs[1..][k] == xs[k + 1];
      TotalNonNegative(f, xs[1..]);
    }
  }

  lemma {:induction false} TotalOfEqual<T>(f: T -> int, xs: seq<T>, c: int)
    requires forall k :: 0 <= k < |xs| ==> f(xs[k]) == c
    ensures Total(f, xs) == |xs| * c
    decreases |xs|
  {
    if xs != [] {
      assert forall k :: 0 <= k < |xs[1..]| ==> xs[1..][k] == xs[k + 1];
      TotalOfEqual(f, xs[1..], c);
      assert |xs| * c == c + |xs[1..]| * c;
    }
  }

  function Count<T>(p: T -> bool, xs: seq<T>): nat {
    if xs == [] then 0 else (if p(xs[0]) then 1 else 0) + Count(p, xs[1..])
  }

  lemma {:induction false} CountUpdate<T>(p: T -> bool, xs: seq<T>, k: nat, x: T)
    requires k < |xs|
    ensures Count(p, xs[k := x]) == Count(p, xs) - (if p(xs[k]) then 1 else 0) + (if p(x) then 1 else 0)
    decreases |xs|
  {
    if k == 0 {
      assert xs[k := x][1..] == xs[1..];
    } else {
      assert xs[k := x][1..] == xs[1..][k - 1 := x];
      CountUpdate(p, xs[1..], k - 1, x);
    }
  }

  lemma {:induction false} CountNone<T>(p: T -> bool, xs: seq<T>)
    ensures Count(p, xs) == 0 <==> forall k :: 0 <= k < |xs| ==> !p(xs[k])
    decreases |xs|
  {
    if xs != [] {
      CountNone(p, xs[1..]);
      assert forall k :: 0 <= k < |xs[1..]| ==> xs[1..][k] == xs[k + 1];
      assert forall k :: 1 <= k < |xs| ==> xs[k] == xs[1..][k - 1];
    }
  }

  /** If at most one element counts, no two do. */
  lemma {:induction false} CountOne<T>(p: T -> bool, xs: seq<T>, i: nat, j: nat)
    requires Count(p, xs) <= 1 && i < |xs| && j < |xs| && p(xs[i]) && p(xs[j])
    ensures i == j
    decreases |xs|
  {
    CountNone(p, xs[1..]);
    assert i > 0 ==> p(xs[1..][i - 1]);
    assert j > 0 ==> p(xs[1..][j - 1]);
    if i > 0 && j > 0 {
      CountOne(p, xs[1..], i - 1, j - 1);
    }
  }

  lemma {:induction false} CountImplied<T>(p: T -> bool, q: T -> bool, xs: seq<T>)
    requires forall k :: 0 <= k < |xs| && p(xs[k]) ==> q(xs[k])
    ensures Count(p, xs) <= Count(q, xs)
    decreases |xs|
  {
    if xs != [] {
      assert forall k :: 0 <= k < |xs[1..]| ==> xs[1..][k] == xs[k + 1];
      CountImplied(p, q, xs[1..]);
    }
  }

  lemma CountAgree<T>(p: T -> bool, q: T -> bool, xs: seq<T>)
    requires forall k :: 0 <= k < |xs| ==> p(xs[k]) == q(xs[k])
    ensures Count(p, xs) == Count(q, xs)
  {
    CountImplied(p, q, xs);
    CountImplied(q, p, xs);
  }

  /** Two properties that differ at one element only. */
  lemma {:induction false} CountLess<T>(p: T -> bool, q: T -> bool, xs: seq<T>, i: nat)
    requires i < |xs| && !p(xs[i]) && q(xs[i])
    requires forall k :: 0 <= k < |xs| && k != i ==> p(xs[k]) == q(xs[k])
    ensures Count(p, xs) == Count(q, xs) - 1
    decreases |xs|
  {
    assert forall k :: 0 <= k < |xs[1..]| ==> xs[1..][k] == xs[k + 1];
    if i == 0 {
      CountAgree(p, q, xs[1..]);
    } else {
      CountLess(p, q, xs[1..], i - 1);
    }
  }
}
