/** Sums over sequences of counters. */
module Sums {
  function Sum(a: seq<int>): int {
    if a == [] then 0 else a[0] + Sum(a[1..])
  }

  lemma {:induction false} SumUpdate(a: seq<int>, i: nat, x: int)
    requires i < |a|
    ensures Sum(a[i := x]) == Sum(a) - a[i] + x
  {
    if i == 0 {
      assert a[i := x][1..] == a[1..];
    } else {
      SumUpdate(a[1..], i - 1, x);
      assert a[i := x][1..] == a[1..][i - 1 := x];
    }
  }

  lemma {:induction false} SumMonotone(a: seq<int>, b: seq<int>)
    requires |a| == |b| && forall i :: 0 <= i < |a| ==> a[i] <= b[i]
    ensures Sum(a) <= Sum(b)
  {
    if a != [] { SumMonotone(a[1..], b[1..]); }
  }

  lemma {:induction false} SumZeros(n: nat)
    ensures Sum(seq(n, _ => 0)) == 0
  {
    if n > 0 {
      assert seq(n, _ => 0)[1..] == seq(n - 1, _ => 0);
      SumZeros(n - 1);
    }
  }

  /** Equal bounds on all counters bound the sum. */
  lemma {:induction false} SumAtMost(a: seq<int>, m: int)
    requires forall i :: 0 <= i < |a| ==> a[i] <= m
    ensures Sum(a) <= |a| * m
  {
    if a != [] {
      SumAtMost(a[1..], m);
      assert |a| * m == (|a| - 1) * m + m;
    }
  }

  lemma {:induction false} SumAtLeast(a: seq<int>, i: nat)
    requires i < |a| && forall j :: 0 <= j < |a| ==> a[j] >= 0
    ensures Sum(a) >= a[i] >= 0
  {
    if i > 0 {
      SumAtLeast(a[1..], i - 1);
    } else if |a| > 1 {
      SumAtLeast(a[1..], 0);
    }
  }
}
