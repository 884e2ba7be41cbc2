/** The activation window: a ring of the last few ACT cycles of one rank. The scheduler reads
    its oldest slot and never activates sooner than that plus tFAW. The ring can lose its
    order when an ACT is recorded out of order; the window constraint survives that. */
module ActWindowSpec {
  // A window is written oldest slot first: slot i of `w` is `buf[(idx + i) % size]`.

  /** `Later` is determined by where it stops. */
  lemma {:induction false} LaterIs(w: seq<nat>, act: nat, k: nat)
    requires |w| > 0 && k <= |w|
    requires forall i :: 1 <= i && |w| - k <= i < |w| ==> w[i] > act
    requires k + 1 < |w| ==> w[|w| - 1 - k] <= act
    ensures Later(w, act) == if k < |w| then k else |w| - 1
    decreases |w|
  {
    if |w| > 1 && w[|w| - 1] > act && k > 0 {
      LaterIs(w[..|w| - 1], act, k - 1);
    }
  }

  /** How many of the newest entries, slot 0 excluded, are later than `act`. */
  function Later(w: seq<nat>, act: nat): (k: nat)
    ensures k < |w| || (w == [] && k == 0)
    ensures forall i :: 1 <= i && |w| - k <= i < |w| ==> w[i] > act
    ensures k + 1 < |w| ==> w[|w| - 1 - k] <= act
  {
    if |w| <= 1 || w[|w| - 1] <= act then 0 else 1 + Later(w[..|w| - 1], act)
  }

  /** The window after recording `act`: the oldest slot is replaced. Later entries move one
      slot to make room; if every other entry is later, the newest one ends up in front. */
  function Add(w: seq<nat>, act: nat): (r: seq<nat>)
    requires |w| > 0
    ensures |r| == |w|
  {
    var n := |w|;
    var k := Later(w, act);
    if k + 1 < n || n == 1 then w[1..n - k] + [act] + w[n - k..]
    else [w[n - 1]] + w[1..n - 1] + [act]
  }

  /** The window after recording, slot by slot, when `k` entries are later. */
  lemma AddAt(w: seq<nat>, act: nat, i: nat)
    requires i < |w| && (Later(w, act) + 1 < |w| || |w| == 1)
    ensures var p := |w| - 1 - Later(w, act);
      Add(w, act)[i] == if i < p then w[i + 1] else if i == p then act else w[i]
  {
  }

  /** The same when all other entries are later. */
  lemma AddWrappedAt(w: seq<nat>, act: nat, i: nat)
    requires i < |w| && |w| > 1 && Later(w, act) + 1 == |w|
    ensures Add(w, act)[i] == if i == |w| - 1 then act else if i == 0 then w[|w| - 1] else w[i]
  {
  }

  /** Recording an ACT always trades the oldest slot for the new cycle and nothing else. */
  lemma AddTradesOldest(w: seq<nat>, act: nat)
    requires |w| > 0
    ensures multiset(Add(w, act)) == multiset(w) - multiset{w[0]} + multiset{act}
  {
    var n := |w|;
    var k := Later(w, act);
    if k + 1 < n || n == 1 {
      InsertTrades(w, Add(w, act), w[0], w[1..n - k], w[n - k..], act);
    } else {
      WrapTrades(w, Add(w, act), w[0], w[1..n - 1], w[n - 1], act);
    }
  }

  lemma InsertTrades(w: seq<nat>, r: seq<nat>, x: nat, a: seq<nat>, b: seq<nat>, act: nat)
    requires w == [x] + a + b && r == a + [act] + b
    ensures multiset(r) == multiset(w) - multiset{x} + multiset{act}
  {
  }

  lemma WrapTrades(w: seq<nat>, r: seq<nat>, x: nat, a: seq<nat>, y: nat, act: nat)
    requires w == [x] + a + [y] && r == [y] + a + [act]
    ensures multiset(r) == multiset(w) - multiset{x} + multiset{act}
  {
  }

  predicate Sorted(w: seq<nat>) {
    forall i, j | 0 <= i < j < |w| :: w[i] <= w[j]
  }

  /** The ring stays in order exactly when the new ACT is not earlier than the second oldest. */
  lemma AddSortedIff(w: seq<nat>, act: nat)
    requires |w| > 0 && Sorted(w) && w[0] <= act
    ensures Sorted(Add(w, act)) <==> |w| == 1 || act >= w[1]
  {
    var n := |w|;
    var k := Later(w, act);
    var r := Add(w, act);
    if n > 1 {
      if act >= w[1] {
        assert k + 1 < n;
        assert forall i :: 0 <= i < n ==>
            r[i] == if i < n - k - 1 then w[i + 1] else if i == n - k - 1 then act else w[i];
      } else {
        assert r[0] == w[n - 1] && r[n - 1] == act;
      }
    }
  }

  // ---------------------------------------------------------------- runs

  function Zeros(n: nat): (w: seq<nat>)
    ensures |w| == n && forall i :: 0 <= i < n ==> w[i] == 0
  {
    seq(n, i => 0)
  }

  /** The window of size `n` after the ACTs in `acts`. */
  function After(n: nat, acts: seq<nat>): (w: seq<nat>)
    requires n > 0
    ensures |w| == n
  {
    if acts == [] then Zeros(n) else Add(After(n, acts[..|acts| - 1]), acts[|acts| - 1])
  }

  /** Every ACT was scheduled at least `t` after the oldest slot at its time. */
  predicate Spaced(n: nat, t: nat, acts: seq<nat>)
    requires n > 0
  {
    acts == [] ||
    (Spaced(n, t, acts[..|acts| - 1]) && acts[|acts| - 1] >= After(n, acts[..|acts| - 1])[0] + t)
  }

  /** The ACTs fall into `n` chains whose consecutive members are `t` apart: each ACT
      continues the chain of the slot it replaced. `ends` holds the last cycle of each chain,
      which together are exactly the window. */
  ghost predicate Chained(n: nat, t: nat, acts: seq<nat>, chain: seq<nat>, ends: seq<nat>)
    requires n > 0
  {
    && |chain| == |acts| && |ends| == n
    && multiset(ends) == multiset(After(n, acts))
    && (forall i :: 0 <= i < |acts| ==> chain[i] < n && acts[i] <= ends[chain[i]])
    && (forall i, j :: 0 <= i < j < |acts| && chain[i] == chain[j] ==> acts[j] >= acts[i] + t)
  }

  lemma {:induction false} ChainsExist(n: nat, t: nat, acts: seq<nat>) returns (chain: seq<nat>, ends: seq<nat>)
    requires n > 0 && Spaced(n, t, acts)
    ensures Chained(n, t, acts, chain, ends)
  {
    if acts == [] {
      chain, ends := [], Zeros(n);
    } else {
      var m := |acts| - 1;
      var chain0, ends0 := ChainsExist(n, t, acts[..m]);
      var w := After(n, acts[..m]);
      assert w[0] in multiset(w);
      assert w[0] in multiset(ends0);
      var c :| 0 <= c < n && ends0[c] == w[0];
      chain, ends := chain0 + [c], ends0[c := acts[m]];
      AddTradesOldest(w, acts[m]);
      ReplaceOne(ends0, c, acts[m]);
      ExtendChain(n, t, acts, chain0, ends0, c);
    }
  }

  lemma ReplaceOne(s: seq<nat>, c: nat, x: nat)
    requires c < |s|
    ensures multiset(s[c := x]) == multiset(s) - multiset{s[c]} + multiset{x}
  {
  }

  lemma ExtendChain(n: nat, t: nat, acts: seq<nat>, chain0: seq<nat>, ends0: seq<nat>, c: nat)
    requires n > 0 && acts != [] && Chained(n, t, acts[..|acts| - 1], chain0, ends0)
    requires c < n && acts[|acts| - 1] >= ends0[c] + t
    ensures var chain, ends := chain0 + [c], ends0[c := acts[|acts| - 1]];
      && (forall i :: 0 <= i < |acts| ==> chain[i] < n && acts[i] <= ends[chain[i]])
      && (forall i, j :: 0 <= i < j < |acts| && chain[i] == chain[j] ==> acts[j] >= acts[i] + t)
  {
    var m := |acts| - 1;
    var chain := chain0 + [c];
    assert forall i :: 0 <= i < m ==> acts[..m][i] == acts[i] && chain[i] == chain0[i];
  }

  /** More pigeons than holes: two of them share one. */
  lemma {:induction false} Pigeonhole(p: seq<nat>, n: nat) returns (i: nat, j: nat)
    requires |p| > n > 0 && forall k :: 0 <= k < |p| ==> p[k] < n
    ensures i < j < |p| && p[i] == p[j]
    decreases n
  {
    if k :| 0 <= k < |p| - 1 && p[k] == p[|p| - 1] {
      i, j := k, |p| - 1;
    } else {
      assert p[0] != p[|p| - 1];
      // rename the last pigeon's hole away
      var q := seq(|p| - 1, k requires 0 <= k < |p| - 1 => if p[k] > p[|p| - 1] then p[k] - 1 else p[k]);
      i, j := Pigeonhole(q, n - 1);
    }
  }

  /** The window constraint over whole runs: among any `n + 1` ACTs of the rank two are at
      least `t` apart, so no `n + 1` of them fit in a shorter stretch, even if the ring has
      lost its order. With n = 4 and t = tFAW this is the four-activate window. */
  lemma WindowHolds(n: nat, t: nat, acts: seq<nat>, pick: seq<nat>)
    requires n > 0 && Spaced(n, t, acts)
    requires |pick| == n + 1 && (forall k :: 0 <= k < |pick| ==> pick[k] < |acts|)
    requires forall k, m :: 0 <= k < m < |pick| ==> pick[k] < pick[m]
    ensures exists k, m :: 0 <= k < m < |pick| && acts[pick[m]] >= acts[pick[k]] + t
  {
    var chain, ends := ChainsExist(n, t, acts);
    var holes := seq(|pick|, k requires 0 <= k < |pick| => chain[pick[k]]);
    var i, j := Pigeonhole(holes, n);
    assert chain[pick[i]] == holes[i] == holes[j] == chain[pick[j]];
    assert acts[pick[j]] >= acts[pick[i]] + t;
  }

  /** The order really can be lost: an ACT earlier than the second oldest slot is legal. */
  lemma OrderCanBeLost()
    ensures Spaced(2, 5, [100, 10]) && Sorted(After(2, [100])) && !Sorted(After(2, [100, 10]))
  {
    var first, both := [100], [100, 10];
    assert first[..0] == [] && both[..1] == first;
    assert Zeros(2) == [0, 0];
    LaterIs([0, 0], 100, 0);
    assert After(2, first) == [0, 100] by {
      assert Add([0, 0], 100) == [0, 100];
    }
    LaterIs([0, 100], 10, 1);
    assert Add([0, 100], 10) == [100, 10];
    assert After(2, both) == [100, 10];
  }
}

module ActWindowModel {
  import opened ActWindowSpec

  // ---------------------------------------------------------------- ring positions

  /** Where slot `i` of a ring of `n` that starts at `start` lives. */
  function Place(n: nat, start: nat, i: nat): (p: nat)
    requires start < n && i < n
    ensures p < n
  {
    if start + i < n then start + i else start + i - n
  }

  function Dec(n: nat, i: nat): (r: nat)
    requires i < n
    ensures r < n
  {
    if i > 0 then i - 1 else n - 1
  }

  /** The position of the gap after `k` shifts. */
  function Gap(n: nat, start: nat, k: nat): (p: nat)
    requires start < n && k <= n
    ensures p < n
  {
    Place(n, start, if k == 0 || k == n then 0 else n - k)
  }

  function Ring(b: seq<nat>, start: nat): (w: seq<nat>)
    requires start < |b|
    ensures |w| == |b| && forall i :: 0 <= i < |b| ==> w[i] == b[Place(|b|, start, i)]
  {
    b[start..] + b[..start]
  }

  /** What the ring `b` holds after `k` shifts when its slots started as `w`. */
  ghost predicate Shifted(b: seq<nat>, start: nat, w: seq<nat>, k: nat) {
    && start < |b| == |w| && k < |w|
    && (forall i {:trigger Place(|w|, start, i)} :: 1 <= i < |w| ==>
          b[Place(|w|, start, i)] == (if i > |w| - k then w[i - 1] else w[i]))
    && b[start] == if k > 0 then w[|w| - 1] else w[0]
  }

  /** The entry the loop looks at next. */
  lemma NextEntry(b: seq<nat>, start: nat, w: seq<nat>, k: nat)
    requires Shifted(b, start, w, k)
    ensures var n := |w|;
      && Dec(n, Gap(n, start, k)) == Place(n, start, n - k - 1)
      && b[Dec(n, Gap(n, start, k))] == (if k + 1 < n then w[n - k - 1] else if k > 0 then w[n - 1] else w[0])
      && Gap(n, start, k + 1) == Dec(n, Gap(n, start, k))
      && (Gap(n, start, k + 1) == start <==> k + 1 == n)
  {
    var n := |w|;
    assert k + 1 < n ==> b[Place(n, start, n - k - 1)] == w[n - k - 1];
  }

  lemma ShiftStep(b: seq<nat>, start: nat, w: seq<nat>, k: nat)
    requires Shifted(b, start, w, k) && k + 1 < |w|
    ensures Shifted(b[Gap(|w|, start, k) := b[Dec(|w|, Gap(|w|, start, k))]], start, w, k + 1)
  {
    NextEntry(b, start, w, k);
    var n := |w|;
    var c := b[Gap(n, start, k) := b[Dec(n, Gap(n, start, k))]];
    forall i | 1 <= i < n
      ensures c[Place(n, start, i)] == if i > n - (k + 1) then w[i - 1] else w[i]
    {
      assert Place(n, start, i) == Gap(n, start, k) <==> i == n - k;
    }
  }

  /** Writing the new cycle at `gap` gives the recorded window, read from the next start. */
  ghost predicate Ready(b: seq<nat>, start: nat, w: seq<nat>, gap: nat, act: nat) {
    && start < |b| == |w| && gap < |b|
    && Ring(b[gap := act], if start < |b| - 1 then start + 1 else 0) == Add(w, act)
  }

  /** Advancing the start by one drops slot 0 to the end. */
  lemma NextRing(b: seq<nat>, start: nat, r: seq<nat>)
    requires start < |b| == |r|
    requires forall i :: 0 <= i < |b| ==> b[Place(|b|, start, if i + 1 < |b| then i + 1 else 0)] == r[i]
    ensures Ring(b, if start < |b| - 1 then start + 1 else 0) == r
  {
  }

  /** Slot `j` of the old ring after the new cycle went into the gap. */
  lemma GapSlot(b: seq<nat>, start: nat, w: seq<nat>, k: nat, act: nat, j: nat)
    requires Shifted(b, start, w, k) && j < |w|
    ensures b[Gap(|w|, start, k) := act][Place(|w|, start, j)] ==
      if j == (if k == 0 then 0 else |w| - k) then act
      else if j == 0 then w[|w| - 1]
      else if j > |w| - k then w[j - 1] else w[j]
  {
    var n := |w|;
    assert Place(n, start, j) == Gap(n, start, k) <==> j == (if k == 0 then 0 else n - k);
    assert j > 0 ==> b[Place(n, start, j)] == (if j > n - k then w[j - 1] else w[j]);
  }

  lemma StopInsideAt(b: seq<nat>, start: nat, w: seq<nat>, k: nat, act: nat, i: nat)
    requires Shifted(b, start, w, k) && Later(w, act) == k && (k + 1 < |w| || |w| == 1) && i < |w|
    ensures b[Gap(|w|, start, k) := act][Place(|w|, start, if i + 1 < |w| then i + 1 else 0)] == Add(w, act)[i]
  {
    AddAt(w, act, i);
    if i + 1 < |w| { GapSlot(b, start, w, k, act, i + 1); } else { GapSlot(b, start, w, k, act, 0); }
  }

  /** The loop stopped at an entry that is not later: the new cycle goes into the gap. */
  lemma StopInside(b: seq<nat>, start: nat, w: seq<nat>, k: nat, act: nat)
    requires Shifted(b, start, w, k) && w[0] <= act
    requires forall i :: 1 <= i && |w| - k <= i < |w| ==> w[i] > act
    requires b[Dec(|w|, Gap(|w|, start, k))] <= act
    ensures Ready(b, start, w, Gap(|w|, start, k), act)
  {
    var n := |w|;
    NextEntry(b, start, w, k);
    LaterIs(w, act, k);
    var c := b[Gap(n, start, k) := act];
    forall i | 0 <= i < n
      ensures c[Place(n, start, if i + 1 < n then i + 1 else 0)] == Add(w, act)[i]
    {
      StopInsideAt(b, start, w, k, act, i);
    }
    NextRing(c, start, Add(w, act));
  }

  /** The loop went all the way round. */
  lemma StopWrapped(b: seq<nat>, start: nat, w: seq<nat>, act: nat)
    requires |w| > 1 && Shifted(b, start, w, |w| - 1)
    requires forall i :: 1 <= i < |w| ==> w[i] > act
    ensures Ready(b[Gap(|w|, start, |w| - 1) := b[Dec(|w|, Gap(|w|, start, |w| - 1))]], start, w, start, act)
  {
    var n := |w|;
    NextEntry(b, start, w, n - 1);
    LaterIs(w, act, n);
    var gap := Gap(n, start, n - 1);
    var c := b[gap := b[Dec(n, gap)]][start := act];
    forall i | 0 <= i < n
      ensures c[Place(n, start, if i + 1 < n then i + 1 else 0)] == Add(w, act)[i]
    {
      AddWrappedAt(w, act, i);
      if i + 1 < n {
        assert b[Place(n, start, i + 1)] == (if i + 1 > 1 then w[i] else w[1]);
        assert Place(n, start, i + 1) != start && (Place(n, start, i + 1) == gap <==> i == 0);
      } else {
        assert Place(n, start, 0) == start;
      }
    }
    NextRing(c, start, Add(w, act));
  }

  /** The state of the loop before its `k`-th shift. */
  ghost predicate Shifting(b: seq<nat>, start: nat, w: seq<nat>, k: nat, cur: nat, act: nat) {
    && Shifted(b, start, w, k) && cur == Gap(|w|, start, k) && w[0] <= act
    && forall i :: 1 <= i && |w| - k <= i < |w| ==> w[i] > act
  }

  /** One turn of the loop: it goes on with one more shift, or it is back at the start. */
  lemma Turn(b: seq<nat>, start: nat, w: seq<nat>, k: nat, cur: nat, act: nat)
    requires Shifting(b, start, w, k, cur, act) && b[Dec(|b|, cur)] > act
    ensures var b' := b[cur := b[Dec(|b|, cur)]];
      && (k + 1 < |w| ==> Dec(|b|, cur) != start && Shifting(b', start, w, k + 1, Dec(|b|, cur), act))
      && (k + 1 == |w| ==> Dec(|b|, cur) == start && Ready(b', start, w, start, act))
  {
    NextEntry(b, start, w, k);
    if k + 1 < |w| { ShiftStep(b, start, w, k); } else { StopWrapped(b, start, w, act); }
  }

  // ---------------------------------------------------------------- the ring buffer

  /** The ring buffer as the source keeps it. */
  class ActWindow {
    const buf: array<nat>
    var idx: nat

    ghost predicate Valid()
      reads this
    {
      0 < buf.Length && idx < buf.Length
    }

    /** Oldest slot first. */
    ghost function View(): (w: seq<nat>)
      requires Valid()
      reads this, buf
      ensures |w| == buf.Length
    {
      Ring(buf[..], idx)
    }

    constructor (size: nat)
      requires size > 0
      ensures Valid() && View() == Zeros(size) && fresh(buf)
    {
      buf := new nat[size](i => 0);
      idx := 0;
    }

    method MinActCycle() returns (c: nat)
      requires Valid()
      ensures c == View()[0]
    {
      c := buf[idx];
    }

    /** Records an ACT. The source asserts that it is not earlier than the oldest slot. */
    method AddActivation(act: nat)
      requires Valid() && View()[0] <= act
      modifies this, buf
      ensures Valid() && View() == Add(old(View()), act)
    {
      ghost var w := View();
      ghost var start := idx;
      assert buf[idx] <= act;
      var cur: nat := idx;
      ghost var k := 0;  // shifts so far
      while buf[Dec(buf.Length, cur)] > act
        invariant idx == start && cur < buf.Length && Shifting(buf[..], start, w, k, cur, act)
        decreases buf.Length - k
      {
        ghost var b := buf[..];
        Turn(b, start, w, k, cur, act);
        buf[cur] := buf[Dec(buf.Length, cur)];
        assert buf[..] == b[cur := b[Dec(|b|, cur)]];
        cur := Dec(buf.Length, cur);
        k := k + 1;
        if cur == idx {
          break;
        }
      }
      ghost var b := buf[..];
      if k < |w| { StopInside(b, start, w, k, act); }
      assert Ready(b, start, w, cur, act);
      buf[cur] := act;
      assert buf[..] == b[cur := act];
      idx := if idx < buf.Length - 1 then idx + 1 else 0;
    }
  }
}
