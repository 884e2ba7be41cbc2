/** The phase barrier as a state machine: what each of join, leave and sync does as one atomic
    step under the scheduler lock, and what every run keeps. The class in Barrier.dfy is
    proved equal to these functions. */
module BarrierSpec {
  import opened Option

  datatype Mode = OFFLINE | WAITING | RUNNING | LEFT

  /** The barrier's variables. `run` is the used part of the run list. The last three fields
      are bookkeeping of the model: the threads whose `last` entry has been written since they
      came online, the threads that have synced in the current phase, and whether every phase
      so far ended only after all its listed threads had synced in it or left. */
  datatype State = State(
    cap: nat, mode: seq<Mode>, last: seq<nat>, run: seq<nat>, cur: nat,
    running: nat, left: nat, phase: nat,
    placed: set<nat>, synced: set<nat>, fair: bool)

  /** The shuffle's random numbers: `draw(i)`, or `i` if that is less, is the index drawn at step
      `i`, which may thus be any of {0,...,i}. */
  type Draws = nat -> nat

  // ---------------------------------------------------------------- counting threads

  function Count(mode: seq<Mode>, m: Mode): (n: nat)
    ensures n <= |mode|
  {
    if mode == [] then 0
    else Count(mode[..|mode| - 1], m) + if mode[|mode| - 1] == m then 1 else 0
  }

  lemma {:induction false} CountUpdate(mode: seq<Mode>, t: nat, x: Mode, m: Mode)
    requires t < |mode|
    ensures Count(mode[t := x], m) ==
      Count(mode, m) - (if mode[t] == m then 1 else 0) + (if x == m then 1 else 0)
  {
    var n := |mode| - 1;
    if t == n {
      assert mode[t := x][..n] == mode[..n];
    } else {
      assert mode[t := x][..n] == mode[..n][t := x];
      CountUpdate(mode[..n], t, x, m);
    }
  }

  lemma CountsUpdate(mode: seq<Mode>, t: nat, x: Mode)
    requires t < |mode|
    ensures forall m :: m in {WAITING, RUNNING, LEFT} ==>
      (Count(mode[t := x], m) ==
       Count(mode, m) - (if mode[t] == m then 1 else 0) + (if x == m then 1 else 0))
  {
    CountUpdate(mode, t, x, WAITING);
    CountUpdate(mode, t, x, RUNNING);
    CountUpdate(mode, t, x, LEFT);
  }

  lemma {:induction false} CountZero(mode: seq<Mode>, m: Mode)
    ensures Count(mode, m) == 0 <==> forall t :: 0 <= t < |mode| ==> mode[t] != m
  {
    if mode != [] {
      var n := |mode| - 1;
      CountZero(mode[..n], m);
      assert forall t :: 0 <= t < n ==> mode[..n][t] == mode[t];
    }
  }

  lemma {:induction false} CountSum(mode: seq<Mode>)
    ensures Count(mode, OFFLINE) + Count(mode, WAITING) + Count(mode, RUNNING) + Count(mode, LEFT) == |mode|
  {
    if mode != [] { CountSum(mode[..|mode| - 1]); }
  }

  // ---------------------------------------------------------------- well-formedness

  ghost predicate Distinct(run: seq<nat>) {
    forall i, j :: 0 <= i < j < |run| ==> run[i] != run[j]
  }

  ghost predicate Bounded(s: State) {
    && |s.last| == |s.mode|
    && s.cur <= |s.run|
    && forall i :: 0 <= i < |s.run| ==> s.run[i] < |s.mode|
  }

  /** The run list holds exactly the online threads, each once. */
  ghost predicate Listed(s: State)
    requires Bounded(s)
  {
    && Distinct(s.run)
    && (forall i :: 0 <= i < |s.run| ==> s.mode[s.run[i]] != OFFLINE)
    && (forall t {:trigger t in s.run} :: 0 <= t < |s.mode| && s.mode[t] != OFFLINE ==> t in s.run)
  }

  ghost predicate Counters(s: State) {
    && s.running == Count(s.mode, RUNNING)
    && s.left == Count(s.mode, LEFT)
    && |s.run| == Count(s.mode, WAITING) + s.running + s.left
  }

  /** The list never outgrows the thread table, and a free slot remains for an offline thread. */
  lemma ListFits(s: State)
    requires Counters(s)
    ensures |s.run| + Count(s.mode, OFFLINE) == |s.mode|
  {
    CountSum(s.mode);
  }

  lemma SlotFree(s: State, t: nat)
    requires Counters(s) && t < |s.mode| && s.mode[t] == OFFLINE
    ensures |s.run| < |s.mode|
  {
    ListFits(s);
    CountZero(s.mode, OFFLINE);
  }

  lemma SomebodyLeft(s: State, t: nat)
    requires Counters(s) && t < |s.mode| && s.mode[t] == LEFT
    ensures s.left > 0
  {
    CountZero(s.mode, LEFT);
  }

  ghost predicate AheadIdle(s: State)
    requires Bounded(s)
  {
    forall i :: s.cur <= i < |s.run| ==> s.mode[s.run[i]] != RUNNING
  }

  /** Safety, kept by every operation under any calling discipline. */
  ghost predicate Safe(s: State) {
    && Bounded(s) && Listed(s) && Counters(s) && AheadIdle(s)
    && s.running <= s.cap
  }

  ghost predicate IndexExact(s: State)
    requires Bounded(s)
  {
    forall t :: t in s.placed ==> t < |s.mode| && s.last[t] < |s.run| && s.run[s.last[t]] == t
  }

  ghost predicate PlacedModes(s: State) {
    forall t :: 0 <= t < |s.mode| && (s.mode[t] == RUNNING || s.mode[t] == LEFT) ==> t in s.placed
  }

  ghost predicate PassedSynced(s: State)
    requires Bounded(s)
  {
    forall i :: 0 <= i < s.cur && s.mode[s.run[i]] == WAITING ==> s.run[i] in s.synced
  }

  /** The stronger invariant that holds when no thread leaves before it was woken once: the
      remembered run-list index of every such thread is exact, and whatever the cursor has
      passed in this phase runs, has left or has synced. */
  ghost predicate Orderly(s: State) {
    && Safe(s) && IndexExact(s) && PlacedModes(s) && PassedSynced(s) && s.fair
  }

  // ---------------------------------------------------------------- waking threads

  /** The wake-up loop: advance the cursor, waking waiting threads, while below the cap. */
  function Wake(s: State): (r: State)
    requires Bounded(s)
    ensures Bounded(r)
    ensures r.run == s.run && r.cap == s.cap && r.phase == s.phase && r.left == s.left && r.synced == s.synced
    ensures r.cur >= s.cur && r.running >= s.running && r.fair == s.fair && |r.mode| == |s.mode|
    decreases |s.run| - s.cur
  {
    if s.running < s.cap && s.cur < |s.run| then Wake(WakeOne(s)) else s
  }

  function WakeOne(s: State): (r: State)
    requires Bounded(s) && s.cur < |s.run|
    ensures Bounded(r) && r.cur == s.cur + 1 && r.run == s.run && |r.mode| == |s.mode|
  {
    var t := s.run[s.cur];
    if s.mode[t] == WAITING then
      s.(mode := s.mode[t := RUNNING], last := s.last[t := s.cur], cur := s.cur + 1,
         running := s.running + 1, placed := s.placed + {t})
    else s.(cur := s.cur + 1)
  }

  lemma WakeOneSafe(s: State)
    requires Safe(s) && s.running < s.cap && s.cur < |s.run|
    ensures Safe(WakeOne(s))
  {
    var t := s.run[s.cur];
    CountsUpdate(s.mode, t, RUNNING);
  }

  lemma WakeOneOrderly(s: State)
    requires Orderly(s) && s.running < s.cap && s.cur < |s.run|
    ensures Orderly(WakeOne(s))
  {
    WakeOneSafe(s);
    WakeOneIndices(s);
  }

  lemma WakeOneIndices(s: State)
    requires Bounded(s) && Distinct(s.run) && IndexExact(s) && PlacedModes(s) && PassedSynced(s) && s.cur < |s.run|
    ensures var r := WakeOne(s); IndexExact(r) && PlacedModes(r) && PassedSynced(r)
  {
  }

  lemma {:induction false} WakeSafe(s: State)
    requires Safe(s)
    ensures Safe(Wake(s))
    ensures Orderly(s) ==> Orderly(Wake(s))
    decreases |s.run| - s.cur
  {
    if s.running < s.cap && s.cur < |s.run| {
      WakeOneSafe(s);
      if Orderly(s) { WakeOneOrderly(s); }
      WakeSafe(WakeOne(s));
    }
  }

  /** The loop stops at the cap or at the end of the list, and runs somebody if it can. */
  lemma {:induction false} WakeStops(s: State)
    requires Safe(s)
    ensures var r := Wake(s); r.running >= r.cap || r.cur == |r.run|
    ensures s.cap > 0 && (exists i :: s.cur <= i < |s.run| && s.mode[s.run[i]] == WAITING) ==> Wake(s).running > 0
    decreases |s.run| - s.cur
  {
    if s.running < s.cap && s.cur < |s.run| {
      WakeOneSafe(s);
      WakeStops(WakeOne(s));
    }
  }

  // ---------------------------------------------------------------- ending a phase

  predicate PhaseOver(s: State) {
    s.cur == |s.run| && s.running == 0 && s.left != |s.run|
  }

  /** One turn of the cleanup loop at index `idx`: a thread that left goes offline and the
      last list entry takes its slot. */
  function CleanOne(s: State, idx: nat): (r: State)
    requires Bounded(s) && s.cur == 0 && idx < |s.run| && s.mode[s.run[idx]] == LEFT
    ensures Bounded(r) && |r.run| == |s.run| - 1 && r.cur == 0 && |r.mode| == |s.mode|
  {
    var w := s.run[idx];
    var n := |s.run| - 1;
    var z := s.run[n];
    s.(mode := s.mode[w := OFFLINE], run := s.run[idx := z][..n], last := s.last[z := idx],
       left := Less(s.left), placed := s.placed + {z} - {w})
  }

  function Less(n: nat): nat {
    if n > 0 then n - 1 else 0
  }

  /** The cleanup loop. The source leaves the count of departed threads alone until the loop
      ends, checks that it equals the number removed, and zeroes it; counting down here makes
      that check the statement that the result is zero. */
  function Clean(s: State, idx: nat): (r: State)
    requires Bounded(s) && s.cur == 0 && idx <= |s.run|
    ensures Bounded(r) && r.cur == 0 && |r.run| <= |s.run| && |r.mode| == |s.mode|
    decreases |s.run| - idx
  {
    if idx == |s.run| then s
    else if s.mode[s.run[idx]] == LEFT then Clean(CleanOne(s, idx), idx)
    else Clean(s, idx + 1)
  }

  /** `r` differs from `s` only in the order of the list and the indices remembered for it. */
  ghost predicate Rearranged(s: State, r: State) {
    && r == s.(run := r.run, last := r.last, placed := r.placed)
    && |r.run| == |s.run| && s.placed <= r.placed
  }

  /** One Fisher-Yates step: swap list entries `i` and `j`. */
  function SwapEntries(s: State, i: nat, j: nat): (r: State)
    requires Bounded(s) && i < |s.run| && j < |s.run|
    ensures Bounded(r) && |r.run| == |s.run| && |r.mode| == |s.mode|
  {
    var a := s.run[i];
    var b := s.run[j];
    s.(run := s.run[i := b][j := a], last := s.last[a := j][b := i], placed := s.placed + {a, b})
  }

  function Shuffle(s: State, i: nat, draw: Draws): (r: State)
    requires Bounded(s) && (i == 0 || i < |s.run|)
    ensures Bounded(r) && |r.run| == |s.run| && |r.mode| == |s.mode|
    decreases i
  {
    if i == 0 then s
    else Shuffle(SwapEntries(s, i, Pick(draw, i)), i - 1, draw)
  }

  lemma ShuffleStep(s: State, i: nat, draw: Draws)
    requires Bounded(s) && 0 < i < |s.run|
    ensures Shuffle(s, i, draw) == Shuffle(SwapEntries(s, i, Pick(draw, i)), i - 1, draw)
  {
  }

  function Pick(draw: Draws, i: nat): (j: nat)
    ensures j <= i
  {
    if draw(i) <= i then draw(i) else i
  }

  function EndPhase(s: State, draw: Draws): (r: State)
    requires Bounded(s)
    ensures Bounded(r) && |r.mode| == |s.mode|
  {
    if !PhaseOver(s) then s
    else
      MaybeShuffle(MaybeClean(Rewind(s), s.phase), draw)
  }

  /** One phase end in thirty-two drops the departed threads from the list. */
  function MaybeClean(s: State, phase: nat): (r: State)
    requires Bounded(s) && s.cur == 0
    ensures Bounded(r) && r.cur == 0 && |r.mode| == |s.mode|
  {
    if phase % 32 == 0 then Clean(s, 0) else s
  }

  function MaybeShuffle(s: State, draw: Draws): (r: State)
    requires Bounded(s)
    ensures Bounded(r) && |r.run| == |s.run| && |r.mode| == |s.mode|
  {
    if s.cap < |s.run| then Shuffle(s, |s.run| - 1, draw) else s
  }

  /** Everyone on the list has synced in this phase or left. */
  predicate AllDone(s: State)
    requires Bounded(s)
  {
    forall i | 0 <= i < |s.run| :: s.mode[s.run[i]] == LEFT || s.run[i] in s.synced
  }

  function Rewind(s: State): (r: State)
    requires Bounded(s)
    ensures Bounded(r) && |r.mode| == |s.mode| && r.cur == 0
  {
    s.(cur := 0, synced := {}, fair := s.fair && AllDone(s), phase := s.phase + 1)
  }

  lemma RewindSafe(s: State)
    requires Safe(s) && PhaseOver(s)
    ensures Safe(Rewind(s))
    ensures Orderly(s) ==> AllDone(s) && Orderly(Rewind(s))
  {
    CountZero(s.mode, RUNNING);
  }

  lemma CleanOneSafe(s: State, idx: nat)
    requires Safe(s) && s.cur == 0 && s.running == 0 && idx < |s.run| && s.mode[s.run[idx]] == LEFT
    ensures Safe(CleanOne(s, idx)) && s.left > 0 && CleanOne(s, idx).left == s.left - 1
  {
    CountsUpdate(s.mode, s.run[idx], OFFLINE);
    CountZero(s.mode, LEFT);
    CountZero(s.mode, RUNNING);
    CleanOneListed(s, idx);
  }

  lemma CleanOneOrderly(s: State, idx: nat)
    requires Orderly(s) && s.cur == 0 && s.running == 0 && idx < |s.run| && s.mode[s.run[idx]] == LEFT
    ensures Orderly(CleanOne(s, idx))
  {
    CleanOneSafe(s, idx);
    CleanOneIndices(s, idx);
  }

  lemma CleanOneIndices(s: State, idx: nat)
    requires Bounded(s) && Distinct(s.run) && IndexExact(s)
    requires s.cur == 0 && idx < |s.run| && s.mode[s.run[idx]] == LEFT
    ensures IndexExact(CleanOne(s, idx))
  {
  }

  lemma CleanOneListed(s: State, idx: nat)
    requires Bounded(s) && Listed(s) && s.cur == 0 && idx < |s.run| && s.mode[s.run[idx]] == LEFT
    ensures Listed(CleanOne(s, idx))
  {
    var n := |s.run| - 1;
    var r := CleanOne(s, idx);
    assert forall i :: 0 <= i < n ==> r.run[i] == if i == idx then s.run[n] else s.run[i];
    forall t | 0 <= t < |r.mode| && r.mode[t] != OFFLINE
      ensures t in r.run
    {
      assert t in s.run;
      var k :| 0 <= k < |s.run| && s.run[k] == t;
      assert r.run[if k == n then idx else k] == t;
    }
  }

  lemma {:induction false} CleanSafe(s: State, idx: nat)
    requires Safe(s) && s.cur == 0 && s.running == 0 && idx <= |s.run|
    requires forall i :: 0 <= i < idx ==> s.mode[s.run[i]] != LEFT
    ensures Safe(Clean(s, idx)) && Clean(s, idx).running == 0
    ensures Clean(s, idx).left == 0
    ensures |s.run| - |Clean(s, idx).run| == s.left
    ensures Orderly(s) ==> Orderly(Clean(s, idx))
    ensures Clean(s, idx).cap == s.cap
    decreases |s.run| - idx
  {
    if idx == |s.run| {
      if s.left != 0 {
        CountZero(s.mode, LEFT);
        var t :| 0 <= t < |s.mode| && s.mode[t] == LEFT;
        assert t in s.run;
      }
    } else if s.mode[s.run[idx]] == LEFT {
      CleanOneSafe(s, idx);
      if Orderly(s) { CleanOneOrderly(s, idx); }
      CleanSafe(CleanOne(s, idx), idx);
    } else {
      CleanSafe(s, idx + 1);
    }
  }

  lemma SwapListed(s: State, i: nat, j: nat)
    requires Bounded(s) && Listed(s) && i < |s.run| && j < |s.run|
    ensures Listed(SwapEntries(s, i, j))
  {
    var r := SwapEntries(s, i, j);
    forall t | 0 <= t < |r.mode| && r.mode[t] != OFFLINE
      ensures t in r.run
    {
      assert t in s.run;
      var k :| 0 <= k < |s.run| && s.run[k] == t;
      assert r.run[if k == i then j else if k == j then i else k] == t;
    }
  }

  lemma SwapIndices(s: State, i: nat, j: nat)
    requires Bounded(s) && Distinct(s.run) && IndexExact(s) && i < |s.run| && j < |s.run|
    ensures Distinct(SwapEntries(s, i, j).run) && IndexExact(SwapEntries(s, i, j))
  {
  }

  lemma {:induction false} ShuffleListed(s: State, i: nat, draw: Draws)
    requires Bounded(s) && Listed(s) && (i == 0 || i < |s.run|)
    ensures Listed(Shuffle(s, i, draw))
    decreases i
  {
    if i > 0 {
      SwapListed(s, i, Pick(draw, i));
      ShuffleListed(SwapEntries(s, i, Pick(draw, i)), i - 1, draw);
    }
  }

  lemma {:induction false} ShuffleIndices(s: State, i: nat, draw: Draws)
    requires Bounded(s) && Distinct(s.run) && IndexExact(s) && (i == 0 || i < |s.run|)
    ensures IndexExact(Shuffle(s, i, draw))
    decreases i
  {
    if i > 0 {
      SwapIndices(s, i, Pick(draw, i));
      ShuffleIndices(SwapEntries(s, i, Pick(draw, i)), i - 1, draw);
    }
  }

  lemma {:induction false} ShuffleRearranges(s: State, i: nat, draw: Draws)
    requires Bounded(s) && (i == 0 || i < |s.run|)
    ensures Rearranged(s, Shuffle(s, i, draw))
    decreases i
  {
    if i > 0 { ShuffleRearranges(SwapEntries(s, i, Pick(draw, i)), i - 1, draw); }
  }

  lemma ShuffleSafe(s: State, i: nat, draw: Draws)
    requires Safe(s) && s.cur == 0 && s.running == 0 && (i == 0 || i < |s.run|)
    ensures Safe(Shuffle(s, i, draw))
    ensures Orderly(s) ==> Orderly(Shuffle(s, i, draw))
  {
    ShuffleListed(s, i, draw);
    ShuffleRearranges(s, i, draw);
    CountZero(s.mode, RUNNING);
    if Orderly(s) { ShuffleIndices(s, i, draw); }
  }

  /** The check the source makes at the end of its cleanup pass: it removed exactly the
      departed threads. */
  ghost predicate CleanFits(s: State)
    requires Bounded(s) && s.cur == 0
  {
    Clean(s, 0).left == 0 && |s.run| - |Clean(s, 0).run| == s.left
  }

  lemma RewindFits(s: State)
    requires Safe(s)
    ensures PhaseOver(s) ==> CleanFits(Rewind(s))
  {
    if PhaseOver(s) {
      RewindSafe(s);
      CleanSafe(Rewind(s), 0);
    }
  }

  lemma MaybeCleanSafe(s: State, phase: nat)
    requires Safe(s) && s.cur == 0 && s.running == 0 && s.left < |s.run|
    ensures var r := MaybeClean(s, phase);
      Safe(r) && (Orderly(s) ==> Orderly(r)) && r.cap == s.cap && r.running == 0 && r.left < |r.run|
  {
    CleanSafe(s, 0);
  }

  lemma MaybeShuffleSafe(s: State, draw: Draws)
    requires Safe(s) && s.cur == 0 && s.running == 0
    ensures Safe(MaybeShuffle(s, draw)) && (Orderly(s) ==> Orderly(MaybeShuffle(s, draw)))
    ensures Rearranged(s, MaybeShuffle(s, draw))
  {
    if s.cap < |s.run| {
      ShuffleSafe(s, |s.run| - 1, draw);
      ShuffleRearranges(s, |s.run| - 1, draw);
    }
  }

  /** Ending a phase keeps both invariants. In the orderly case the phase that ends was fair:
      the cursor is at the end and nobody runs, so every listed thread has synced or left. */
  lemma EndPhaseSafe(s: State, draw: Draws)
    requires Safe(s)
    ensures Safe(EndPhase(s, draw))
    ensures Orderly(s) ==> Orderly(EndPhase(s, draw))
    ensures EndPhase(s, draw).cap == s.cap
    ensures PhaseOver(s) ==> (var r := EndPhase(s, draw); r.cur == 0 && r.running == 0 && r.left < |r.run|)
  {
    if PhaseOver(s) {
      RewindSafe(s);
      MaybeCleanSafe(Rewind(s), s.phase);
      MaybeShuffleSafe(MaybeClean(Rewind(s), s.phase), draw);
    }
  }

  function TryWakeNext(s: State, draw: Draws): (r: State)
    requires Bounded(s)
    ensures Bounded(r) && |r.mode| == |s.mode|
  {
    Wake(EndPhase(Wake(s), draw))
  }

  /** Work conservation, which every step establishes: the cap is reached or the cursor has
      run out of threads; and someone runs unless all online threads have left. */
  ghost predicate Busy(s: State) {
    && (s.running == s.cap || s.cur == |s.run|)
    && (s.running > 0 || s.left == |s.run|)
  }

  lemma TryWakeNextSafe(s: State, draw: Draws)
    requires Safe(s)
    ensures Safe(TryWakeNext(s, draw))
    ensures Orderly(s) ==> Orderly(TryWakeNext(s, draw))
    ensures s.cap > 0 ==> Busy(TryWakeNext(s, draw))
    ensures TryWakeNext(s, draw).cap == s.cap
  {
    var s1 := Wake(s);
    var s2 := EndPhase(s1, draw);
    WakeSafe(s);
    WakeStops(s);
    EndPhaseSafe(s1, draw);
    WakeSafe(s2);
    WakeStops(s2);
    if PhaseOver(s1) && s.cap > 0 {
      SomebodyWaits(s2);
    }
  }

  lemma SomebodyWaits(s: State)
    requires Safe(s) && s.cur == 0 && s.running == 0 && s.left < |s.run|
    ensures exists i :: s.cur <= i < |s.run| && s.mode[s.run[i]] == WAITING
  {
    CountZero(s.mode, WAITING);
    var t :| 0 <= t < |s.mode| && s.mode[t] == WAITING;
    assert t in s.run;
    var i :| 0 <= i < |s.run| && s.run[i] == t;
  }

  // ---------------------------------------------------------------- the three operations

  datatype Op = Join(tid: nat, draw: Draws) | Leave(tid: nat, draw: Draws) | Sync(tid: nat, draw: Draws)

  /** What the source asserts of a caller. */
  predicate Allowed(s: State, op: Op) {
    && op.tid < |s.mode|
    && match op
       case Join(t, _) => s.mode[t] == LEFT || s.mode[t] == OFFLINE
       case Leave(t, _) => s.mode[t] == RUNNING || s.mode[t] == WAITING
       case Sync(t, _) => s.mode[t] == RUNNING
  }

  /** The join aborts on its inner assertion: the thread looks as if it had run in this phase,
      but the list slot it remembers belongs to someone else. */
  predicate JoinAborts(s: State, t: nat)
    requires Bounded(s) && t < |s.mode|
  {
    s.mode[t] == LEFT && s.last[t] < s.cur && s.run[s.last[t]] != t
  }

  /** An offline thread goes to the end of the list. */
  function Append(s: State, t: nat): (r: State)
    requires Bounded(s) && t < |s.mode|
    ensures Bounded(r) && |r.mode| == |s.mode|
  {
    s.(run := s.run + [t], mode := s.mode[t := WAITING], placed := s.placed - {t}, synced := s.synced - {t})
  }

  /** A thread that has already been passed by the cursor is moved back to be next. */
  function Reschedule(s: State, t: nat): (r: State)
    requires Bounded(s)
    ensures Bounded(r) && |r.mode| == |s.mode| && r.mode == s.mode
  {
    if t < |s.last| && s.last[t] < s.cur then SwapEntries(s, s.last[t], s.cur - 1).(cur := s.cur - 1) else s
  }

  /** A thread that had left waits again. */
  function Return(s: State, t: nat): (r: State)
    requires Bounded(s) && t < |s.mode|
    ensures Bounded(r) && |r.mode| == |s.mode|
  {
    s.(mode := s.mode[t := WAITING], left := Less(s.left), synced := s.synced - {t})
  }

  function Enlist(s: State, t: nat): (r: State)
    requires Bounded(s) && t < |s.mode| && !JoinAborts(s, t)
    ensures Bounded(r) && |r.mode| == |s.mode|
  {
    if s.mode[t] == OFFLINE then Append(s, t) else Return(Reschedule(s, t), t)
  }

  /** The state just before an operation calls the wake-up routine. */
  function Before(s: State, op: Op): (r: State)
    requires Bounded(s) && Allowed(s, op) && !(op.Join? && JoinAborts(s, op.tid))
    ensures Bounded(r) && |r.mode| == |s.mode|
  {
    match op
    case Join(t, _) => Enlist(s, t)
    case Leave(t, _) =>
      s.(mode := s.mode[t := LEFT], left := s.left + 1,
         running := if s.mode[t] == RUNNING then Less(s.running) else s.running)
    case Sync(t, _) =>
      s.(mode := s.mode[t := WAITING], running := Less(s.running),
         synced := s.synced + {t})
  }

  /** One atomic operation; None when it aborts. */
  function Step(s: State, op: Op): (r: Option<State>)
    requires Bounded(s) && Allowed(s, op)
    ensures r.Some? ==> Bounded(r.value) && |r.value.mode| == |s.mode|
  {
    if op.Join? && JoinAborts(s, op.tid) then None
    else if op.Leave? && s.mode[op.tid] == WAITING then Some(Before(s, op))
    else Some(TryWakeNext(Before(s, op), op.draw))
  }

  lemma AppendSafe(s: State, t: nat)
    requires Safe(s) && t < |s.mode| && s.mode[t] == OFFLINE
    ensures Safe(Append(s, t))
  {
    CountsUpdate(s.mode, t, WAITING);
    AppendListed(s, t);
  }

  lemma AppendListed(s: State, t: nat)
    requires Bounded(s) && Listed(s) && t < |s.mode| && s.mode[t] == OFFLINE
    ensures Listed(Append(s, t))
  {
    var r := Append(s, t);
    assert r.run[|s.run|] == t;
    forall u | 0 <= u < |r.mode| && r.mode[u] != OFFLINE
      ensures u in r.run
    {
      if u != t { assert u in s.run; }
    }
  }

  lemma AppendOrderly(s: State, t: nat)
    requires Orderly(s) && t < |s.mode| && s.mode[t] == OFFLINE
    ensures Orderly(Append(s, t))
  {
    AppendSafe(s, t);
  }

  lemma ReturnSafe(s: State, t: nat)
    requires Safe(s) && t < |s.mode| && s.mode[t] == LEFT
    ensures Safe(Return(s, t))
  {
    CountsUpdate(s.mode, t, WAITING);
    CountZero(s.mode, LEFT);
  }

  lemma ReturnOrderly(s: State, t: nat)
    requires Orderly(s) && t < |s.mode| && s.mode[t] == LEFT && s.last[t] >= s.cur
    ensures Orderly(Return(s, t))
  {
    ReturnSafe(s, t);
    var r := Return(s, t);
    assert t in s.placed;
    forall i | 0 <= i < r.cur && r.mode[r.run[i]] == WAITING
      ensures r.run[i] in r.synced
    {
      assert s.run[i] != s.run[s.last[t]];
    }
  }

  lemma RescheduleSafe(s: State, t: nat)
    requires Safe(s) && t < |s.mode| && s.mode[t] == LEFT && !JoinAborts(s, t)
    ensures Safe(Reschedule(s, t))
  {
    if s.last[t] < s.cur {
      SwapListed(s, s.last[t], s.cur - 1);
      RescheduleIdle(s, t);
    }
  }

  lemma RescheduleIdle(s: State, t: nat)
    requires Bounded(s) && AheadIdle(s)
    requires t < |s.mode| && s.mode[t] == LEFT && s.last[t] < s.cur && s.run[s.last[t]] == t
    ensures AheadIdle(Reschedule(s, t))
  {
    var r := Reschedule(s, t);
    forall i | r.cur <= i < |r.run|
      ensures r.mode[r.run[i]] != RUNNING
    {
      assert r.run[i] == if i == s.cur - 1 then t else s.run[i];
    }
  }

  lemma RescheduleOrderly(s: State, t: nat)
    requires Orderly(s) && t < |s.mode| && s.mode[t] == LEFT
    ensures !JoinAborts(s, t)
    ensures Orderly(Reschedule(s, t))
    ensures t in Reschedule(s, t).placed && Reschedule(s, t).last[t] >= Reschedule(s, t).cur
  {
    assert t in s.placed;
    RescheduleSafe(s, t);
    RescheduleIndices(s, t);
  }

  lemma RescheduleIndices(s: State, t: nat)
    requires Bounded(s) && Distinct(s.run) && IndexExact(s) && PassedSynced(s) && t in s.placed && s.mode[t] == LEFT
    ensures var r := Reschedule(s, t);
      && IndexExact(r) && PassedSynced(r) && s.placed <= r.placed && r.last[t] >= r.cur
  {
    RescheduleExact(s, t);
    if s.last[t] < s.cur { ReschedulePassed(s, t); }
  }

  lemma RescheduleExact(s: State, t: nat)
    requires Bounded(s) && Distinct(s.run) && IndexExact(s)
    ensures IndexExact(Reschedule(s, t)) && s.placed <= Reschedule(s, t).placed
  {
    if t < |s.last| && s.last[t] < s.cur { SwapIndices(s, s.last[t], s.cur - 1); }
  }

  lemma ReschedulePassed(s: State, t: nat)
    requires Bounded(s) && Distinct(s.run) && PassedSynced(s)
    requires t < |s.mode| && s.mode[t] == LEFT && s.last[t] < s.cur && s.run[s.last[t]] == t
    ensures PassedSynced(Reschedule(s, t)) && Reschedule(s, t).last[t] == s.cur - 1
  {
    var r := Reschedule(s, t);
    forall i | 0 <= i < r.cur && r.mode[r.run[i]] == WAITING
      ensures r.run[i] in r.synced
    {
      assert r.run[i] == if i == s.last[t] then s.run[s.cur - 1] else s.run[i];
    }
  }

  lemma EnlistSafe(s: State, t: nat)
    requires Safe(s) && t < |s.mode| && (s.mode[t] == LEFT || s.mode[t] == OFFLINE) && !JoinAborts(s, t)
    ensures Safe(Enlist(s, t))
  {
    if s.mode[t] == OFFLINE {
      AppendSafe(s, t);
    } else {
      RescheduleSafe(s, t);
      ReturnSafe(Reschedule(s, t), t);
    }
  }

  /** In an orderly barrier a join does not abort, and the thread ends up ahead of the cursor. */
  lemma EnlistOrderly(s: State, t: nat)
    requires Orderly(s) && t < |s.mode| && (s.mode[t] == LEFT || s.mode[t] == OFFLINE)
    ensures !JoinAborts(s, t)
    ensures Orderly(Enlist(s, t))
    ensures exists i :: Enlist(s, t).cur <= i < |Enlist(s, t).run| && Enlist(s, t).run[i] == t
  {
    if s.mode[t] == OFFLINE {
      AppendOrderly(s, t);
      assert Enlist(s, t).run[|s.run|] == t;
    } else {
      RescheduleOrderly(s, t);
      var m := Reschedule(s, t);
      ReturnOrderly(m, t);
      assert Enlist(s, t).run[m.last[t]] == t;
    }
  }

  lemma BeforeSafe(s: State, op: Op)
    requires Safe(s) && Allowed(s, op) && !(op.Join? && JoinAborts(s, op.tid))
    ensures Safe(Before(s, op)) && Before(s, op).cap == s.cap
  {
    match op
    case Join(t, _) => EnlistSafe(s, t);
    case Leave(t, _) => LeaveSafe(s, op);
    case Sync(t, _) => SyncSafe(s, op);
  }

  lemma LeaveSafe(s: State, op: Op)
    requires Safe(s) && Allowed(s, op) && op.Leave?
    ensures Safe(Before(s, op))
  {
    CountZero(s.mode, RUNNING);
    CountsUpdate(s.mode, op.tid, LEFT);
  }

  lemma SyncSafe(s: State, op: Op)
    requires Safe(s) && Allowed(s, op) && op.Sync?
    ensures Safe(Before(s, op))
  {
    CountZero(s.mode, RUNNING);
    CountsUpdate(s.mode, op.tid, WAITING);
  }

  lemma BeforeOrderly(s: State, op: Op)
    requires Orderly(s) && Allowed(s, op) && OrderlyCall(s, op)
    ensures !(op.Join? && JoinAborts(s, op.tid))
    ensures Orderly(Before(s, op))
  {
    if op.Join? {
      EnlistOrderly(s, op.tid);
    } else {
      BeforeSafe(s, op);
    }
  }

  /** A caller is orderly when no thread leaves while it still waits for its first wake-up
      since coming online. */
  predicate OrderlyCall(s: State, op: Op)
    requires Allowed(s, op)
  {
    op.Leave? ==> s.mode[op.tid] == RUNNING || op.tid in s.placed
  }

  /** Every operation keeps the run list exact, the counters exact, the number of running
      threads within the cap and the running threads before the cursor, whoever calls it. */
  lemma StepSafe(s: State, op: Op)
    requires Safe(s) && Allowed(s, op) && Step(s, op).Some?
    ensures Safe(Step(s, op).value) && Step(s, op).value.cap == s.cap
  {
    BeforeSafe(s, op);
    TryWakeNextSafe(Before(s, op), op.draw);
  }

  /** Under orderly calls no join aborts, every phase ends fairly, and remembered indices
      stay exact. */
  lemma StepOrderly(s: State, op: Op)
    requires Orderly(s) && Allowed(s, op) && OrderlyCall(s, op)
    ensures Step(s, op).Some? && Orderly(Step(s, op).value)
  {
    BeforeOrderly(s, op);
    TryWakeNextSafe(Before(s, op), op.draw);
  }

  /** Every operation leaves the barrier busy: at the cap or out of candidates, and never
      idle while somebody could run. */
  lemma StepBusy(s: State, op: Op)
    requires Safe(s) && Busy(s) && s.cap > 0 && Allowed(s, op) && Step(s, op).Some?
    ensures Busy(Step(s, op).value)
  {
    BeforeSafe(s, op);
    TryWakeNextSafe(Before(s, op), op.draw);
    if op.Leave? && s.mode[op.tid] == WAITING {
      CountZero(s.mode, WAITING);
    }
  }

  /** A join never ends a phase: the joining thread itself is ahead of the cursor. */
  lemma JoinNeverEndsPhase(s: State, op: Op)
    requires Orderly(s) && s.cap > 0 && Allowed(s, op) && op.Join?
    ensures !JoinAborts(s, op.tid) && !PhaseOver(Wake(Before(s, op)))
    ensures Step(s, op) == Some(Wake(Wake(Before(s, op))))
    ensures Step(s, op).value.phase == s.phase
  {
    EnlistOrderly(s, op.tid);
    WakeStops(Before(s, op));
  }

  // ---------------------------------------------------------------- any caller at all

  // Remembered indices stay exact for every placed thread even when callers are not orderly.

  lemma WakeOneExact(s: State)
    requires Bounded(s) && Distinct(s.run) && IndexExact(s) && s.cur < |s.run|
    ensures IndexExact(WakeOne(s))
  {
  }

  lemma {:induction false} WakeExact(s: State)
    requires Safe(s) && IndexExact(s)
    ensures IndexExact(Wake(s))
    decreases |s.run| - s.cur
  {
    if s.running < s.cap && s.cur < |s.run| {
      WakeOneSafe(s);
      WakeOneExact(s);
      WakeExact(WakeOne(s));
    }
  }

  lemma {:induction false} CleanExact(s: State, idx: nat)
    requires Safe(s) && IndexExact(s) && s.cur == 0 && s.running == 0 && idx <= |s.run|
    ensures IndexExact(Clean(s, idx))
    decreases |s.run| - idx
  {
    if idx < |s.run| {
      if s.mode[s.run[idx]] == LEFT {
        CleanOneSafe(s, idx);
        CleanOneIndices(s, idx);
        CleanExact(CleanOne(s, idx), idx);
      } else {
        CleanExact(s, idx + 1);
      }
    }
  }

  lemma MaybeCleanExact(s: State, phase: nat)
    requires Safe(s) && IndexExact(s) && s.cur == 0 && s.running == 0
    ensures IndexExact(MaybeClean(s, phase))
  {
    CleanExact(s, 0);
  }

  lemma MaybeShuffleExact(s: State, draw: Draws)
    requires Bounded(s) && Distinct(s.run) && IndexExact(s)
    ensures IndexExact(MaybeShuffle(s, draw))
  {
    if s.cap < |s.run| { ShuffleIndices(s, |s.run| - 1, draw); }
  }

  lemma EndPhaseExact(s: State, draw: Draws)
    requires Safe(s) && IndexExact(s)
    ensures IndexExact(EndPhase(s, draw))
  {
    if PhaseOver(s) {
      RewindSafe(s);
      MaybeCleanSafe(Rewind(s), s.phase);
      MaybeCleanExact(Rewind(s), s.phase);
      MaybeShuffleExact(MaybeClean(Rewind(s), s.phase), draw);
    }
  }

  lemma TryWakeNextExact(s: State, draw: Draws)
    requires Safe(s) && IndexExact(s)
    ensures IndexExact(TryWakeNext(s, draw))
  {
    WakeSafe(s);
    WakeExact(s);
    EndPhaseSafe(Wake(s), draw);
    EndPhaseExact(Wake(s), draw);
    WakeExact(EndPhase(Wake(s), draw));
  }

  lemma AppendExact(s: State, t: nat)
    requires Bounded(s) && IndexExact(s) && t < |s.mode|
    ensures IndexExact(Append(s, t))
  {
  }

  lemma ReturnExact(s: State, t: nat)
    requires Bounded(s) && Distinct(s.run) && IndexExact(s) && t < |s.mode|
    ensures IndexExact(Return(Reschedule(s, t), t))
  {
    RescheduleExact(s, t);
  }

  lemma EnlistExact(s: State, t: nat)
    requires Bounded(s) && Distinct(s.run) && IndexExact(s) && t < |s.mode| && !JoinAborts(s, t)
    ensures IndexExact(Enlist(s, t))
  {
    if s.mode[t] == OFFLINE { AppendExact(s, t); } else { ReturnExact(s, t); }
  }

  /** Every operation keeps the remembered index of every placed thread exact, whoever calls it. */
  lemma StepExact(s: State, op: Op)
    requires Safe(s) && IndexExact(s) && Allowed(s, op) && Step(s, op).Some?
    ensures IndexExact(Step(s, op).value)
  {
    BeforeSafe(s, op);
    if op.Join? { EnlistExact(s, op.tid); }
    TryWakeNextExact(Before(s, op), op.draw);
  }

  /** Exactly when an operation aborts: it is a join of a thread that left before it was first
      woken or moved since coming online, and the index it remembers from before then lies under
      the cursor and now belongs to another thread. */
  lemma AbortsIff(s: State, op: Op)
    requires Safe(s) && IndexExact(s) && Allowed(s, op)
    ensures Step(s, op) == None <==>
      && op.Join? && s.mode[op.tid] == LEFT && op.tid !in s.placed
      && s.last[op.tid] < s.cur && s.run[s.last[op.tid]] != op.tid
  {
  }

  lemma AheadIsWoken(s: State, i: nat)
    requires Safe(s) && s.cap > 0 && s.cur <= i < |s.run| && s.mode[s.run[i]] == WAITING
    ensures Wake(s).running > 0
  {
    WakeStops(s);
  }

  /** Exactly when a join ends a phase, contrary to the source's note that it cannot: nobody
      runs, and a thread comes back that had left before its first wake-up and remembers an
      index beyond the end of the list. */
  lemma JoinEndsPhaseIff(s: State, op: Op)
    requires Safe(s) && IndexExact(s) && Busy(s) && s.cap > 0 && Allowed(s, op) && op.Join? && Step(s, op).Some?
    ensures PhaseOver(Wake(Before(s, op))) <==> s.mode[op.tid] == LEFT && s.running == 0 && s.last[op.tid] >= |s.run|
    ensures PhaseOver(Wake(Before(s, op))) ==> op.tid !in s.placed
  {
    var t, b := op.tid, Before(s, op);
    BeforeSafe(s, op);
    if s.mode[t] == OFFLINE {
      AheadIsWoken(b, |s.run|);
    } else if s.last[t] < s.cur {
      assert b.run[b.cur] == t;
      AheadIsWoken(b, b.cur);
    } else if s.running == 0 {
      SomebodyLeft(s, t);
    }
  }

  function Initial(cap: nat, threads: nat, last: seq<nat>): (s: State)
    requires |last| == threads
    ensures Bounded(s)
  {
    State(cap, seq(threads, t => OFFLINE), last, [], 0, 0, 0, 0, {}, {}, true)
  }

  lemma InitialOrderly(cap: nat, threads: nat, last: seq<nat>)
    requires |last| == threads
    ensures Orderly(Initial(cap, threads, last)) && Busy(Initial(cap, threads, last))
  {
    var s := Initial(cap, threads, last);
    CountZero(s.mode, WAITING);
    CountZero(s.mode, RUNNING);
    CountZero(s.mode, LEFT);
  }

  // ---------------------------------------------------------------- whole runs

  /** A run of allowed calls that has not aborted so far. */
  ghost predicate IsRun(trace: seq<State>, ops: seq<Op>) {
    && |trace| == |ops| + 1
    && (forall k :: 0 <= k < |trace| ==> Bounded(trace[k]))
    && forall k :: 0 <= k < |ops| ==>
         Allowed(trace[k], ops[k]) && Step(trace[k], ops[k]) == Some(trace[k + 1])
  }

  /** Safety, exact indices and work conservation in every state of every run, whoever calls. */
  lemma {:induction false} EveryRunSafe(trace: seq<State>, ops: seq<Op>, k: nat)
    requires IsRun(trace, ops) && Safe(trace[0]) && IndexExact(trace[0]) && Busy(trace[0]) && trace[0].cap > 0
    requires k < |trace|
    ensures Safe(trace[k]) && IndexExact(trace[k]) && Busy(trace[k]) && trace[k].cap == trace[0].cap
  {
    if k > 0 {
      EveryRunSafe(trace, ops, k - 1);
      assert Step(trace[k - 1], ops[k - 1]) == Some(trace[k]);
      StepSafe(trace[k - 1], ops[k - 1]);
      StepExact(trace[k - 1], ops[k - 1]);
      StepBusy(trace[k - 1], ops[k - 1]);
    }
  }

  /** In a run of orderly calls every phase ended only after each listed thread had synced in
      it or left, and the next call, if allowed, does not abort. */
  lemma {:induction false} EveryOrderlyRunFair(trace: seq<State>, ops: seq<Op>, k: nat)
    requires IsRun(trace, ops) && Orderly(trace[0]) && k < |trace|
    requires forall i :: 0 <= i < |ops| ==> OrderlyCall(trace[i], ops[i])
    ensures Orderly(trace[k]) && trace[k].fair
    ensures forall op :: Allowed(trace[k], op) && OrderlyCall(trace[k], op) ==> Step(trace[k], op).Some?
  {
    if k > 0 {
      EveryOrderlyRunFair(trace, ops, k - 1);
      assert Step(trace[k - 1], ops[k - 1]) == Some(trace[k]);
      StepOrderly(trace[k - 1], ops[k - 1]);
    }
    forall op | Allowed(trace[k], op) && OrderlyCall(trace[k], op)
      ensures Step(trace[k], op).Some?
    {
      StepOrderly(trace[k], op);
    }
  }

  /** The same condition decides every call that could follow any run at all. */
  lemma EveryRunAbortsIff(trace: seq<State>, ops: seq<Op>, k: nat, op: Op)
    requires IsRun(trace, ops) && Safe(trace[0]) && IndexExact(trace[0]) && Busy(trace[0]) && trace[0].cap > 0
    requires k < |trace| && Allowed(trace[k], op)
    ensures var s := trace[k];
      Step(s, op) == None <==>
        && op.Join? && s.mode[op.tid] == LEFT && op.tid !in s.placed
        && s.last[op.tid] < s.cur && s.run[s.last[op.tid]] != op.tid
  {
    EveryRunSafe(trace, ops, k);
    AbortsIff(trace[k], op);
  }

  // ---------------------------------------------------------------- the stale index

  /** Thread 0 runs, thread 1 waits behind it for its first wake-up. It remembers index `l`,
      which nothing has written since the barrier was made; the source does not initialise it. */
  function Crowded(l: nat): State {
    State(1, [RUNNING, WAITING], [0, l], [0, 1], 1, 1, 0, 0, {0}, {}, true)
  }

  lemma CrowdedIsReached(l: nat, draw: Draws)
    ensures var s0 := Initial(1, 2, [0, l]);
      && Step(s0, Join(0, draw)).Some?
      && Allowed(Step(s0, Join(0, draw)).value, Join(1, draw))
      && Step(Step(s0, Join(0, draw)).value, Join(1, draw)) == Some(Crowded(l))
  {
    var s0 := Initial(1, 2, [0, l]);
    var b0 := Before(s0, Join(0, draw));
    assert b0 == State(1, [WAITING, OFFLINE], [0, l], [0], 0, 0, 0, 0, {}, {}, true);
    var s1 := WakeOne(b0);
    assert s1 == State(1, [RUNNING, OFFLINE], [0, l], [0], 1, 1, 0, 0, {0}, {}, true);
    assert Wake(b0) == s1 == Wake(s1) == EndPhase(s1, draw);
    var b1 := Before(s1, Join(1, draw));
    assert b1 == Crowded(l);
    assert Wake(b1) == b1 == EndPhase(b1, draw);
  }

  /** The abort does happen. With a cap of one, thread 1 joins behind the running thread 0,
      leaves without ever having been woken, and its next join aborts if the index it remembers
      is 0. */
  lemma StaleIndexAborts(draw: Draws)
    ensures var s := Crowded(0);
      && Bounded(s) && Allowed(s, Leave(1, draw)) && !OrderlyCall(s, Leave(1, draw))
      && Step(s, Leave(1, draw)).Some?
      && Allowed(Step(s, Leave(1, draw)).value, Join(1, draw))
      && Step(Step(s, Leave(1, draw)).value, Join(1, draw)) == None
  {
    var s := Crowded(0);
    assert s.mode[1] == WAITING && 1 !in s.placed;
    var t := Step(s, Leave(1, draw)).value;
    assert t == s.(mode := [RUNNING, LEFT], left := 1);
    assert JoinAborts(t, 1);
  }

  /** The join that ends a phase happens too. If the index is 2 or more and thread 0 also leaves,
      the return of thread 1 ends the phase. */
  lemma StaleIndexEndsPhase(l: nat, draw: Draws)
    requires l >= 2
    ensures var s := Crowded(l);
      && Bounded(s) && Allowed(s, Leave(1, draw)) && Step(s, Leave(1, draw)).Some?
      && var s1 := Step(s, Leave(1, draw)).value;
      && Allowed(s1, Leave(0, draw)) && Step(s1, Leave(0, draw)).Some?
      && var s2 := Step(s1, Leave(0, draw)).value;
      && Allowed(s2, Join(1, draw)) && !JoinAborts(s2, 1)
      && PhaseOver(Wake(Before(s2, Join(1, draw))))
  {
    var s := Crowded(l);
    var s1 := Step(s, Leave(1, draw)).value;
    assert s1 == s.(mode := [RUNNING, LEFT], left := 1);
    var b := Before(s1, Leave(0, draw));
    assert b == s.(mode := [LEFT, LEFT], left := 2, running := 0);
    var w := WakeOne(b);
    assert w == b.(cur := 2);
    assert Wake(b) == w == Wake(w) == EndPhase(w, draw);
    var j := Before(w, Join(1, draw));
    assert j == w.(mode := [LEFT, WAITING], left := 1, synced := {});
    assert Wake(j) == j;
  }
}
