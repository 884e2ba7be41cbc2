/** What each barrier call does to its caller and to everyone else, and what a phase is: nobody runs
    twice in it, and it ends exactly when everyone on the list has synced or left. */
module BarrierFairness {
  import opened Option
  import opened BarrierSpec

  // ---------------------------------------------------------------- who is affected

  /** Waking changes waiting threads to running ones, ahead of the cursor, and nothing else. */
  predicate OnlyWoken(a: seq<Mode>, b: seq<Mode>) {
    |a| == |b| && forall u | 0 <= u < |a| :: b[u] == a[u] || (a[u] == WAITING && b[u] == RUNNING)
  }

  lemma {:induction false} WakeEffect(s: State, t: nat)
    requires Safe(s) && t < |s.mode|
    ensures OnlyWoken(s.mode, Wake(s).mode)
    ensures (forall i :: s.cur <= i < |s.run| ==> s.run[i] != t) ==> Wake(s).mode[t] == s.mode[t]
    decreases |s.run| - s.cur
  {
    if s.running < s.cap && s.cur < |s.run| {
      WakeOneSafe(s);
      WakeEffect(WakeOne(s), t);
    }
  }

  /** A cleanup takes threads that left offline, and nothing else. */
  predicate OnlyDropped(a: seq<Mode>, b: seq<Mode>) {
    |a| == |b| && forall u | 0 <= u < |a| :: b[u] == a[u] || (a[u] == LEFT && b[u] == OFFLINE)
  }

  lemma {:induction false} CleanEffect(s: State, idx: nat)
    requires Bounded(s) && s.cur == 0 && idx <= |s.run|
    ensures OnlyDropped(s.mode, Clean(s, idx).mode)
    decreases |s.run| - idx
  {
    if idx < |s.run| {
      if s.mode[s.run[idx]] == LEFT { CleanEffect(CleanOne(s, idx), idx); } else { CleanEffect(s, idx + 1); }
    }
  }

  lemma {:induction false} CleanFields(s: State, idx: nat)
    requires Bounded(s) && s.cur == 0 && idx <= |s.run|
    ensures var r := Clean(s, idx); r.phase == s.phase && r.synced == s.synced && r.cap == s.cap
    decreases |s.run| - idx
  {
    if idx < |s.run| {
      if s.mode[s.run[idx]] == LEFT { CleanFields(CleanOne(s, idx), idx); } else { CleanFields(s, idx + 1); }
    }
  }

  /** The end of a phase, once it is over: the phase count grows, nobody has synced in the new phase,
      and one end in thirty-two takes exactly the departed threads offline. */
  lemma EndPhaseEffect(s: State, draw: Draws)
    requires Safe(s) && PhaseOver(s)
    ensures var r := EndPhase(s, draw);
      && r.phase == s.phase + 1 && r.synced == {} && r.cap == s.cap
      && |r.mode| == |s.mode|
      && forall u :: 0 <= u < |s.mode| ==>
           r.mode[u] == if s.mode[u] == LEFT && s.phase % 32 == 0 then OFFLINE else s.mode[u]
  {
    var w := Rewind(s);
    RewindSafe(s);
    MaybeCleanSafe(w, s.phase);
    MaybeShuffleSafe(MaybeClean(w, s.phase), draw);
    if s.phase % 32 == 0 {
      CleanEffect(w, 0);
      CleanFields(w, 0);
      CleanSafe(w, 0);
      CountZero(Clean(w, 0).mode, LEFT);
    }
  }

  /** What a caller is after its call, if the phase has not ended. */
  predicate CallerIs(op: Op, m: Mode) {
    match op
    case Join(_, _) => m == WAITING || m == RUNNING
    case Leave(_, _) => m == LEFT
    case Sync(_, _) => m == WAITING
  }

  lemma BeforeEffect(s: State, op: Op)
    requires Safe(s) && Allowed(s, op) && !(op.Join? && JoinAborts(s, op.tid))
    ensures var b := Before(s, op);
      && b.phase == s.phase
      && b.mode == s.mode[op.tid := if op.Leave? then LEFT else WAITING]
      && b.synced == Entered(s.synced, op)
      && (!op.Join? ==> b.run == s.run && b.cur == s.cur)
  {
  }

  /** A thread that runs is behind the cursor. */
  lemma RunningBehind(s: State, t: nat)
    requires Safe(s) && t < |s.mode| && s.mode[t] == RUNNING
    ensures forall i :: s.cur <= i < |s.run| ==> s.run[i] != t
  {
  }

  /** The effect of every call, whoever makes it. Within a phase the caller of a sync waits, that of
      a leave has left, that of a join waits or runs, and everyone else stays as they were unless
      woken. A call that ends the phase finds nobody else running; everyone else waits, or is woken,
      or stays away, and one end in thirty-two takes exactly the departed offline. */
  lemma StepEffect(s: State, op: Op, u: nat)
    requires Safe(s) && Allowed(s, op) && Step(s, op).Some? && u < |s.mode|
    ensures var r := Step(s, op).value;
      && (r.phase == s.phase || r.phase == s.phase + 1)
      && (r.phase == s.phase ==>
            if u == op.tid then CallerIs(op, r.mode[u])
            else r.mode[u] == s.mode[u] || (s.mode[u] == WAITING && r.mode[u] == RUNNING))
      && (r.phase != s.phase ==>
            if u == op.tid && !op.Leave? then r.mode[u] == WAITING || r.mode[u] == RUNNING
            else if u == op.tid || s.mode[u] == LEFT then r.mode[u] == if s.phase % 32 == 0 then OFFLINE else LEFT
            else s.mode[u] != RUNNING && (r.mode[u] == s.mode[u] || (s.mode[u] == WAITING && r.mode[u] == RUNNING)))
  {
    BeforeEffect(s, op);
    if !(op.Leave? && s.mode[op.tid] == WAITING) {
      BeforeSafe(s, op);
      if s.mode[op.tid] == RUNNING { RunningBehind(s, op.tid); }
      TryEffect(Before(s, op), op.draw, u);
    }
  }

  lemma TryEffect(b: State, draw: Draws, u: nat)
    requires Safe(b) && u < |b.mode|
    ensures var r := TryWakeNext(b, draw);
      && r.phase == (if PhaseOver(Wake(b)) then b.phase + 1 else b.phase)
      && (r.phase == b.phase ==>
            && (r.mode[u] == b.mode[u] || (b.mode[u] == WAITING && r.mode[u] == RUNNING))
            && ((forall i :: b.cur <= i < |b.run| ==> b.run[i] != u) ==> r.mode[u] == b.mode[u]))
      && (r.phase != b.phase ==>
            && b.mode[u] != RUNNING
            && (b.mode[u] == LEFT ==> r.mode[u] == if b.phase % 32 == 0 then OFFLINE else LEFT)
            && (b.mode[u] == WAITING ==> r.mode[u] == WAITING || r.mode[u] == RUNNING)
            && (b.mode[u] == OFFLINE ==> r.mode[u] == OFFLINE))
  {
    var w := Wake(b);
    WakeSafe(b);
    WakeEffect(b, u);
    var e := EndPhase(w, draw);
    EndPhaseSafe(w, draw);
    WakeEffect(e, u);
    WakeTwice(b, u);
    if PhaseOver(w) {
      EndPhaseEffect(w, draw);
      CountZero(w.mode, RUNNING);
    }
  }

  /** The cursor only moves on, so whoever is behind it stays there. */
  lemma WakeTwice(b: State, u: nat)
    requires Safe(b) && u < |b.mode|
    ensures (forall i :: b.cur <= i < |b.run| ==> b.run[i] != u) ==>
      Wake(b).mode[u] == b.mode[u] && forall i :: Wake(b).cur <= i < |Wake(b).run| ==> Wake(b).run[i] != u
  {
    WakeEffect(b, u);
  }

  // ---------------------------------------------------------------- who has synced

  /** A thread that has synced in this phase is behind the cursor, and waits or has left. */
  ghost predicate SyncedBehind(s: State)
    requires Bounded(s)
  {
    forall t :: t in s.synced ==> Behind(s, t)
  }

  ghost predicate Behind(s: State, t: nat)
    requires Bounded(s)
  {
    && t < |s.mode| && (s.mode[t] == WAITING || s.mode[t] == LEFT)
    && exists i :: 0 <= i < s.cur && s.run[i] == t
  }

  lemma {:induction false} WakeSynced(s: State)
    requires Safe(s) && SyncedBehind(s)
    ensures SyncedBehind(Wake(s))
    decreases |s.run| - s.cur
  {
    if s.running < s.cap && s.cur < |s.run| {
      WakeOneSafe(s);
      var r := WakeOne(s);
      forall t | t in r.synced
        ensures Behind(r, t)
      {
        assert Behind(s, t);
      }
      WakeSynced(r);
    }
  }

  lemma JoinSynced(s: State, op: Op)
    requires Safe(s) && SyncedBehind(s) && Allowed(s, op) && op.Join? && !JoinAborts(s, op.tid)
    ensures SyncedBehind(Before(s, op))
  {
    var b := Before(s, op);
    forall u | u in b.synced
      ensures Behind(b, u)
    {
      assert Behind(s, u);
      var i :| 0 <= i < s.cur && s.run[i] == u;
      if s.mode[op.tid] == OFFLINE {
        assert b.run[i] == u;
      } else if s.last[op.tid] < s.cur {
        assert b.run[if i == s.cur - 1 then s.last[op.tid] else i] == u;
      }
    }
  }

  lemma BeforeSynced(s: State, op: Op)
    requires Safe(s) && SyncedBehind(s) && Allowed(s, op) && !(op.Join? && JoinAborts(s, op.tid))
    ensures SyncedBehind(Before(s, op))
  {
    if op.Join? {
      JoinSynced(s, op);
    } else {
      var b := Before(s, op);
      forall u | u in b.synced
        ensures Behind(b, u)
      {
        if u != op.tid { assert Behind(s, u); }
        if op.Sync? && u == op.tid { RunnerIsBehind(s, u); }
        if op.Leave? && u == op.tid { assert Behind(s, u); }
      }
    }
  }

  lemma RunnerIsBehind(s: State, t: nat)
    requires Safe(s) && t < |s.mode| && s.mode[t] == RUNNING
    ensures exists i :: 0 <= i < s.cur && s.run[i] == t
  {
    assert t in s.run;
    var i :| 0 <= i < |s.run| && s.run[i] == t;
  }

  /** Every call keeps that, and updates the record of who has synced in this phase: a sync enters its
      caller, a join takes it out, and the end of the phase empties it. */
  lemma StepSynced(s: State, op: Op)
    requires Safe(s) && SyncedBehind(s) && Allowed(s, op) && Step(s, op).Some?
    ensures var r := Step(s, op).value;
      && SyncedBehind(r)
      && r.synced == if r.phase != s.phase then {} else Entered(s.synced, op)
  {
    BeforeEffect(s, op);
    BeforeSynced(s, op);
    if !(op.Leave? && s.mode[op.tid] == WAITING) {
      BeforeSafe(s, op);
      TrySynced(Before(s, op), op.draw);
    }
  }

  function Entered(synced: set<nat>, op: Op): set<nat> {
    match op
    case Join(t, _) => synced - {t}
    case Leave(_, _) => synced
    case Sync(t, _) => synced + {t}
  }

  lemma TrySynced(b: State, draw: Draws)
    requires Safe(b) && SyncedBehind(b)
    ensures var r := TryWakeNext(b, draw);
      && SyncedBehind(r)
      && r.phase == (if PhaseOver(Wake(b)) then b.phase + 1 else b.phase)
      && r.synced == if PhaseOver(Wake(b)) then {} else b.synced
  {
    var w := Wake(b);
    WakeSafe(b);
    WakeSynced(b);
    EndPhaseSafe(w, draw);
    if PhaseOver(w) { EndPhaseEffect(w, draw); }
    WakeSynced(EndPhase(w, draw));
  }

  // ---------------------------------------------------------------- when a phase ends

  /** Nobody has anything left to do in this phase: u has synced in it or left. */
  predicate Done(s: State, u: nat) {
    u in s.synced || (u < |s.mode| && s.mode[u] == LEFT)
  }

  /** With nobody waiting ahead of the cursor, and nobody running, waking runs to the end of the list
      and wakes nobody. */
  lemma {:induction false} WakeNobody(s: State)
    requires Safe(s) && s.cap > 0 && s.running == 0 && forall i :: s.cur <= i < |s.run| ==> s.mode[s.run[i]] != WAITING
    ensures Wake(s) == s.(cur := |s.run|)
    decreases |s.run| - s.cur
  {
    if s.cur < |s.run| {
      WakeOneSafe(s);
      WakeNobody(WakeOne(s));
    }
  }

  /** After an orderly call's own effect the phase is over exactly when everyone on the list is done,
      and not everyone has left. */
  lemma OverIffDone(b: State)
    requires Orderly(b) && SyncedBehind(b) && b.cap > 0
    ensures PhaseOver(Wake(b)) <==> b.left < |b.run| && forall i :: 0 <= i < |b.run| ==> Done(b, b.run[i])
  {
    WakeSafe(b);
    if PhaseOver(Wake(b)) {
      RewindSafe(Wake(b));
      forall i | 0 <= i < |b.run|
        ensures Done(b, b.run[i])
      {
        WakeEffect(b, b.run[i]);
        assert Wake(b).mode[Wake(b).run[i]] == LEFT || Wake(b).run[i] in Wake(b).synced;
      }
    }
    if b.left < |b.run| && forall i :: 0 <= i < |b.run| ==> Done(b, b.run[i]) {
      NobodyRuns(b);
      forall i | b.cur <= i < |b.run|
        ensures b.mode[b.run[i]] != WAITING
      {
        AheadNotSynced(b, i);
        assert Done(b, b.run[i]);
      }
      WakeNobody(b);
    }
  }

  lemma NobodyRuns(b: State)
    requires Safe(b) && SyncedBehind(b) && forall i :: 0 <= i < |b.run| ==> Done(b, b.run[i])
    ensures b.running == 0
  {
    CountZero(b.mode, RUNNING);
    forall i | 0 <= i < |b.run|
      ensures b.mode[b.run[i]] != RUNNING
    {
      assert Done(b, b.run[i]);
      assert b.run[i] in b.synced ==> Behind(b, b.run[i]);
    }
    forall t | 0 <= t < |b.mode|
      ensures b.mode[t] != RUNNING
    {
      assert t in b.run ==> b.mode[t] != RUNNING;
    }
  }

  lemma AheadNotSynced(b: State, i: nat)
    requires Safe(b) && SyncedBehind(b) && b.cur <= i < |b.run|
    ensures b.run[i] !in b.synced
  {
    assert b.run[i] in b.synced ==> Behind(b, b.run[i]);
  }

  /** Exactly when a call ends the phase: a sync does if everyone else on the list has synced in this
      phase or left; a leave of a running thread does too, unless that leaves nobody; nothing else
      does. */
  lemma PhaseEndsIff(s: State, op: Op)
    requires Orderly(s) && SyncedBehind(s) && s.cap > 0 && Allowed(s, op) && OrderlyCall(s, op)
    ensures Step(s, op).Some?
    ensures Step(s, op).value.phase != s.phase <==>
      match op
      case Join(_, _) => false
      case Sync(t, _) => forall i :: 0 <= i < |s.run| ==> s.run[i] == t || Done(s, s.run[i])
      case Leave(t, _) =>
        && s.mode[t] == RUNNING
        && (forall i :: 0 <= i < |s.run| ==> s.run[i] == t || Done(s, s.run[i]))
        && exists i :: 0 <= i < |s.run| && s.run[i] != t && s.mode[s.run[i]] != LEFT
  {
    StepOrderly(s, op);
    if op.Join? {
      JoinNeverEndsPhase(s, op);
    } else if s.mode[op.tid] == RUNNING {
      RunnerEndsIff(s, op);
      BeforeEffect(s, op);
      BeforeSafe(s, op);
      SomebodyStays(Before(s, op));
      if op.Sync? { RunnerIsBehind(s, op.tid); }
    }
  }

  /** A running thread that syncs or leaves ends the phase if everyone else is done and somebody is
      left. */
  lemma RunnerEndsIff(s: State, op: Op)
    requires Orderly(s) && SyncedBehind(s) && s.cap > 0 && Allowed(s, op) && !op.Join? && s.mode[op.tid] == RUNNING
    ensures Step(s, op).Some?
    ensures Step(s, op).value.phase != s.phase <==>
      && Before(s, op).left < |s.run|
      && forall i :: 0 <= i < |s.run| ==> s.run[i] == op.tid || Done(s, s.run[i])
  {
    BeforeEffect(s, op);
    BeforeOrderly(s, op);
    BeforeSynced(s, op);
    TrySynced(Before(s, op), op.draw);
    OverIffDone(Before(s, op));
    DoneBefore(s, op);
  }

  /** The call's own effect makes its caller done and changes that of nobody else. */
  lemma DoneBefore(s: State, op: Op)
    requires Safe(s) && Allowed(s, op) && !op.Join?
    ensures var b := Before(s, op);
      (forall i :: 0 <= i < |b.run| ==> Done(b, b.run[i])) <==>
      (forall i :: 0 <= i < |s.run| ==> s.run[i] == op.tid || Done(s, s.run[i]))
  {
    var b := Before(s, op);
    BeforeEffect(s, op);
    forall i | 0 <= i < |s.run|
      ensures Done(b, b.run[i]) <==> s.run[i] == op.tid || Done(s, s.run[i])
    {
    }
  }

  lemma SomebodyStays(b: State)
    requires Safe(b)
    ensures b.left < |b.run| <==> exists i :: 0 <= i < |b.run| && b.mode[b.run[i]] != LEFT
  {
    CountZero(b.mode, WAITING);
    CountZero(b.mode, RUNNING);
    if b.left < |b.run| {
      var t :| 0 <= t < |b.mode| && (b.mode[t] == WAITING || b.mode[t] == RUNNING);
      assert t in b.run;
      var i :| 0 <= i < |b.run| && b.run[i] == t;
    }
  }

  /** After every call of a run somebody on the list has still something to do, unless all have left:
      a phase that could end has ended. */
  lemma NeverOver(s: State)
    requires Safe(s) && Busy(s) && SyncedBehind(s)
    ensures s.left == |s.run| || exists i :: 0 <= i < |s.run| && !Done(s, s.run[i])
  {
    if forall i :: 0 <= i < |s.run| ==> Done(s, s.run[i]) { NobodyRuns(s); }
  }

  // ---------------------------------------------------------------- whole runs

  /** The threads that have synced in the current phase and not joined since, read off the calls. */
  function SyncedSince(trace: seq<State>, ops: seq<Op>, k: nat): set<nat>
    requires |trace| == |ops| + 1 && k < |trace|
  {
    if k == 0 then {}
    else if trace[k].phase != trace[k - 1].phase then {}
    else Entered(SyncedSince(trace, ops, k - 1), ops[k - 1])
  }

  /** The record of who has synced is what the calls say, in every run. */
  lemma {:induction false} RecordIsHistory(trace: seq<State>, ops: seq<Op>, k: nat)
    requires IsRun(trace, ops) && Safe(trace[0]) && trace[0].synced == {} && k < |trace|
    ensures Safe(trace[k]) && SyncedBehind(trace[k]) && trace[k].cap == trace[0].cap
    ensures trace[k].synced == SyncedSince(trace, ops, k)
  {
    if k > 0 {
      RecordIsHistory(trace, ops, k - 1);
      assert Step(trace[k - 1], ops[k - 1]) == Some(trace[k]);
      StepSafe(trace[k - 1], ops[k - 1]);
      StepSynced(trace[k - 1], ops[k - 1]);
    }
  }

  lemma {:induction false} PhasesGrow(trace: seq<State>, ops: seq<Op>, j: nat, k: nat)
    requires IsRun(trace, ops) && Safe(trace[0]) && trace[0].synced == {} && j <= k < |trace|
    ensures trace[j].phase <= trace[k].phase
    decreases k - j
  {
    if j < k {
      PhasesGrow(trace, ops, j, k - 1);
      RecordIsHistory(trace, ops, k - 1);
      assert Step(trace[k - 1], ops[k - 1]) == Some(trace[k]);
      StepEffect(trace[k - 1], ops[k - 1], ops[k - 1].tid);
    }
  }

  lemma {:induction false} StaysEntered(trace: seq<State>, ops: seq<Op>, j: nat, k: nat)
    requires |trace| == |ops| + 1 && j < k < |trace| && ops[j].Sync?
    requires forall i :: j <= i <= k ==> trace[i].phase == trace[j].phase
    requires forall i :: j < i < k ==> !(ops[i].Join? && ops[i].tid == ops[j].tid)
    ensures ops[j].tid in SyncedSince(trace, ops, k)
    decreases k
  {
    if j < k - 1 { StaysEntered(trace, ops, j, k - 1); }
  }

  /** Nobody runs twice in a phase: a thread that has synced does not run again until the phase has
      ended, unless it leaves and joins again. This holds whoever calls. */
  lemma SyncedStaysPut(trace: seq<State>, ops: seq<Op>, j: nat, k: nat)
    requires IsRun(trace, ops) && Safe(trace[0]) && trace[0].synced == {} && j < k < |trace|
    requires ops[j].Sync? && trace[k].phase == trace[j].phase
    requires forall i :: j < i < k ==> !(ops[i].Join? && ops[i].tid == ops[j].tid)
    ensures ops[j].tid < |trace[k].mode|
    ensures trace[k].mode[ops[j].tid] == WAITING || trace[k].mode[ops[j].tid] == LEFT
  {
    forall i | j <= i <= k
      ensures trace[i].phase == trace[j].phase
    {
      PhasesGrow(trace, ops, j, i);
      PhasesGrow(trace, ops, i, k);
    }
    StaysEntered(trace, ops, j, k);
    RecordIsHistory(trace, ops, k);
    assert Behind(trace[k], ops[j].tid);
  }

  /** In every orderly run each call ends the phase exactly when, with it, everyone on the list has
      synced in the phase, by the record of the calls, or left. */
  lemma EveryPhaseEndsIff(trace: seq<State>, ops: seq<Op>, k: nat)
    requires IsRun(trace, ops) && Orderly(trace[0]) && trace[0].synced == {} && trace[0].cap > 0 && k < |ops|
    requires forall i :: 0 <= i < |ops| ==> OrderlyCall(trace[i], ops[i])
    requires ops[k].Sync?
    ensures trace[k + 1].phase != trace[k].phase <==>
      forall i :: 0 <= i < |trace[k].run| ==>
        var u := trace[k].run[i];
        u == ops[k].tid || u in SyncedSince(trace, ops, k) || trace[k].mode[u] == LEFT
  {
    EveryOrderlyRunFair(trace, ops, k);
    RecordIsHistory(trace, ops, k);
    assert OrderlyCall(trace[k], ops[k]) && Step(trace[k], ops[k]) == Some(trace[k + 1]);
    PhaseEndsIff(trace[k], ops[k]);
    assert forall i :: 0 <= i < |trace[k].run| ==> trace[k].run[i] < |trace[k].mode|;
  }

  // ---------------------------------------------------------------- the shuffle

  /** Positions above i are settled. */
  lemma {:induction false} ShuffleAbove(s: State, i: nat, draw: Draws, k: nat)
    requires Bounded(s) && i < k < |s.run|
    ensures Shuffle(s, i, draw).run[k] == s.run[k]
    decreases i
  {
    if i > 0 {
      ShuffleStep(s, i, draw);
      ShuffleAbove(SwapEntries(s, i, Pick(draw, i)), i - 1, draw, k);
    }
  }

  /** Position i gets the thread that the number drawn for it names among those not settled yet. */
  lemma ShuffleAt(s: State, i: nat, draw: Draws)
    requires Bounded(s) && 0 < i < |s.run| && draw(i) <= i
    ensures Shuffle(s, i, draw).run[i] == s.run[draw(i)]
  {
    ShuffleStep(s, i, draw);
    ShuffleAbove(SwapEntries(s, i, Pick(draw, i)), i - 1, draw, i);
  }

  /** A list that fits under the cap keeps its order; a longer one is shuffled, from the last position
      down. */
  predicate Ordered(before: seq<nat>, after: seq<nat>, cap: nat, draw: Draws) {
    && |after| == |before|
    && (|before| <= cap ==> after == before)
    && (|before| > cap && |before| > 1 && draw(|before| - 1) < |before| ==>
          after[|before| - 1] == before[draw(|before| - 1)])
  }

  lemma MaybeShuffleOrder(s: State, draw: Draws)
    requires Bounded(s)
    ensures Ordered(s.run, MaybeShuffle(s, draw).run, s.cap, draw)
  {
    var n := |s.run|;
    if s.cap < n && n > 1 && draw(n - 1) < n { ShuffleAt(s, n - 1, draw); }
  }

  /** The order the next phase runs in is that of the list, without the departed after one end in
      thirty-two, shuffled if it does not fit under the cap. */
  lemma NextOrder(s: State, draw: Draws)
    requires Bounded(s) && PhaseOver(s)
    ensures Ordered(if s.phase % 32 == 0 then Clean(Rewind(s), 0).run else s.run, EndPhase(s, draw).run, s.cap, draw)
  {
    if s.phase % 32 == 0 { CleanFields(Rewind(s), 0); }
    MaybeShuffleOrder(MaybeClean(Rewind(s), s.phase), draw);
  }
}
