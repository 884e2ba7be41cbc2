/** The barrier as the simulator keeps it: fixed tables indexed by thread id, a run list with
    a used prefix, a cursor and counters. Each public method is one critical section. */
module BarrierModel {
  import opened Option
  import opened BarrierSpec

  class Barrier {
    const parallelThreads: nat
    const state: array<Mode>
    const lastIdx: array<nat>
    const runList: array<nat>
    var runListSize: nat
    var curThreadIdx: nat
    var runningThreads: nat
    var leftThreads: nat
    var phaseCount: nat
    ghost var placed: set<nat>
    ghost var synced: set<nat>
    ghost var fair: bool

    ghost predicate Tables()
      reads this
    {
      && state.Length == lastIdx.Length == runList.Length
      && lastIdx != runList
      && runListSize <= runList.Length
    }

    /** The barrier's value if the list had `size` entries and `left` departed threads. */
    ghost function At(size: nat, left: nat): State
      requires size <= runList.Length
      reads this, state, lastIdx, runList
    {
      State(parallelThreads, state[..], lastIdx[..], runList[..size], curThreadIdx,
            runningThreads, left, phaseCount, placed, synced, fair)
    }

    ghost function View(): State
      requires Tables()
      reads this, state, lastIdx, runList
    {
      At(runListSize, leftThreads)
    }

    ghost predicate Valid()
      reads this, state, lastIdx, runList
    {
      Tables() && Safe(View())
    }

    constructor (cap: nat, threads: nat)
      ensures Valid() && parallelThreads == cap
      ensures View() == Initial(cap, threads, seq(threads, t => 0))
      ensures fresh(state) && fresh(lastIdx) && fresh(runList)
    {
      parallelThreads := cap;
      state := new Mode[threads](t => OFFLINE);
      lastIdx := new nat[threads](t => 0);
      runList := new nat[threads](t => 0);
      runListSize, curThreadIdx, runningThreads, leftThreads, phaseCount := 0, 0, 0, 0, 0;
      placed, synced, fair := {}, {}, true;
      new;
      InitialOrderly(cap, threads, seq(threads, t => 0));
      assert View().mode == Initial(cap, threads, seq(threads, t => 0)).mode;
      assert View().last == Initial(cap, threads, seq(threads, t => 0)).last;
      assert View().run == [];
    }

    /** Wakes waiting threads in list order while below the cap. */
    method CheckRunList()
      requires Tables() && Bounded(View())
      modifies this, state, lastIdx
      ensures Tables() && View() == Wake(old(View()))
    {
      while runningThreads < parallelThreads && curThreadIdx < runListSize
        invariant Tables() && Bounded(View())
        invariant Wake(View()) == Wake(old(View()))
        invariant runListSize == old(runListSize)
        decreases runListSize - curThreadIdx
      {
        ghost var s := View();
        var idx := curThreadIdx;
        curThreadIdx := curThreadIdx + 1;
        var wtid := runList[idx];
        assert s.run[s.cur] == wtid;
        if state[wtid] == WAITING {
          state[wtid] := RUNNING;
          lastIdx[wtid] := idx;
          runningThreads := runningThreads + 1;
          placed := placed + {wtid};
        }
        assert View() == WakeOne(s);
      }
    }

    /** Takes the departed thread at `idx` off a list of `size` entries; the last entry fills
        the gap. The source leaves `leftThreads` alone here, so `left` is the model's. */
    method RemoveAt(idx: nat, size: nat, ghost left: nat)
      requires Tables() && size <= runListSize && idx < size
      requires Bounded(At(size, left)) && curThreadIdx == 0 && state[runList[idx]] == LEFT
      modifies this`placed, state, lastIdx, runList
      ensures At(size - 1, Less(left)) == CleanOne(old(At(size, left)), idx)
    {
      ghost var s := At(size, left);
      var wtid := runList[idx];
      assert s.run[idx] == wtid;
      state[wtid] := OFFLINE;
      var stid := runList[size - 1];
      assert s.run[size - 1] == stid;
      runList[idx] := stid;
      lastIdx[stid] := idx;
      placed := placed + {stid} - {wtid};
      assert runList[..size - 1] == s.run[idx := stid][..size - 1];
    }

    /** The pass that takes departed threads off the list. */
    method Cleanup()
      requires Tables() && Bounded(View()) && curThreadIdx == 0 && CleanFits(View())
      modifies this`leftThreads, this`runListSize, this`placed, state, lastIdx, runList
      ensures Tables() && View() == Clean(old(View()), 0)
    {
      ghost var s0 := View();
      ghost var left := leftThreads;
      var idx := 0;
      var newSize := runListSize;
      while idx < newSize
        invariant idx <= newSize <= runListSize == |s0.run| && leftThreads == s0.left
        invariant Bounded(At(newSize, left)) && Clean(At(newSize, left), idx) == Clean(s0, 0)
        decreases newSize - idx
      {
        assert At(newSize, left).run[idx] == runList[idx];
        if state[runList[idx]] == LEFT {
          RemoveAt(idx, newSize, left);
          newSize := newSize - 1;
          left := Less(left);
        } else {
          idx := idx + 1;
        }
      }
      // the source asserts this before it zeroes the count
      assert runListSize - newSize == leftThreads;
      leftThreads := 0;
      runListSize := newSize;
    }

    /** Exchanges two list entries and the indices remembered for them. */
    method Exchange(i: nat, j: nat)
      requires Tables() && Bounded(View()) && i < runListSize && j < runListSize
      modifies this`placed, lastIdx, runList
      ensures Bounded(View()) && View() == SwapEntries(old(View()), i, j)
    {
      ghost var s := View();
      var itid := runList[i];
      var jtid := runList[j];
      assert s.run[i] == itid && s.run[j] == jtid;
      runList[i] := jtid;
      runList[j] := itid;
      lastIdx[itid] := j;
      lastIdx[jtid] := i;
      placed := placed + {itid, jtid};
      assert runList[..runListSize] == s.run[i := jtid][j := itid];
    }

    /** One turn of the shuffle: entry `i` trades places with one drawn at or before it. */
    method ShuffleEntry(i: nat, draw: Draws)
      requires Tables() && Bounded(View()) && 0 < i < runListSize
      modifies this`placed, lastIdx, runList
      ensures Tables() && Bounded(View())
      ensures Shuffle(View(), i - 1, draw) == Shuffle(old(View()), i, draw)
    {
      ShuffleStep(View(), i, draw);
      Exchange(i, Pick(draw, i));
    }

    /** Fisher-Yates over the run list; every moved thread remembers its new index. */
    method ShuffleList(draw: Draws)
      requires Tables() && Bounded(View()) && runListSize > 0
      modifies this`placed, lastIdx, runList
      ensures Bounded(View()) && View() == Shuffle(old(View()), runListSize - 1, draw)
    {
      ghost var target := Shuffle(View(), runListSize - 1, draw);
      var i: nat := runListSize - 1;
      while i > 0
        invariant i < runListSize && Bounded(View())
        invariant Shuffle(View(), i, draw) == target
      {
        ShuffleEntry(i, draw);
        i := i - 1;
      }
    }

    /** The start of a new phase: the cursor is rewound. */
    method StartPhase() returns (clean: bool)
      requires Tables() && Bounded(View())
      modifies this
      ensures Tables() && View() == Rewind(old(View()))
      ensures clean == (old(phaseCount) % 32 == 0) && runListSize == old(runListSize)
    {
      fair := fair && AllDone(View());
      synced := {};
      curThreadIdx := 0;
      clean := phaseCount % 32 == 0;
      phaseCount := phaseCount + 1;
    }

    /** Rewinds the list and, one time in thirty-two, cleans it up. */
    method BeginPhase()
      requires Tables() && Bounded(View()) && CleanFits(Rewind(View()))
      modifies this, state, lastIdx, runList
      ensures Tables() && View() == MaybeClean(Rewind(old(View())), old(phaseCount))
    {
      var clean := StartPhase();
      if clean {
        Cleanup();
      }
    }

    /** The list is shuffled only if not everyone on it can run at once. */
    method ShuffleIfCrowded(draw: Draws)
      requires Tables() && Bounded(View())
      modifies this`placed, lastIdx, runList
      ensures Bounded(View()) && View() == MaybeShuffle(old(View()), draw)
    {
      if parallelThreads < runListSize {
        ShuffleList(draw);
      }
    }

    method CheckEndPhase(draw: Draws)
      requires Tables() && Bounded(View()) && (PhaseOver(View()) ==> CleanFits(Rewind(View())))
      modifies this, state, lastIdx, runList
      ensures Tables() && View() == EndPhase(old(View()), draw)
    {
      ghost var s := View();
      if curThreadIdx == runListSize && runningThreads == 0 {
        if leftThreads == runListSize {
          return;
        }
        BeginPhase();
        ShuffleIfCrowded(draw);
      }
    }

    method TryWakeNext(draw: Draws)
      requires Valid()
      modifies this, state, lastIdx, runList
      ensures Valid() && View() == BarrierSpec.TryWakeNext(old(View()), draw)
    {
      ghost var s := View();
      WakeSafe(s);
      CheckRunList();
      RewindFits(Wake(s));
      CheckEndPhase(draw);
      CheckRunList();
      TryWakeNextSafe(s, draw);
    }

    /** An offline thread goes to the end of the list. */
    method AppendToList(tid: nat)
      requires Tables() && Bounded(View()) && tid < state.Length && runListSize < runList.Length
      modifies this`runListSize, this`placed, this`synced, state, runList
      ensures Tables() && View() == Append(old(View()), tid)
    {
      ghost var run := runList[..runListSize];
      runList[runListSize] := tid;
      runListSize := runListSize + 1;
      state[tid] := WAITING;
      placed := placed - {tid};
      synced := synced - {tid};
      assert runList[..runListSize] == run + [tid];
    }

    /** A thread that had left comes back; if the cursor has passed it in this phase, the
        cursor moves back over it. Returns false when the inner assertion fails. */
    method ReturnToList(tid: nat) returns (ok: bool)
      requires Tables() && Bounded(View()) && Distinct(View().run)
      requires tid < state.Length && state[tid] == LEFT && leftThreads > 0
      modifies this`leftThreads, this`curThreadIdx, this`placed, this`synced, state, lastIdx, runList
      ensures ok == !JoinAborts(old(View()), tid)
      ensures ok ==> View() == Return(Reschedule(old(View()), tid), tid)
    {
      ghost var s := View();
      var last := lastIdx[tid];
      if curThreadIdx > last {
        assert s.run[last] == runList[last];
        if tid != runList[last] {
          return false;
        }
        MoveToCursor(tid, last);
      }
      assert View() == Reschedule(s, tid);
      leftThreads := leftThreads - 1;
      state[tid] := WAITING;
      synced := synced - {tid};
      ok := true;
    }

    /** Same-phase reschedule: the thread changes places with the last one passed. */
    method MoveToCursor(tid: nat, last: nat)
      requires Tables() && Bounded(View()) && Distinct(runList[..runListSize])
      requires last < curThreadIdx && runList[last] == tid
      modifies this`curThreadIdx, this`placed, lastIdx, runList
      ensures View() == SwapEntries(old(View()), last, old(curThreadIdx) - 1).(cur := old(curThreadIdx) - 1)
    {
      ghost var s := View();
      curThreadIdx := curThreadIdx - 1;
      var otherTid := runList[curThreadIdx];
      assert s.run[last] == tid && s.run[curThreadIdx] == otherTid;
      assert otherTid == tid ==> last == curThreadIdx;
      runList[last] := otherTid;
      runList[curThreadIdx] := tid;
      lastIdx[otherTid] := last;
      lastIdx[tid] := curThreadIdx;
      placed := placed + {tid, otherTid};
      assert runList[..runListSize] == s.run[last := otherTid][curThreadIdx := tid];
    }

    /** The part of a join before anyone is woken. */
    method Enter(tid: nat) returns (ok: bool)
      requires Valid() && tid < state.Length && (state[tid] == LEFT || state[tid] == OFFLINE)
      modifies this`leftThreads, this`runListSize, this`curThreadIdx, this`placed, this`synced, state, lastIdx, runList
      ensures ok == !JoinAborts(old(View()), tid)
      ensures ok ==> Tables() && View() == Enlist(old(View()), tid)
    {
      ghost var s := View();
      if state[tid] == OFFLINE {
        SlotFree(s, tid);
        AppendToList(tid);
        ok := true;
      } else {
        SomebodyLeft(s, tid);
        ok := ReturnToList(tid);
      }
    }

    /** Joins or rejoins. Returns false when the inner assertion on the remembered index
        fails, which aborts the simulation. */
    method Join(tid: nat, draw: Draws) returns (ok: bool)
      requires Valid() && Allowed(View(), Op.Join(tid, draw))
      modifies this, state, lastIdx, runList
      ensures ok == Step(old(View()), Op.Join(tid, draw)).Some?
      ensures ok ==> Valid() && View() == Step(old(View()), Op.Join(tid, draw)).value
    {
      ghost var s := View();
      ok := Enter(tid);
      if ok {
        EnlistSafe(s, tid);
        TryWakeNext(draw);
      }
    }

    method Leave(tid: nat, draw: Draws)
      requires Valid() && Allowed(View(), Op.Leave(tid, draw))
      modifies this, state, lastIdx, runList
      ensures Valid() && Step(old(View()), Op.Leave(tid, draw)) == Some(View())
    {
      ghost var s := View();
      BeforeSafe(s, Op.Leave(tid, draw));
      if state[tid] == RUNNING {
        CountZero(s.mode, RUNNING);
        state[tid] := LEFT;
        leftThreads := leftThreads + 1;
        runningThreads := runningThreads - 1;
        assert View() == Before(s, Op.Leave(tid, draw));
        TryWakeNext(draw);
      } else {
        state[tid] := LEFT;
        leftThreads := leftThreads + 1;
        assert View() == Before(s, Op.Leave(tid, draw));
      }
    }

    method Sync(tid: nat, draw: Draws)
      requires Valid() && Allowed(View(), Op.Sync(tid, draw))
      modifies this, state, lastIdx, runList
      ensures Valid() && Step(old(View()), Op.Sync(tid, draw)) == Some(View())
    {
      ghost var s := View();
      BeforeSafe(s, Op.Sync(tid, draw));
      CountZero(s.mode, RUNNING);
      state[tid] := WAITING;
      runningThreads := runningThreads - 1;
      synced := synced + {tid};
      assert View() == Before(s, Op.Sync(tid, draw));
      TryWakeNext(draw);
    }
  }
}
