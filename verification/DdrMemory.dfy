/** The DDR controller as mutable state: its two request queues and bank queues, the overflow
    queue, the DRAM timing state and the pending wake-up, with the source's loops. The methods
    are proved equal to the functions of DdrControl.dfy and DdrTiming.dfy. */
module DdrMemoryModel {
  import opened Option
  import opened ActWindowSpec
  import opened DdrTimingSpec
  import Chains = BankQueueSpec
  import ChainLoop = BankQueueModel
  import Clock = DdrClock
  import Control = DdrControlSpec

  class DDRMemory {
    const config: Control.Config
    var banks: seq<seq<Bank>>
    var rankActWindows: seq<seq<nat>>
    var minRespCycle: nat
    var lastCmdWasWrite: bool
    var rdQueue: seq<Control.Item>
    var wrQueue: seq<Control.Item>
    var rdReqs: seq<seq<seq<Chains.Req>>>
    var wrReqs: seq<seq<seq<Chains.Req>>>
    var overflowQueue: seq<Control.Job>
    var stamps: nat
    var nextSched: Option<Clock.Alarm>
    ghost var log: seq<Cmd>
    ghost var now: nat
    ghost var arrived: seq<Control.Job>
    ghost var served: seq<Control.Job>

    ghost function Dram(): State
      reads this
    {
      State(banks, rankActWindows, minRespCycle, lastCmdWasWrite, log)
    }

    ghost function View(): Control.State
      reads this
    {
      Control.State(Dram(), Control.Lane(rdQueue, rdReqs), Control.Lane(wrQueue, wrReqs), overflowQueue, stamps,
                    now, nextSched, arrived, served)
    }

    ghost predicate Valid()
      reads this
    {
      Control.Ok(config, View())
    }

    /** What every routine needs. */
    ghost predicate Shaped()
      reads this
    {
      Control.ConfigOk(config) && Control.Shaped(View())
    }

    constructor (c: Control.Config, ranks: nat, banksPerRank: nat)
      requires Control.ConfigOk(c) && c.depth > 0
      ensures Valid() && config == c && View() == Control.Initial(c, ranks, banksPerRank)
    {
      config := c;
      banks := seq(ranks, k => seq(banksPerRank, m => Bank(0, false, 0, 0, 0, 0)));
      rankActWindows := seq(ranks, k => Zeros(4));
      minRespCycle := c.tech.tCL + c.tech.tBL + 1;
      lastCmdWasWrite := false;
      rdQueue, wrQueue, overflowQueue := [], [], [];
      rdReqs := seq(ranks, _ => seq(banksPerRank, _ => []));
      wrReqs := seq(ranks, _ => seq(banksPerRank, _ => []));
      stamps, nextSched := 0, None;
      log, now, arrived, served := [], 0, [], [];
      Control.InitialOk(c, ranks, banksPerRank);
      new;
      assert Control.Initial(c, ranks, banksPerRank).rdLane.chains == rdReqs;
    }

    // -------------------------------------------------------------- queueing

    method Full() returns (full: bool)
      ensures full == Control.Full(config, View())
    {
      full := |rdQueue| >= config.depth || |wrQueue| >= config.depth;
    }

    /** Allocates a node in a request queue and links it into its bank queue. */
    method QueueRequest(j: Control.Job, memCycle: nat)
      requires Shaped() && Control.Placed(Dram(), j)
      modifies this`rdQueue, this`wrQueue, this`rdReqs, this`wrReqs, this`stamps
      ensures View() == Control.Enlist(config, old(View()), j, memCycle)
    {
      var bank := banks[j.rank][j.bank];
      Link(Control.Item(j, stamps, memCycle), Chains.Bank(bank.open, bank.openRow, bank.curHits));
      stamps := stamps + 1;
    }

    method Link(it: Control.Item, b: Chains.Bank)
      requires var l := Control.LaneOf(View(), Control.InWrites(config, it.job));
        it.job.rank < |l.chains| && it.job.bank < |l.chains[it.job.rank]|
      modifies this`rdQueue, this`wrQueue, this`rdReqs, this`wrReqs
      ensures var w := Control.InWrites(config, it.job);
        View() == Control.SetLane(old(View()), w,
            Control.Queued(Control.LaneOf(old(View()), w), it, b, config.rowHitLimit))
    {
      var j := it.job;
      if config.deferredWrites && j.write {
        var q := ChainLoop.Place(wrReqs[j.rank][j.bank], b, config.rowHitLimit, j.row, it.stamp);
        wrQueue := wrQueue + [it];
        wrReqs := wrReqs[j.rank := wrReqs[j.rank][j.bank := q]];
      } else {
        var q := ChainLoop.Place(rdReqs[j.rank][j.bank], b, config.rowHitLimit, j.row, it.stamp);
        rdQueue := rdQueue + [it];
        rdReqs := rdReqs[j.rank := rdReqs[j.rank][j.bank := q]];
      }
    }

    /** Whether nothing is ahead of the request in its bank queue. */
    method IsFirst(it: Control.Item) returns (first: bool)
      requires Shaped() && Control.Placed(Dram(), it.job)
      ensures first == Control.IsHead(Control.LaneOf(View(), Control.InWrites(config, it.job)), it)
    {
      var j := it.job;
      var q := if config.deferredWrites && j.write then wrReqs[j.rank][j.bank] else rdReqs[j.rank][j.bank];
      first := q != [] && q[0].id == it.stamp;
    }

    // -------------------------------------------------------------- scheduling

    /** The earliest cycle `r` could issue its column command, ignoring the bus. */
    method FindMinCmdCycle(it: Control.Item) returns (c: nat)
      requires Control.Placed(Dram(), it.job)
      ensures c == Control.Ready(config, Dram(), it)
    {
      var r := Control.AsReq(it, 0);
      var bank := banks[r.rank][r.bank];
      c := Max(r.arrival, bank.lastCmd + 1);
      if !(r.row == bank.openRow && bank.open) {
        var preCycle := bank.minPre;
        if bank.open {
          assert r.row != bank.openRow;
          preCycle := Max(r.arrival, bank.minPre);
        }
        var actCycle := Max(r.arrival, Max(preCycle + config.tech.tRP, bank.lastAct + config.tech.tRRD));
        actCycle := Max(actCycle, rankActWindows[r.rank][0] + config.tech.tFAW);
        c := actCycle + config.tech.tRCD;
      }
    }

    /** Scans a request queue for the first request that heads its bank queue and is ready,
        keeping the earliest cycle at which one of the heads seen would be. */
    method Scan(queue: seq<Control.Item>, reqs: seq<seq<seq<Chains.Req>>>, cur: nat)
        returns (k: Option<nat>, minSchedCycle: Option<nat>)
      requires Control.Fits(Dram(), Control.Lane(queue, reqs))
      ensures (k, minSchedCycle) == Control.Scan(config, Dram(), Control.Lane(queue, reqs), cur, 0, None)
    {
      ghost var l := Control.Lane(queue, reqs);
      k, minSchedCycle := None, None;
      var i := 0;
      while i < |queue|
        invariant i <= |queue|
        invariant Control.Scan(config, Dram(), l, cur, i, minSchedCycle) ==
            Control.Scan(config, Dram(), l, cur, 0, None)
      {
        var j := queue[i].job;
        assert Control.Placed(Dram(), l.queue[i].job);
        if reqs[j.rank][j.bank] != [] && reqs[j.rank][j.bank][0].id == queue[i].stamp {
          var minCmdCycle := FindMinCmdCycle(queue[i]);
          minSchedCycle := Control.Least(minSchedCycle, minCmdCycle);
          if minCmdCycle <= cur {
            return Some(i), minSchedCycle;
          }
        }
        i := i + 1;
      }
    }

    /** One scheduling attempt at memory cycle `cur`: serves at most one request, and says when to
        try again. */
    method TrySchedule(cur: nat) returns (next: Option<nat>)
      requires Shaped() && minRespCycle >= config.tech.tCL
      modifies this
      ensures var o := Control.TrySchedule(config, old(View()), cur); View() == o.s && next == o.next
    {
      if rdQueue == [] && wrQueue == [] {
        return None;
      }
      if cur + config.tech.tCL < minRespCycle {
        return Some(minRespCycle - config.tech.tCL);
      }
      var prioWrites := |wrQueue| > 3 * config.depth / 4 || (lastCmdWasWrite && |wrQueue| > config.depth / 4);
      var isWriteQueue := rdQueue == [] || prioWrites;
      var k;
      k, next := Scan(if isWriteQueue then wrQueue else rdQueue, if isWriteQueue then wrReqs else rdReqs, cur);
      if k.Some? {
        IssueAndDequeue(isWriteQueue, k.value, cur);
        next := if rdQueue == [] && wrQueue == [] then None else Some(Control.Less(minRespCycle, config.tech.tCL));
      }
    }

    /** Issues request k of the chosen queue and takes it out of both queues. */
    method IssueAndDequeue(isWriteQueue: bool, k: nat, cur: nat)
      requires Shaped() && minRespCycle >= config.tech.tCL
      requires var l := Control.LaneOf(View(), isWriteQueue); k < |l.queue| && Control.IsHead(l, l.queue[k])
      modifies this
      ensures View() == Control.Issue(config, old(View()), isWriteQueue, k, cur)
    {
      ghost var j := Control.LaneOf(View(), isWriteQueue).queue[k].job;
      var r, close := Dequeue(isWriteQueue, k);
      IssueRequest(r, cur, close);
      served := served + [j];
    }

    /** Takes request k out of both queues. Says how it must be issued. */
    method Dequeue(isWriteQueue: bool, k: nat) returns (r: Req, close: bool)
      requires Shaped()
      requires var l := Control.LaneOf(View(), isWriteQueue); k < |l.queue| && Control.IsHead(l, l.queue[k])
      modifies this`rdQueue, this`wrQueue, this`rdReqs, this`wrReqs
      ensures View() == Control.SetLane(old(View()), isWriteQueue,
          Control.Remove(Control.LaneOf(old(View()), isWriteQueue), k))
      ensures var l := old(Control.LaneOf(View(), isWriteQueue));
        var it := l.queue[k];
        var q := Control.ChainAt(l, it.job.rank, it.job.bank);
        r == Control.AsReq(it, q[0].hit) && close == Control.Closes(config, q) && Located(Dram(), r)
    {
      var q;
      if isWriteQueue {
        var it := wrQueue[k];
        assert Control.Placed(Dram(), it.job);
        q := wrReqs[it.job.rank][it.job.bank];
        r := Control.AsReq(it, q[0].hit);
        wrQueue := wrQueue[..k] + wrQueue[k + 1..];
        wrReqs := wrReqs[it.job.rank := wrReqs[it.job.rank][it.job.bank := q[1..]]];
      } else {
        var it := rdQueue[k];
        assert Control.Placed(Dram(), it.job);
        q := rdReqs[it.job.rank][it.job.bank];
        r := Control.AsReq(it, q[0].hit);
        rdQueue := rdQueue[..k] + rdQueue[k + 1..];
        rdReqs := rdReqs[it.job.rank := rdReqs[it.job.rank][it.job.bank := q[1..]]];
      }
      close := config.closedPage && !(|q| > 1 && q[1].hit != 0);
    }

    /** Issues the commands of a ready request. */
    method IssueRequest(r: Req, cur: nat, close: bool)
      requires Located(Dram(), r) && minRespCycle >= config.tech.tCL
      modifies this`banks, this`rankActWindows, this`minRespCycle, this`lastCmdWasWrite, this`log
      ensures Dram() == Serve(config.tech, old(Dram()), r, cur, close)
      ensures minRespCycle >= cur + config.tech.tCL + config.tech.tBL
    {
      var minCmdCycle := Max(cur, minRespCycle - config.tech.tCL);
      if lastCmdWasWrite && !r.write {
        minCmdCycle := Max(minCmdCycle, minRespCycle + config.tech.tWTR);
      }
      if !(r.row == banks[r.rank][r.bank].openRow && banks[r.rank][r.bank].open) {
        var actCycle := OpenRow(r);
        minCmdCycle := Max(minCmdCycle, actCycle + config.tech.tRCD);
      }
      IssueColumn(r, minCmdCycle, close);
    }

    /** A row miss: precharge if the bank is open, then activate. */
    method OpenRow(r: Req) returns (actCycle: nat)
      requires Located(Dram(), r) && !RowHit(BankOf(Dram(), r), r.row)
      modifies this`banks, this`rankActWindows, this`log
      ensures actCycle == ActCycle(config.tech, old(Dram()), r)
      ensures Dram() == Activate(config.tech, old(Dram()), r)
    {
      var bank := banks[r.rank][r.bank];
      var preIssued := bank.open;
      var preCycle := bank.minPre;
      if bank.open {
        assert r.row != bank.openRow;
        preCycle := Max(r.arrival, bank.minPre);
      }
      actCycle := Max(r.arrival, Max(preCycle + config.tech.tRP, bank.lastAct + config.tech.tRRD));
      actCycle := Max(actCycle, rankActWindows[r.rank][0] + config.tech.tFAW);
      bank := bank.(open := true, openRow := r.row);
      if preIssued { bank := bank.(minPre := preCycle + config.tech.tRAS); }
      bank := bank.(lastAct := actCycle);
      rankActWindows := rankActWindows[r.rank := Add(rankActWindows[r.rank], actCycle)];
      banks := banks[r.rank := banks[r.rank][r.bank := bank]];
      log := log + [Act(r.rank, r.bank, r.row, actCycle)];
    }

    /** The read or write command, the bus booking, and the precharge bookkeeping. */
    method IssueColumn(r: Req, minCmdCycle: nat, close: bool)
      requires Located(Dram(), r) && minRespCycle >= config.tech.tCL
      modifies this`banks, this`minRespCycle, this`lastCmdWasWrite, this`log
      ensures Dram() == Issue(config.tech, old(Dram()), r, minCmdCycle, close)
      ensures minRespCycle >= minCmdCycle + config.tech.tCL + config.tech.tBL
    {
      var cmdCycle := Max(minCmdCycle, minRespCycle - config.tech.tCL);
      minRespCycle := cmdCycle + config.tech.tCL + config.tech.tBL;
      lastCmdWasWrite := r.write;
      var bank := banks[r.rank][r.bank];
      if close { bank := bank.(open := false); }
      bank := bank.(minPre := Max(bank.minPre, Max(bank.lastAct + config.tech.tRAS,
        if r.write then minRespCycle + config.tech.tWR else cmdCycle + config.tech.tRTP)));
      bank := bank.(lastCmd := cmdCycle, curHits := r.hit);
      banks := banks[r.rank := banks[r.rank][r.bank := bank]];
      log := log + [Col(r.rank, r.bank, r.row, r.write, cmdCycle)];
    }

    // -------------------------------------------------------------- events

    /** A request arrives. It may bring the wake-up forward. */
    method Enqueue(j: Control.Job, sysCycle: nat)
      requires Valid() && Control.Enabled(View(), Control.Arrive(sysCycle, j))
      modifies this
      ensures Valid() && View() == Control.Next(config, old(View()), Control.Arrive(sysCycle, j)).s
    {
      Control.StepKeeps(config, View(), Control.Arrive(sysCycle, j));
      TakeIn(j, sysCycle);
    }

    method TakeIn(j: Control.Job, sysCycle: nat)
      requires Shaped() && Control.Placed(Dram(), j)
      modifies this
      ensures View() == Control.DoArrive(config, old(View()), sysCycle, j)
    {
      now, arrived := sysCycle, arrived + [j];
      var overflow := Full();
      if overflow {
        overflowQueue := overflowQueue + [j];
      } else {
        TakeInQueue(j, sysCycle);
      }
    }

    method TakeInQueue(j: Control.Job, sysCycle: nat)
      requires Shaped() && Control.Placed(Dram(), j)
      modifies this`rdQueue, this`wrQueue, this`rdReqs, this`wrReqs, this`stamps, this`nextSched
      ensures View() == Control.EnlistAndWake(config, old(View()), j, sysCycle)
    {
      var memCycle := Control.MemCycle(config, sysCycle);
      var it := Control.Item(j, stamps, memCycle);
      QueueRequest(j, memCycle);
      var first := IsFirst(it);
      if first { BringForward(it, sysCycle, memCycle); }
    }

    /** Wakes up earlier if the request, which heads its bank queue, can be served earlier. */
    method BringForward(it: Control.Item, sysCycle: nat, memCycle: nat)
      requires Control.ConfigOk(config) && Control.Placed(Dram(), it.job)
      modifies this`nextSched
      ensures var soon := Control.Soonest(config, View(), memCycle);
        var m := Max(soon, Control.Ready(config, Dram(), it));
        nextSched == if Control.Earlier(soon, Control.Wish(old(View())))
            && Control.Earlier(m, Control.Wish(old(View())))
                     then Some(Control.AlarmAt(config, sysCycle, m)) else old(nextSched)
    {
      var minSchedCycle := Max(memCycle, Control.Less(minRespCycle, config.tech.tCL + config.tech.tBL));
      if nextSched.None? || nextSched.value.memCycle > minSchedCycle {
        var ready := FindMinCmdCycle(it);
        minSchedCycle := Max(minSchedCycle, ready);
      }
      if nextSched.None? || nextSched.value.memCycle > minSchedCycle {
        nextSched := Some(Control.AlarmAt(config, sysCycle, minSchedCycle));
      }
    }

    /** The pending wake-up. Returns the system cycle of the next one, or 0 if there is none. */
    method Tick() returns (nextSysCycle: nat)
      requires Valid() && nextSched.Some?
      modifies this
      ensures Valid() && View() == Control.Next(config, old(View()), Control.Tick).s
      ensures nextSysCycle == if nextSched.None? then 0 else nextSched.value.sysCycle
      ensures nextSysCycle == 0 <==> nextSched.None?
    {
      Control.StepKeeps(config, View(), Control.Tick);
      assert Control.MemCycle(config, nextSched.value.sysCycle) == nextSched.value.memCycle;
      nextSysCycle := RunTick();
    }

    method RunTick() returns (nextSysCycle: nat)
      requires Shaped() && nextSched.Some? && minRespCycle >= config.tech.tCL
      modifies this
      ensures View() == Control.DoTick(config, old(View())).s
      ensures nextSysCycle == if nextSched.None? then 0 else nextSched.value.sysCycle
    {
      var sysCycle := nextSched.value.sysCycle;
      var memCycle := Control.MemCycle(config, sysCycle);
      now := sysCycle;
      var next := TrySchedule(memCycle);
      next := Refill(next, memCycle);
      nextSched := if next.None? then None else Some(Control.AlarmAt(config, sysCycle, next.value));
      nextSysCycle := if nextSched.None? then 0 else nextSched.value.sysCycle;
    }

    /** Lets a request from the overflow queue in, if there is room. */
    method Refill(next0: Option<nat>, memCycle: nat) returns (next: Option<nat>)
      requires Shaped()
      modifies this`rdQueue, this`wrQueue, this`rdReqs, this`wrReqs, this`stamps, this`overflowQueue
      ensures (View(), next) == Control.Refill(config, old(View()), next0, memCycle)
    {
      next := next0;
      var full := Full();
      if !full && overflowQueue != [] {
        var j := overflowQueue[0];
        overflowQueue := overflowQueue[1..];
        var it := Control.Item(j, stamps, memCycle);
        QueueRequest(j, memCycle);
        var first := IsFirst(it);
        if first {
          var soon := Max(memCycle, Control.Less(minRespCycle, config.tech.tCL + config.tech.tBL));
          if next.None? || next.value > soon {
            var ready := FindMinCmdCycle(it);
            next := Some(Max(soon, ready));
          }
          if next.None? || next.value > soon {
            next := Some(soon);
          }
        }
      }
    }

    // -------------------------------------------------------------- refresh

    /** Refreshes all banks once the last of them is ready. */
    method RefreshAll(sysCycle: nat)
      requires Valid() && Control.Enabled(View(), Control.RefreshAt(sysCycle))
      modifies this
      ensures Valid() && View() == Control.Next(config, old(View()), Control.RefreshAt(sysCycle)).s
    {
      Control.StepKeeps(config, View(), Control.RefreshAt(sysCycle));
      RunRefresh(sysCycle);
    }

    method RunRefresh(sysCycle: nat)
      requires Shaped()
      modifies this
      ensures View() == Control.DoRefresh(config, old(View()), sysCycle)
    {
      now := sysCycle;
      PassOverBanks(Control.MemCycle(config, sysCycle));
    }

    method PassOverBanks(cur: nat)
      requires Shape(Dram()) && config.tech.tRFC >= config.tech.tRP
      modifies this`banks, this`log
      ensures Dram() == Refresh(config.tech, old(Dram()), cur)
    {
      var minRefreshCycle := FindRefreshCycle(cur);
      var refreshDoneCycle := minRefreshCycle + config.tech.tRFC;
      CloseAll(refreshDoneCycle - config.tech.tRP);
      log := log + [Ref(refreshDoneCycle)];
      assert banks == Refresh(config.tech, old(Dram()), cur).banks;
    }

    /** The first loop of a refresh: when the last bank can be precharged. */
    method FindRefreshCycle(cur: nat) returns (minRefreshCycle: nat)
      ensures minRefreshCycle == AllReady(banks, |banks|, cur)
    {
      minRefreshCycle := cur;
      var k := 0;
      while k < |banks|
        invariant k <= |banks| && minRefreshCycle == AllReady(banks, k, cur)
      {
        var m := 0;
        while m < |banks[k]|
          invariant m <= |banks[k]| && minRefreshCycle == RankReady(banks[k], m, AllReady(banks, k, cur))
        {
          minRefreshCycle := Max(minRefreshCycle, Max(banks[k][m].minPre, banks[k][m].lastCmd));
          m := m + 1;
        }
        k := k + 1;
      }
    }

    /** The second loop of a refresh. */
    method CloseAll(pre: nat)
      modifies this`banks
      ensures |banks| == |old(banks)|
      ensures forall i :: 0 <= i < |banks| ==> banks[i] == RefreshRank(old(banks)[i], pre)
    {
      var k := 0;
      while k < |banks|
        invariant k <= |banks| == |old(banks)|
        invariant forall i :: 0 <= i < |banks| ==>
          banks[i] == if i < k then RefreshRank(old(banks)[i], pre) else old(banks)[i]
      {
        CloseRank(k, pre);
        k := k + 1;
      }
    }

    /** Closes the banks of one rank and forces their next ACT past the refresh. */
    method CloseRank(k: nat, pre: nat)
      requires k < |banks|
      modifies this`banks
      ensures banks == old(banks)[k := RefreshRank(old(banks)[k], pre)]
    {
      ghost var rank := banks[k];
      var m := 0;
      while m < |banks[k]|
        invariant |banks| == |old(banks)| && m <= |banks[k]| == |rank|
        invariant banks == old(banks)[k := banks[k]]
        invariant forall i :: 0 <= i < |rank| ==> banks[k][i] == if i < m then RefreshBank(rank[i], pre) else rank[i]
        decreases |rank| - m
      {
        var bank := banks[k][m].(minPre := pre, open := false);
        banks := banks[k := banks[k][m := bank]];
        m := m + 1;
      }
      assert banks[k] == RefreshRank(rank, pre);
    }
  }
}
