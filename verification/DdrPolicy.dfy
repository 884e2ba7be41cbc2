/** The scheduling policy of the DDR controller: which request goes next, from which queue, when the
    page is closed behind it, and when the controller wakes up. */
module DdrPolicy {
  import opened Option
  import Clock = DdrClock
  import BankQueue = BankQueueSpec
  import Timing = DdrTimingSpec
  import opened DdrControlSpec

  // ---------------------------------------------------------------- first ready, first served

  /** The scan takes the first request that heads its bank queue and is ready. */
  lemma {:induction false} ScanIsFirst(c: Config, dram: Timing.State, l: Lane, cur: nat, i: nat, next: Option<nat>)
    requires Fits(dram, l) && i <= |l.queue|
    ensures var k := Scan(c, dram, l, cur, i, next).0;
      forall j :: i <= j < (if k.Some? then k.value else |l.queue|) && IsHead(l, l.queue[j]) ==>
        Ready(c, dram, l.queue[j]) > cur
    decreases |l.queue| - i
  {
    if i < |l.queue| {
      var m := if IsHead(l, l.queue[i]) then Least(next, Ready(c, dram, l.queue[i])) else next;
      ScanIsFirst(c, dram, l, cur, i + 1, m);
    }
  }

  // ---------------------------------------------------------------- reads before writes

  predicate MovedOn(before: Lane, after: Lane) { |after.queue| == |before.queue| - 1 }

  /** Which queue an attempt serves: the writes if no read waits, if the write queue is more than
      three quarters full, or if the last command was a write and it is more than one quarter full;
      the reads otherwise. Exactly one request is served. */
  lemma ServedFrom(c: Config, s: State, cur: nat)
    requires ConfigOk(c) && Shaped(s) && TrySchedule(c, s, cur).s != s
    ensures var r := TrySchedule(c, s, cur).s;
      && |r.served| == |s.served| + 1
      && var n := |s.wrLane.queue|;
      && if s.rdLane.queue == [] || 4 * n > 3 * c.depth || (s.dram.lastWrite && 4 * n > c.depth)
         then MovedOn(s.wrLane, r.wrLane) && r.rdLane == s.rdLane
         else MovedOn(s.rdLane, r.rdLane) && r.wrLane == s.wrLane
  {
  }

  /** Only writes that may be deferred wait in the write queue, and all of those do. */
  predicate Sorted(c: Config, s: State) {
    && (forall i | 0 <= i < |s.wrLane.queue| :: InWrites(c, s.wrLane.queue[i].job))
    && forall i | 0 <= i < |s.rdLane.queue| :: !InWrites(c, s.rdLane.queue[i].job)
  }

  lemma EnlistSorted(c: Config, s: State, j: Job, mem: nat)
    requires Shaped(s) && Placed(s.dram, j) && Sorted(c, s)
    ensures Sorted(c, Enlist(c, s, j, mem))
  {
  }

  lemma IssueSorted(c: Config, s: State, writes: bool, k: nat, cur: nat)
    requires Shaped(s) && k < |LaneOf(s, writes).queue| && IsHead(LaneOf(s, writes), LaneOf(s, writes).queue[k])
    requires Sorted(c, s)
    ensures Sorted(c, Issue(c, s, writes, k, cur))
  {
  }

  lemma TrySorted(c: Config, s: State, cur: nat)
    requires ConfigOk(c) && Shaped(s) && Sorted(c, s)
    ensures Sorted(c, TrySchedule(c, s, cur).s)
  {
    if !Idle(s) && cur + c.tech.tCL >= s.dram.minResp {
      var writes := ServesWrites(c, s);
      var k := Scan(c, s.dram, LaneOf(s, writes), cur, 0, None).0;
      if k.Some? { IssueSorted(c, s, writes, k.value, cur); }
    }
  }

  lemma StepSorted(c: Config, s: State, e: Event)
    requires ConfigOk(c) && Shaped(s) && Enabled(s, e) && Sorted(c, s)
    ensures Sorted(c, Next(c, s, e).s)
  {
    match e
    case Arrive(at, j) =>
      var s0 := s.(now := at, arrived := s.arrived + [j]);
      if !Full(c, s0) { EnlistSorted(c, s0, j, MemCycle(c, at)); }
    case Tick =>
      var woken := s.(now := s.alarm.value.sysCycle);
      var mem := MemCycle(c, woken.now);
      TrySorted(c, woken, mem);
      var tried := TrySchedule(c, woken, mem).s;
      if !Full(c, tried) && tried.overflow != [] {
        EnlistSorted(c, tried.(overflow := tried.overflow[1..]), tried.overflow[0], mem);
      }
    case RefreshAt(_) =>
  }

  /** In every run the two queues hold what they are for. */
  lemma EveryRunSorted(c: Config, trace: seq<State>, es: seq<Event>, k: nat)
    requires ConfigOk(c) && IsRun(c, trace, es) && Sorted(c, trace[0]) && k < |trace|
    ensures Sorted(c, trace[k])
  {
    var i := 0;
    while i < k
      invariant i <= k && Sorted(c, trace[i])
    {
      SortedNext(c, trace[i], es[i], trace[i + 1]);
      i := i + 1;
    }
  }

  lemma SortedNext(c: Config, s: State, e: Event, s': State)
    requires ConfigOk(c) && Steps(c, s, e, s') && Sorted(c, s)
    ensures Sorted(c, s')
  {
    StepSorted(c, s, e);
  }

  /** Once writes are served, they go on being served until the write queue is down to a quarter. */
  lemma WritesGoOn(c: Config, s: State, cur: nat)
    requires ConfigOk(c) && Shaped(s) && Sorted(c, s) && TrySchedule(c, s, cur).s != s && ServesWrites(c, s)
    ensures var r := TrySchedule(c, s, cur).s;
      r.dram.lastWrite && (4 * |r.wrLane.queue| > c.depth ==> ServesWrites(c, r))
  {
    var k := Scan(c, s.dram, s.wrLane, cur, 0, None).0;
    assert k.Some? && InWrites(c, s.wrLane.queue[k.value].job);
  }

  // ---------------------------------------------------------------- the page policy

  /** What serving a request leaves of its bank: the row is open unless the page is closed and no row
      hit waits next, and the bank counts the hits served in a row. If a row hit does wait next, it
      carries the next number. */
  lemma BankAfterService(c: Config, s: State, writes: bool, k: nat, cur: nat)
    requires Core(c, s) && k < |LaneOf(s, writes).queue| && IsHead(LaneOf(s, writes), LaneOf(s, writes).queue[k])
    ensures var l := LaneOf(s, writes);
      var j := l.queue[k].job;
      var q := ChainAt(l, j.rank, j.bank);
      var b := Issue(c, s, writes, k, cur).dram.banks[j.rank][j.bank];
      && (b.open <==> !c.closedPage || (|q| > 1 && q[1].hit > 0))
      && b.openRow == j.row && b.curHits == q[0].hit
      && (|q| > 1 && q[1].hit > 0 ==> q[1].row == j.row && q[1].hit == b.curHits + 1)
  {
    var l := LaneOf(s, writes);
    var j := l.queue[k].job;
    HeadIsFront(l, c.rowHitLimit, s.stamp, k);
    assert ChainOk(l, j.rank, j.bank, c.rowHitLimit);
  }

  // ---------------------------------------------------------------- when the controller wakes up

  /** An arrival goes to the overflow queue exactly when one of the queues is full, and to the end of
      its own queue otherwise. */
  lemma ArrivalGoesTo(c: Config, s: State, at: nat, j: Job)
    requires ConfigOk(c) && Shaped(s) && Placed(s.dram, j)
    ensures var r := DoArrive(c, s, at, j);
      if |s.rdLane.queue| >= c.depth || |s.wrLane.queue| >= c.depth
      then r.overflow == s.overflow + [j] && r.rdLane == s.rdLane && r.wrLane == s.wrLane && r.alarm == s.alarm
      else
        && r.overflow == s.overflow
        && LaneOf(r, InWrites(c, j)).queue == LaneOf(s, InWrites(c, j)).queue + [Item(j, s.stamp, MemCycle(c, at))]
        && LaneOf(r, !InWrites(c, j)) == LaneOf(s, !InWrites(c, j))
  {
  }

  /** The cycle for which an arriving request at the head of its bank queue sets the wake-up: when it
      is ready, and the bus may be looked at. */
  function WakeFor(c: Config, s: State, it: Item): nat
    requires Placed(s.dram, it.job)
  {
    Timing.Max(it.arrival, Timing.Max(Less(s.dram.minResp, c.tech.tCL + c.tech.tBL), Ready(c, s.dram, it)))
  }

  /** An arrival brings the wake-up forward to that cycle if it heads its bank queue and the wake-up
      was later or absent, and leaves it alone otherwise. */
  lemma ArrivalWakes(c: Config, s: State, at: nat, j: Job)
    requires Core(c, s) && AlarmOk(c, s) && Enabled(s, Arrive(at, j)) && !Full(c, s)
    ensures var it := Item(j, s.stamp, MemCycle(c, at));
      var r := DoArrive(c, s, at, j);
      var m := WakeFor(c, s, it);
      if IsHead(LaneOf(r, InWrites(c, j)), it) && (s.alarm.None? || m < s.alarm.value.memCycle)
      then r.alarm.Some? && r.alarm.value.memCycle == m
      else r.alarm == s.alarm
  {
    var s0 := s.(now := at, arrived := s.arrived + [j]);
    var s' := Enlist(c, s0, j, MemCycle(c, at));
    AlarmFits(c, at, WakeFor(c, s, Item(j, s.stamp, MemCycle(c, at))));
  }

  /** A tick sets the next wake-up for exactly the cycle its attempt asked for, or, when it has let a
      request in from the overflow queue that heads its bank queue, for the cycle at which the bus may
      be looked at if that is earlier. */
  lemma TickWakes(c: Config, s: State)
    requires c.depth > 0 && Core(c, s) && AlarmOk(c, s) && s.alarm.Some?
    ensures var woken := s.(now := s.alarm.value.sysCycle);
      var mem := s.alarm.value.memCycle;
      var tried := TrySchedule(c, woken, mem);
      var r := DoTick(c, s).s;
      if Full(c, tried.s) || tried.s.overflow == [] then Wish(r) == tried.next
      else
        var it := Item(tried.s.overflow[0], tried.s.stamp, mem);
        var soon := Soonest(c, tried.s, mem);
        Wish(r) ==
          if IsHead(LaneOf(r, InWrites(c, it.job)), it) && Earlier(soon, tried.next) then Some(soon) else tried.next
  {
    var woken := s.(now := s.alarm.value.sysCycle);
    var mem := MemCycle(c, woken.now);
    TryKeeps(c, woken);
    var tried := TrySchedule(c, woken, mem);
    RefillKeeps(c, tried.s, tried.next, mem);
    var next := Refill(c, tried.s, tried.next, mem).1;
    if next.Some? { AlarmFits(c, woken.now, next.value); }
  }

  ghost predicate IsLeastReady(c: Config, dram: Timing.State, l: Lane, m: nat)
    requires Fits(dram, l)
  {
    && (exists j :: 0 <= j < |l.queue| && HeadReady(c, dram, l, j, m))
    && forall j, r: nat | 0 <= j < |l.queue| && HeadReady(c, dram, l, j, r) :: m <= r
  }

  /** What an attempt asks for when something is left: after a service, or while the bus is booked
      too far ahead, the cycle at which the bus may be looked at again; otherwise the least cycle at
      which a head of the queue it chose is ready. */
  lemma AttemptAsksFor(c: Config, s: State)
    requires Core(c, s) && !Idle(s)
    ensures var cur := MemCycle(c, s.now);
      var o := TrySchedule(c, s, cur);
      if cur + c.tech.tCL < s.dram.minResp then o.s == s && o.next == Some(s.dram.minResp - c.tech.tCL)
      else if o.s != s then o.next == if Idle(o.s) then None else Some(Less(o.s.dram.minResp, c.tech.tCL))
      else
        && o.next.Some? && o.next.value > cur
        && IsLeastReady(c, s.dram, LaneOf(s, ServesWrites(c, s)), o.next.value)
  {
    var cur := MemCycle(c, s.now);
    if cur + c.tech.tCL >= s.dram.minResp {
      var l := LaneOf(s, ServesWrites(c, s));
      ScanIsLeast(c, s.dram, l, cur, 0, None);
      if Scan(c, s.dram, l, cur, 0, None).0.None? { NextHead(c, s.dram, l, s.stamp, cur); }
    }
  }
}
