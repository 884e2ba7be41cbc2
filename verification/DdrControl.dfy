/** The DDR controller as a whole: the two request queues with their bank queues, the overflow
    queue, the DRAM timing state, and the pending wake-up. Arrivals, ticks and refreshes come
    in any order that system time allows. */
module DdrControlSpec {
  import opened Option
  import Clock = DdrClock
  import BankQueue = BankQueueSpec
  import Timing = DdrTimingSpec

  // ---------------------------------------------------------------- state

  datatype Config = Config(
    tech: Timing.Tech, sysKHz: nat, memKHz: nat, latency: nat, depth: nat, rowHitLimit: nat,
    deferredWrites: bool, closedPage: bool)

  datatype Job = Job(id: nat, rank: nat, bank: nat, row: nat, write: bool)

  /** A queued request. Stamps number the requests in the order they were queued, and stand for
      the node that links a request into its bank queue. */
  datatype Item = Item(job: Job, stamp: nat, arrival: nat)

  /** A request queue, in queueing order, and the bank queues its requests are linked into. */
  datatype Lane = Lane(queue: seq<Item>, chains: seq<seq<seq<BankQueue.Req>>>)

  /** `arrived` and `served` are histories. */
  datatype State = State(
    dram: Timing.State, rdLane: Lane, wrLane: Lane, overflow: seq<Job>, stamp: nat,
    now: nat, alarm: Option<Clock.Alarm>, arrived: seq<Job>, served: seq<Job>)

  /** What the constructor and the timing tables demand. */
  predicate ConfigOk(c: Config) {
    Timing.TechOk(c.tech) && Clock.FrequenciesOk(c.sysKHz, c.memKHz)
  }

  function MemCycle(c: Config, sysCycle: nat): (m: nat)
    requires ConfigOk(c)
    ensures m >= 1
  {
    Clock.SysToMem(c.sysKHz, c.memKHz, sysCycle)
  }

  function ChainAt(l: Lane, rank: nat, bank: nat): seq<BankQueue.Req> {
    if rank < |l.chains| && bank < |l.chains[rank]| then l.chains[rank][bank] else []
  }

  function SetChain(l: Lane, rank: nat, bank: nat, q: seq<BankQueue.Req>): (l': Lane)
    requires rank < |l.chains| && bank < |l.chains[rank]|
    ensures l'.queue == l.queue && |l'.chains| == |l.chains|
    ensures forall i :: 0 <= i < |l.chains| ==> |l'.chains[i]| == |l.chains[i]|
    ensures forall i, j :: ChainAt(l', i, j) == if i == rank && j == bank then q else ChainAt(l, i, j)
  {
    l.(chains := l.chains[rank := l.chains[rank][bank := q]])
  }

  predicate Placed(dram: Timing.State, j: Job) {
    Timing.Shape(dram) && j.rank < |dram.banks| && j.bank < |dram.banks[j.rank]|
  }

  predicate Fits(dram: Timing.State, l: Lane) {
    && Timing.Shape(dram) && |l.chains| == |dram.banks|
    && (forall i | 0 <= i < |l.chains| :: |l.chains[i]| == |dram.banks[i]|)
    && forall i | 0 <= i < |l.queue| :: Placed(dram, l.queue[i].job)
  }

  predicate AllPlaced(dram: Timing.State, jobs: seq<Job>) {
    forall i | 0 <= i < |jobs| :: Placed(dram, jobs[i])
  }

  /** Everything an operation needs to be defined at all. */
  predicate Shaped(s: State) {
    match s
    case State(dram, rdLane, wrLane, overflow, _, _, _, _, _) =>
      Fits(dram, rdLane) && Fits(dram, wrLane) && AllPlaced(dram, overflow)
  }

  function LaneOf(s: State, writes: bool): Lane { if writes then s.wrLane else s.rdLane }

  function SetLane(s: State, writes: bool, l: Lane): State {
    if writes then s.(wrLane := l) else s.(rdLane := l)
  }

  predicate Idle(s: State) { s.rdLane.queue == [] && s.wrLane.queue == [] }

  predicate Full(c: Config, s: State) { |s.rdLane.queue| >= c.depth || |s.wrLane.queue| >= c.depth }

  // ---------------------------------------------------------------- queueing a request

  /** Whether the request is the first in its bank queue. */
  predicate IsHead(l: Lane, it: Item) {
    var q := ChainAt(l, it.job.rank, it.job.bank);
    q != [] && q[0].id == it.stamp
  }

  function AsReq(it: Item, hit: nat): Timing.Req {
    Timing.Req(it.job.rank, it.job.bank, it.job.row, it.job.write, it.arrival, hit)
  }

  /** The earliest cycle of the request's column command. */
  function Ready(c: Config, dram: Timing.State, it: Item): nat
    requires Placed(dram, it.job)
  {
    Timing.MinCmdCycle(c.tech, dram, AsReq(it, 0))
  }

  predicate InWrites(c: Config, j: Job) { c.deferredWrites && j.write }

  function NewItem(s: State, j: Job, mem: nat): Item { Item(j, s.stamp, mem) }

  function Queued(l: Lane, it: Item, b: BankQueue.Bank, limit: nat): (l': Lane)
    requires it.job.rank < |l.chains| && it.job.bank < |l.chains[it.job.rank]|
  {
    var j := it.job;
    var q := BankQueue.Enqueue(ChainAt(l, j.rank, j.bank), b, limit, j.row, it.stamp);
    SetChain(l, j.rank, j.bank, q).(queue := l.queue + [it])
  }

  /** Puts the request into its queue and into its bank queue. */
  function Enlist(c: Config, s: State, j: Job, mem: nat): (s': State)
    requires Shaped(s) && Placed(s.dram, j)
    ensures Shaped(s')
  {
    var b := s.dram.banks[j.rank][j.bank];
    var l := LaneOf(s, InWrites(c, j));
    var l' := Queued(l, NewItem(s, j, mem), BankQueue.Bank(b.open, b.openRow, b.curHits), c.rowHitLimit);
    SetLane(s, InWrites(c, j), l').(stamp := s.stamp + 1)
  }

  // ---------------------------------------------------------------- scheduling

  /** Whether cycle m is earlier than a wake-up, which may be absent. */
  predicate Earlier(m: nat, next: Option<nat>) { next.None? || m < next.value }

  function Least(next: Option<nat>, m: nat): Option<nat> {
    if Earlier(m, next) then Some(m) else next
  }

  /** Goes through the queue from position i for the first request that heads its bank queue and
      is ready; `next` becomes the earliest cycle at which a head passed over would be. */
  function Scan(c: Config, dram: Timing.State, l: Lane, cur: nat, i: nat, next: Option<nat>):
      (r: (Option<nat>, Option<nat>))
    requires i <= |l.queue| && Fits(dram, l)
    ensures r.0.Some? ==> i <= r.0.value < |l.queue| && IsHead(l, l.queue[r.0.value])
    ensures r.0.Some? ==> Ready(c, dram, l.queue[r.0.value]) <= cur
    decreases |l.queue| - i
  {
    if i == |l.queue| then (None, next)
    else if !IsHead(l, l.queue[i]) then Scan(c, dram, l, cur, i + 1, next)
    else
      var m := Ready(c, dram, l.queue[i]);
      if m <= cur then (Some(i), Least(next, m)) else Scan(c, dram, l, cur, i + 1, Least(next, m))
  }

  /** Writes go first when their queue fills up. */
  predicate ServesWrites(c: Config, s: State) {
    || s.rdLane.queue == []
    || |s.wrLane.queue| > 3 * c.depth / 4
    || (s.dram.lastWrite && |s.wrLane.queue| > c.depth / 4)
  }

  /** Takes request k, the head of its bank queue, out of both queues. */
  function Remove(l: Lane, k: nat): (l': Lane)
    requires k < |l.queue| && IsHead(l, l.queue[k])
  {
    var j := l.queue[k].job;
    SetChain(l, j.rank, j.bank, ChainAt(l, j.rank, j.bank)[1..]).(queue := l.queue[..k] + l.queue[k + 1..])
  }

  /** Auto-precharge, unless the next request in the bank queue is a row hit. */
  predicate Closes(c: Config, q: seq<BankQueue.Req>) {
    c.closedPage && !(|q| > 1 && q[1].hit != 0)
  }

  function Issue(c: Config, s: State, writes: bool, k: nat, cur: nat): (s': State)
    requires Shaped(s) && k < |LaneOf(s, writes).queue| && IsHead(LaneOf(s, writes), LaneOf(s, writes).queue[k])
    ensures Shaped(s')
  {
    var l := LaneOf(s, writes);
    var it := l.queue[k];
    var q := ChainAt(l, it.job.rank, it.job.bank);
    SetLane(s, writes, Remove(l, k)).(
      dram := Timing.Serve(c.tech, s.dram, AsReq(it, q[0].hit), cur, Closes(c, q)),
      served := s.served + [it.job])
  }

  /** The state after a routine, the cycle it asks to be woken at, and whether every assertion
      held. */
  datatype Outcome = Outcome(s: State, next: Option<nat>, ok: bool)

  /** The assertions while request k is issued: its bank's column commands are in order, and its
      response is not in the past. */
  predicate IssueOk(c: Config, s: State, writes: bool, k: nat, cur: nat)
    requires ConfigOk(c) && Shaped(s)
    requires k < |LaneOf(s, writes).queue| && IsHead(LaneOf(s, writes), LaneOf(s, writes).queue[k])
  {
    var j := LaneOf(s, writes).queue[k].job;
    var s' := Issue(c, s, writes, k, cur);
    && s.dram.banks[j.rank][j.bank].lastCmd < s'.dram.banks[j.rank][j.bank].lastCmd
    && Clock.MemToSys(c.sysKHz, c.memKHz, s'.dram.minResp) + c.latency >= s.now
  }

  /** An attempt on one lane: issues its first request that is ready. */
  function Attempt(c: Config, s: State, writes: bool, cur: nat): (o: Outcome)
    requires ConfigOk(c) && Shaped(s)
    ensures Shaped(o.s)
  {
    var (k, next) := Scan(c, s.dram, LaneOf(s, writes), cur, 0, None);
    if k.None? then Outcome(s, next, LaneOf(s, writes).queue != [])
    else
      var s' := Issue(c, s, writes, k.value, cur);
      Outcome(s', if Idle(s') then None else Some(Less(s'.dram.minResp, c.tech.tCL)),
              IssueOk(c, s, writes, k.value, cur))
  }

  function TrySchedule(c: Config, s: State, cur: nat): (o: Outcome)
    requires ConfigOk(c) && Shaped(s)
    ensures Shaped(o.s)
  {
    if Idle(s) then Outcome(s, None, true)
    else if cur + c.tech.tCL < s.dram.minResp then Outcome(s, Some(s.dram.minResp - c.tech.tCL), true)
    else Attempt(c, s, ServesWrites(c, s), cur)
  }

  function Less(a: nat, b: nat): nat { if a >= b then a - b else 0 }

  // ---------------------------------------------------------------- events

  datatype Event = Arrive(at: nat, j: Job) | Tick | RefreshAt(at: nat)

  /** A wake-up for memory cycle m, set at system cycle `now`. Memory cycles start at 1. */
  function AlarmAt(c: Config, now: nat, m: nat): Clock.Alarm
    requires ConfigOk(c)
  {
    var back := Clock.MatchingMemToSys(c.sysKHz, c.memKHz, Timing.Max(1, m));
    Clock.Alarm(m, if back >= now then back else now)
  }

  /** The first cycle at which a request that heads its bank queue is worth a wake-up. */
  function Soonest(c: Config, s: State, mem: nat): nat {
    Timing.Max(mem, Less(s.dram.minResp, c.tech.tCL + c.tech.tBL))
  }

  function Wish(s: State): Option<nat> {
    if s.alarm.None? then None else Some(s.alarm.value.memCycle)
  }

  /** A request enters the queues, and may bring the wake-up forward. */
  function EnlistAndWake(c: Config, s: State, j: Job, at: nat): (s': State)
    requires ConfigOk(c) && Shaped(s) && Placed(s.dram, j)
    ensures Shaped(s')
  {
    var it := NewItem(s, j, MemCycle(c, at));
    var s' := Enlist(c, s, j, it.arrival);
    var soon := Soonest(c, s', it.arrival);
    var m := Timing.Max(soon, Ready(c, s'.dram, it));
    if IsHead(LaneOf(s', InWrites(c, j)), it) && Earlier(soon, Wish(s')) && Earlier(m, Wish(s'))
    then s'.(alarm := Some(AlarmAt(c, at, m)))
    else s'
  }

  function DoArrive(c: Config, s0: State, at: nat, j: Job): (s': State)
    requires ConfigOk(c) && Shaped(s0) && Placed(s0.dram, j)
    ensures Shaped(s')
  {
    var s := s0.(now := at, arrived := s0.arrived + [j]);
    if Full(c, s) then s.(overflow := s.overflow + [j]) else EnlistAndWake(c, s, j, at)
  }

  /** After a scheduling attempt: room for a request from the overflow queue, which may bring the
      wake-up forward. */
  function Refill(c: Config, s0: State, next: Option<nat>, mem: nat): (r: (State, Option<nat>))
    requires ConfigOk(c) && Shaped(s0)
    ensures Shaped(r.0)
  {
    if Full(c, s0) || s0.overflow == [] then (s0, next)
    else
      var j := s0.overflow[0];
      var s := s0.(overflow := s0.overflow[1..]);
      var s' := Enlist(c, s, j, mem);
      var soon := Soonest(c, s', mem);
      var m := if Earlier(soon, next) then Some(Timing.Max(soon, Ready(c, s'.dram, NewItem(s, j, mem)))) else next;
      (s', if !IsHead(LaneOf(s', InWrites(c, j)), NewItem(s, j, mem)) then next
           else if Earlier(soon, m) then Some(soon)
           else m)
  }

  function WakeUp(c: Config, at: nat, next: Option<nat>): Option<Clock.Alarm>
    requires ConfigOk(c)
  {
    if next.None? then None else Some(AlarmAt(c, at, next.value))
  }

  /** The tick's own assertions. */
  predicate OnTime(a: Clock.Alarm, next: Option<nat>, mem: nat) {
    mem == a.memCycle && (next.Some? ==> next.value >= mem)
  }

  function DoTick(c: Config, s: State): (o: Outcome)
    requires ConfigOk(c) && Shaped(s) && s.alarm.Some?
    ensures Shaped(o.s)
  {
    var at := s.alarm.value.sysCycle;
    var mem := MemCycle(c, at);
    var tried := TrySchedule(c, s.(now := at), mem);
    var (s', next) := Refill(c, tried.s, tried.next, mem);
    Outcome(s'.(alarm := WakeUp(c, at, next)), next, tried.ok && OnTime(s.alarm.value, tried.next, mem))
  }

  function DoRefresh(c: Config, s: State, at: nat): (s': State)
    requires ConfigOk(c) && Shaped(s)
    ensures Shaped(s')
  {
    s.(now := at, dram := Timing.Refresh(c.tech, s.dram, MemCycle(c, at)))
  }

  predicate Enabled(s: State, e: Event) {
    match e
    case Arrive(at, j) => s.now <= at && (s.alarm.Some? ==> at <= s.alarm.value.sysCycle) && Placed(s.dram, j)
    case Tick => s.alarm.Some?
    case RefreshAt(at) => s.now <= at && (s.alarm.Some? ==> at <= s.alarm.value.sysCycle)
  }

  function Next(c: Config, s: State, e: Event): (o: Outcome)
    requires ConfigOk(c) && Shaped(s) && Enabled(s, e)
    ensures Shaped(o.s)
  {
    match e
    case Arrive(at, j) => Outcome(DoArrive(c, s, at, j), None, true)
    case Tick => DoTick(c, s)
    case RefreshAt(at) => Outcome(DoRefresh(c, s, at), None, true)
  }

  // ---------------------------------------------------------------- what holds in every state

  /** Request queue entry i is the one that bank queue entry `e` stands for. */
  predicate Owns(queue: seq<Item>, i: nat, rank: nat, bank: nat, e: BankQueue.Req)
    requires i < |queue|
  {
    var j := queue[i].job;
    queue[i].stamp == e.id && j.rank == rank && j.bank == bank && j.row == e.row
  }

  ghost predicate Owned(queue: seq<Item>, rank: nat, bank: nat, e: BankQueue.Req) {
    exists i :: 0 <= i < |queue| && Owns(queue, i, rank, bank, e)
  }

  predicate Stands(q: seq<BankQueue.Req>, k: nat, it: Item)
    requires k < |q|
  {
    q[k].id == it.stamp && q[k].row == it.job.row
  }

  ghost predicate Linked(q: seq<BankQueue.Req>, it: Item) {
    exists k :: 0 <= k < |q| && Stands(q, k, it)
  }

  /** A bank queue is in service order, and holds requests of the request queue only. */
  ghost predicate ChainOk(l: Lane, rank: nat, bank: nat, limit: nat) {
    var q := ChainAt(l, rank, bank);
    BankQueue.Ordered(q, limit) && forall k :: 0 <= k < |q| ==> Owned(l.queue, rank, bank, q[k])
  }

  /** Request i is linked into the bank queue it belongs to. */
  ghost predicate ItemOk(l: Lane, i: nat)
    requires i < |l.queue|
  {
    Linked(ChainAt(l, l.queue[i].job.rank, l.queue[i].job.bank), l.queue[i])
  }

  predicate Stamped(queue: seq<Item>, stamp: nat) {
    && (forall i, j :: 0 <= i < j < |queue| ==> queue[i].stamp < queue[j].stamp)
    && forall i :: 0 <= i < |queue| ==> queue[i].stamp < stamp
  }

  ghost predicate LaneOk(l: Lane, limit: nat, stamp: nat) {
    && Stamped(l.queue, stamp)
    && (forall r: nat, b: nat :: ChainOk(l, r, b, limit))
    && forall i :: 0 <= i < |l.queue| ==> ItemOk(l, i)
  }

  function Jobs(queue: seq<Item>): (r: seq<Job>)
    ensures |r| == |queue|
  {
    seq(|queue|, i requires 0 <= i < |queue| => queue[i].job)
  }

  function Waiting(s: State): multiset<Job> {
    multiset(Jobs(s.rdLane.queue)) + multiset(Jobs(s.wrLane.queue)) + multiset(s.overflow)
  }

  /** Every request that has arrived has been served or waits in exactly one place. */
  predicate Accounted(s: State) {
    multiset(s.arrived) == multiset(s.served) + Waiting(s)
  }

  /** A wake-up is pending exactly when something is queued; it is not overdue, and will find
      itself in the memory cycle it was set for. */
  predicate AlarmOk(c: Config, s: State)
    requires ConfigOk(c)
  {
    && (s.alarm.None? <==> Idle(s))
    && (s.overflow != [] ==> s.alarm.Some?)
    && (s.alarm.Some? ==>
          var a := s.alarm.value;
          a.sysCycle > 0 && s.now <= a.sysCycle && MemCycle(c, a.sysCycle) == a.memCycle)
  }

  /** The queues agree with each other and are within their size, and the timing rules hold. */
  ghost predicate Core(c: Config, s: State) {
    match s
    case State(dram, rdLane, wrLane, overflow, stamp, _, _, _, _) =>
      && ConfigOk(c) && Timing.Good(c.tech, dram) && AllPlaced(dram, overflow)
      && Fits(dram, rdLane) && LaneOk(rdLane, c.rowHitLimit, stamp) && |rdLane.queue| <= c.depth
      && Fits(dram, wrLane) && LaneOk(wrLane, c.rowHitLimit, stamp) && |wrLane.queue| <= c.depth
  }

  /** The invariant of every run, for queues with room for a request. */
  ghost predicate Ok(c: Config, s: State) {
    c.depth > 0 && Core(c, s) && Accounted(s) && AlarmOk(c, s)
  }

  // ---------------------------------------------------------------- the two queues agree

  lemma SameItem(queue: seq<Item>, stamp: nat, i: nat, j: nat)
    requires Stamped(queue, stamp) && i < |queue| && j < |queue|
    ensures queue[i].stamp == queue[j].stamp ==> i == j
  {
  }

  /** No request is linked into a bank queue twice. */
  lemma LinkedOnce(l: Lane, limit: nat, stamp: nat, rank: nat, bank: nat, k: nat, m: nat)
    requires LaneOk(l, limit, stamp)
    requires k < m < |ChainAt(l, rank, bank)|
    ensures ChainAt(l, rank, bank)[k].id != ChainAt(l, rank, bank)[m].id
  {
    var q := ChainAt(l, rank, bank);
    assert ChainOk(l, rank, bank, limit);
    assert Owned(l.queue, rank, bank, q[k]) && Owned(l.queue, rank, bank, q[m]);
    var i :| 0 <= i < |l.queue| && Owns(l.queue, i, rank, bank, q[k]);
    var j :| 0 <= j < |l.queue| && Owns(l.queue, j, rank, bank, q[m]);
    SameItem(l.queue, stamp, i, j);
  }

  /** Some waiting request heads its bank queue. */
  lemma SomeHead(l: Lane, limit: nat, stamp: nat) returns (i: nat)
    requires LaneOk(l, limit, stamp) && l.queue != []
    ensures i < |l.queue| && IsHead(l, l.queue[i])
  {
    var j := l.queue[0].job;
    var q := ChainAt(l, j.rank, j.bank);
    assert ItemOk(l, 0);
    assert ChainOk(l, j.rank, j.bank, limit);
    assert Owned(l.queue, j.rank, j.bank, q[0]);
    i :| 0 <= i < |l.queue| && Owns(l.queue, i, j.rank, j.bank, q[0]);
  }

  /** The front of a bank queue and the request that heads it are one. */
  lemma HeadIsFront(l: Lane, limit: nat, stamp: nat, i: nat)
    requires LaneOk(l, limit, stamp) && i < |l.queue| && IsHead(l, l.queue[i])
    ensures Stands(ChainAt(l, l.queue[i].job.rank, l.queue[i].job.bank), 0, l.queue[i])
  {
    var j := l.queue[i].job;
    var q := ChainAt(l, j.rank, j.bank);
    assert ChainOk(l, j.rank, j.bank, limit);
    assert Owned(l.queue, j.rank, j.bank, q[0]);
    var k :| 0 <= k < |l.queue| && Owns(l.queue, k, j.rank, j.bank, q[0]);
    SameItem(l.queue, stamp, i, k);
  }

  // ---------------------------------------------------------------- queueing keeps them agreed

  lemma QueuedOk(l: Lane, it: Item, b: BankQueue.Bank, limit: nat)
    requires it.job.rank < |l.chains| && it.job.bank < |l.chains[it.job.rank]|
    requires LaneOk(l, limit, it.stamp)
    ensures LaneOk(Queued(l, it, b, limit), limit, it.stamp + 1)
  {
    var l' := Queued(l, it, b, limit);
    forall r: nat, k: nat
      ensures ChainOk(l', r, k, limit)
    {
      QueuedChain(l, it, b, limit, r, k);
    }
    forall i | 0 <= i < |l'.queue|
      ensures ItemOk(l', i)
    {
      QueuedLinks(l, it, b, limit, i);
    }
  }

  lemma OwnedStays(queue: seq<Item>, it: Item, rank: nat, bank: nat, e: BankQueue.Req)
    requires Owned(queue, rank, bank, e)
    ensures Owned(queue + [it], rank, bank, e)
  {
    var i :| 0 <= i < |queue| && Owns(queue, i, rank, bank, e);
    assert Owns(queue + [it], i, rank, bank, e);
  }

  lemma QueuedChain(l: Lane, it: Item, b: BankQueue.Bank, limit: nat, r: nat, k: nat)
    requires it.job.rank < |l.chains| && it.job.bank < |l.chains[it.job.rank]|
    requires LaneOk(l, limit, it.stamp)
    ensures ChainOk(Queued(l, it, b, limit), r, k, limit)
  {
    var q := ChainAt(l, r, k);
    assert ChainOk(l, r, k, limit);
    if r == it.job.rank && k == it.job.bank {
      StampsBelow(l, limit, it.stamp, r, k);
      BankQueue.EnqueueOrdered(q, b, limit, it.job.row, it.stamp);
      EnqueuedOwned(l.queue, q, it, b, limit);
    } else {
      forall m | 0 <= m < |q|
        ensures Owned(l.queue + [it], r, k, q[m])
      {
        OwnedStays(l.queue, it, r, k, q[m]);
      }
    }
  }

  lemma EnqueuedOwned(queue: seq<Item>, q: seq<BankQueue.Req>, it: Item, b: BankQueue.Bank, limit: nat)
    requires forall m :: 0 <= m < |q| ==> Owned(queue, it.job.rank, it.job.bank, q[m])
    ensures var q' := BankQueue.Enqueue(q, b, limit, it.job.row, it.stamp);
      forall m :: 0 <= m < |q'| ==> Owned(queue + [it], it.job.rank, it.job.bank, q'[m])
  {
    var r, k := it.job.rank, it.job.bank;
    var q' := BankQueue.Enqueue(q, b, limit, it.job.row, it.stamp);
    var p := BankQueue.Slot(q, b, limit, it.job.row).0;
    assert Owns(queue + [it], |queue|, r, k, q'[p]);
    forall m | 0 <= m < |q'|
      ensures Owned(queue + [it], r, k, q'[m])
    {
      if m < p { OwnedStays(queue, it, r, k, q[m]); }
      if m > p { OwnedStays(queue, it, r, k, q[m - 1]); }
    }
  }

  lemma StampsBelow(l: Lane, limit: nat, stamp: nat, r: nat, k: nat)
    requires LaneOk(l, limit, stamp)
    ensures forall m :: 0 <= m < |ChainAt(l, r, k)| ==> ChainAt(l, r, k)[m].id < stamp
  {
    var q := ChainAt(l, r, k);
    assert ChainOk(l, r, k, limit);
    forall m | 0 <= m < |q|
      ensures q[m].id < stamp
    {
      assert Owned(l.queue, r, k, q[m]);
    }
  }

  lemma QueuedLinks(l: Lane, it: Item, b: BankQueue.Bank, limit: nat, i: nat)
    requires it.job.rank < |l.chains| && it.job.bank < |l.chains[it.job.rank]|
    requires LaneOk(l, limit, it.stamp) && i <= |l.queue|
    ensures var l' := Queued(l, it, b, limit);
      ItemOk(l', i)
  {
    var l' := Queued(l, it, b, limit);
    var j := l'.queue[i].job;
    var q, q' := ChainAt(l, j.rank, j.bank), ChainAt(l', j.rank, j.bank);
    var p := BankQueue.Slot(q, b, limit, it.job.row).0;
    if i == |l.queue| {
      assert Stands(q', p, it);
    } else {
      assert ItemOk(l, i);
      var k :| 0 <= k < |q| && Stands(q, k, l.queue[i]);
      if j.rank == it.job.rank && j.bank == it.job.bank {
        assert Stands(q', if k < p then k else k + 1, l.queue[i]);
      } else {
        assert Stands(q', k, l.queue[i]);
      }
    }
  }

  // ---------------------------------------------------------------- service keeps them agreed

  lemma RemoveOk(l: Lane, limit: nat, stamp: nat, i: nat)
    requires LaneOk(l, limit, stamp) && i < |l.queue| && IsHead(l, l.queue[i])
    ensures LaneOk(Remove(l, i), limit, stamp)
  {
    var l' := Remove(l, i);
    HeadIsFront(l, limit, stamp, i);
    forall r: nat, b: nat
      ensures ChainOk(l', r, b, limit)
    {
      RemoveChain(l, limit, stamp, i, r, b);
    }
    forall m | 0 <= m < |l'.queue|
      ensures ItemOk(l', m)
    {
      RemoveLinks(l, limit, stamp, i, if m < i then m else m + 1);
    }
  }

  lemma OwnedElsewhere(queue: seq<Item>, i: nat, rank: nat, bank: nat, e: BankQueue.Req)
    requires i < |queue| && Owned(queue, rank, bank, e) && !Owns(queue, i, rank, bank, e)
    ensures Owned(queue[..i] + queue[i + 1..], rank, bank, e)
  {
    var k :| 0 <= k < |queue| && Owns(queue, k, rank, bank, e);
    assert Owns(queue[..i] + queue[i + 1..], if k < i then k else k - 1, rank, bank, e);
  }

  lemma RemoveChain(l: Lane, limit: nat, stamp: nat, i: nat, r: nat, b: nat)
    requires LaneOk(l, limit, stamp) && i < |l.queue| && IsHead(l, l.queue[i])
    ensures var l' := Remove(l, i); ChainOk(l', r, b, limit)
  {
    var l', j := Remove(l, i), l.queue[i].job;
    var q := ChainAt(l, r, b);
    assert ChainOk(l, r, b, limit);
    if r == j.rank && b == j.bank {
      BankQueue.PopOrdered(q, limit);
      forall k | 1 <= k < |q|
        ensures Owned(l'.queue, r, b, q[k])
      {
        LinkedOnce(l, limit, stamp, r, b, 0, k);
        assert Owned(l.queue, r, b, q[k]);
        OwnedElsewhere(l.queue, i, r, b, q[k]);
      }
    } else {
      forall k | 0 <= k < |q|
        ensures Owned(l'.queue, r, b, q[k])
      {
        assert Owned(l.queue, r, b, q[k]);
        OwnedElsewhere(l.queue, i, r, b, q[k]);
      }
    }
  }

  lemma RemoveLinks(l: Lane, limit: nat, stamp: nat, i: nat, m: nat)
    requires LaneOk(l, limit, stamp) && i < |l.queue| && m < |l.queue| && m != i && IsHead(l, l.queue[i])
    ensures Linked(ChainAt(Remove(l, i), l.queue[m].job.rank, l.queue[m].job.bank), l.queue[m])
  {
    var j, it := l.queue[i].job, l.queue[m];
    var q := ChainAt(l, it.job.rank, it.job.bank);
    var q' := ChainAt(Remove(l, i), it.job.rank, it.job.bank);
    assert ItemOk(l, m);
    var k :| 0 <= k < |q| && Stands(q, k, it);
    if it.job.rank == j.rank && it.job.bank == j.bank {
      if k == 0 { SameItem(l.queue, stamp, i, m); }
      assert Stands(q', k - 1, it);
    } else {
      assert Stands(q', k, it);
    }
  }

  // ---------------------------------------------------------------- each routine, proved

  lemma JobsAppend(queue: seq<Item>, it: Item)
    ensures multiset(Jobs(queue + [it])) == multiset(Jobs(queue)) + multiset{it.job}
  {
    assert Jobs(queue + [it]) == Jobs(queue) + [it.job];
  }

  lemma JobsRemove(queue: seq<Item>, i: nat)
    requires i < |queue|
    ensures multiset(Jobs(queue)) == multiset(Jobs(queue[..i] + queue[i + 1..])) + multiset{queue[i].job}
  {
    var a := Jobs(queue);
    assert a == a[..i] + [a[i]] + a[i + 1..];
    assert Jobs(queue[..i] + queue[i + 1..]) == a[..i] + a[i + 1..];
  }

  lemma EnlistKeeps(c: Config, s: State, j: Job, mem: nat)
    requires Core(c, s) && Placed(s.dram, j) && !Full(c, s)
    ensures Core(c, Enlist(c, s, j, mem))
  {
    var l, it, b := LaneOf(s, InWrites(c, j)), NewItem(s, j, mem), s.dram.banks[j.rank][j.bank];
    QueuedOk(l, it, BankQueue.Bank(b.open, b.openRow, b.curHits), c.rowHitLimit);
    LaterStamp(LaneOf(s, !InWrites(c, j)), c.rowHitLimit, s.stamp);
  }

  lemma EnlistAccounts(c: Config, s: State, j: Job, mem: nat)
    requires Shaped(s) && Placed(s.dram, j)
    ensures Waiting(Enlist(c, s, j, mem)) == Waiting(s) + multiset{j}
  {
    JobsAppend(LaneOf(s, InWrites(c, j)).queue, NewItem(s, j, mem));
  }

  lemma LaterStamp(l: Lane, limit: nat, stamp: nat)
    requires LaneOk(l, limit, stamp)
    ensures LaneOk(l, limit, stamp + 1)
  {
  }

  /** Serving books the bus from the current cycle on. */
  lemma ServeBooks(t: Timing.Tech, s: Timing.State, r: Timing.Req, cur: nat, close: bool)
    requires Timing.Located(s, r)
    ensures Timing.Serve(t, s, r, cur, close).minResp >= cur + t.tCL + t.tBL
  {
  }

  /** When request k of a lane may be issued. */
  predicate CanIssue(c: Config, s: State, writes: bool, k: nat, cur: nat)
    requires Shaped(s)
  {
    && k < |LaneOf(s, writes).queue| && IsHead(LaneOf(s, writes), LaneOf(s, writes).queue[k])
    && Ready(c, s.dram, LaneOf(s, writes).queue[k]) <= cur && cur + c.tech.tCL >= s.dram.minResp
  }

  /** Issuing serves the request that is popped, keeps the queues agreed and the timing rules,
      and trips no assertion. */
  lemma IssueKeeps(c: Config, s: State, writes: bool, k: nat)
    requires Core(c, s) && CanIssue(c, s, writes, k, MemCycle(c, s.now))
    ensures var s' := Issue(c, s, writes, k, MemCycle(c, s.now));
      && Core(c, s') && IssueOk(c, s, writes, k, MemCycle(c, s.now))
      && s'.dram.minResp >= MemCycle(c, s.now) + c.tech.tCL + c.tech.tBL
  {
    var cur, l := MemCycle(c, s.now), LaneOf(s, writes);
    var it := l.queue[k];
    var q := ChainAt(l, it.job.rank, it.job.bank);
    RemoveOk(l, c.rowHitLimit, s.stamp, k);
    var r := AsReq(it, q[0].hit);
    assert Timing.CanServe(c.tech, s.dram, r, cur);
    Timing.ServeGood(c.tech, s.dram, r, cur, Closes(c, q));
    ServeBooks(c.tech, s.dram, r, cur, Closes(c, q));
    Clock.BurstNotPast(c.sysKHz, c.memKHz, s.now, Issue(c, s, writes, k, cur).dram.minResp);
  }

  /** Within a row requests are served in the order they were queued: the one that heads its bank
      queue is the oldest of its row there. */
  lemma HeadIsOldest(l: Lane, limit: nat, stamp: nat, i: nat, m: nat)
    requires LaneOk(l, limit, stamp) && i < |l.queue| && m < |l.queue| && i != m && IsHead(l, l.queue[i])
    requires var a, b := l.queue[i].job, l.queue[m].job; a.rank == b.rank && a.bank == b.bank && a.row == b.row
    ensures l.queue[i].stamp < l.queue[m].stamp
  {
    var j := l.queue[i].job;
    HeadIsFront(l, limit, stamp, i);
    assert ItemOk(l, m) && ChainOk(l, j.rank, j.bank, limit);
    SameItem(l.queue, stamp, i, m);
  }

  lemma IssueAccounts(c: Config, s: State, writes: bool, k: nat, cur: nat)
    requires Shaped(s) && CanIssue(c, s, writes, k, cur)
    ensures var s' := Issue(c, s, writes, k, cur);
      multiset(s'.served) + Waiting(s') == multiset(s.served) + Waiting(s)
  {
    JobsRemove(LaneOf(s, writes).queue, k);
  }

  /** The scan proposes the earliest cycle at which a head of a bank queue is ready, or finds one
      that is ready now. */
  lemma {:induction false} ScanIsLeast(c: Config, dram: Timing.State, l: Lane, cur: nat, i: nat, next: Option<nat>)
    requires Fits(dram, l) && i <= |l.queue|
    ensures var (k, m) := Scan(c, dram, l, cur, i, next);
      && (m.Some? && m != next ==> exists j :: i <= j < |l.queue| && HeadReady(c, dram, l, j, m.value))
      && (k.None? ==>
            && (next.Some? ==> !Earlier(next.value, m))
            && forall j, r: nat :: i <= j < |l.queue| && HeadReady(c, dram, l, j, r) ==> r > cur && !Earlier(r, m))
    decreases |l.queue| - i
  {
    if i < |l.queue| {
      var m := if IsHead(l, l.queue[i]) then Least(next, Ready(c, dram, l.queue[i])) else next;
      assert IsHead(l, l.queue[i]) ==> HeadReady(c, dram, l, i, Ready(c, dram, l.queue[i]));
      ScanIsLeast(c, dram, l, cur, i + 1, m);
    }
  }

  predicate HeadReady(c: Config, dram: Timing.State, l: Lane, j: nat, r: nat)
    requires Fits(dram, l) && j < |l.queue|
  {
    IsHead(l, l.queue[j]) && Ready(c, dram, l.queue[j]) == r
  }

  lemma AttemptKeeps(c: Config, s: State, writes: bool)
    requires Core(c, s) && LaneOf(s, writes).queue != [] && MemCycle(c, s.now) + c.tech.tCL >= s.dram.minResp
    ensures var o := Attempt(c, s, writes, MemCycle(c, s.now));
      Core(c, o.s) && o.ok && WakesIff(o.s, o.next, MemCycle(c, s.now))
  {
    var cur := MemCycle(c, s.now);
    var k := Scan(c, s.dram, LaneOf(s, writes), cur, 0, None).0;
    if k.Some? {
      IssueKeeps(c, s, writes, k.value);
    } else {
      NextHead(c, s.dram, LaneOf(s, writes), s.stamp, cur);
    }
  }

  /** An attempt keeps the queues agreed, trips no assertion, and asks to be woken, never in the
      past, exactly when something is left. */
  lemma TryKeeps(c: Config, s: State)
    requires Core(c, s)
    ensures var o := TrySchedule(c, s, MemCycle(c, s.now));
      Core(c, o.s) && o.ok && WakesIff(o.s, o.next, MemCycle(c, s.now))
  {
    if !Idle(s) && MemCycle(c, s.now) + c.tech.tCL >= s.dram.minResp {
      AttemptKeeps(c, s, ServesWrites(c, s));
    }
  }

  /** Something is left exactly when a wake-up is asked for, and it is not in the past. */
  predicate WakesIff(s: State, next: Option<nat>, mem: nat) {
    (next.None? <==> Idle(s)) && (next.Some? ==> next.value >= mem)
  }

  /** A scan that finds nothing ready proposes a later cycle, and a scan at that cycle does find
      something. */
  lemma NextHead(c: Config, dram: Timing.State, l: Lane, stamp: nat, cur: nat)
    requires Fits(dram, l) && LaneOk(l, c.rowHitLimit, stamp) && l.queue != []
    requires Scan(c, dram, l, cur, 0, None).0.None?
    ensures var m := Scan(c, dram, l, cur, 0, None).1;
      m.Some? && m.value > cur && Scan(c, dram, l, m.value, 0, None).0.Some?
  {
    ScanIsLeast(c, dram, l, cur, 0, None);
    var i := SomeHead(l, c.rowHitLimit, stamp);
    assert HeadReady(c, dram, l, i, Ready(c, dram, l.queue[i]));
    ScanIsLeast(c, dram, l, Scan(c, dram, l, cur, 0, None).1.value, 0, None);
  }

  /** A request that finds both queues empty heads its bank queue. */
  lemma FirstIsHead(c: Config, s: State, j: Job, mem: nat)
    requires Core(c, s) && Placed(s.dram, j) && !Full(c, s) && Idle(s)
    ensures IsHead(LaneOf(Enlist(c, s, j, mem), InWrites(c, j)), NewItem(s, j, mem))
  {
    EnlistKeeps(c, s, j, mem);
    var l := LaneOf(Enlist(c, s, j, mem), InWrites(c, j));
    var i := SomeHead(l, c.rowHitLimit, s.stamp + 1);
  }

  lemma RefillKeeps(c: Config, s0: State, next: Option<nat>, mem: nat)
    requires c.depth > 0 && Core(c, s0) && WakesIff(s0, next, mem)
    ensures var (s', next') := Refill(c, s0, next, mem);
      Core(c, s') && WakesIff(s', next', mem) && (s'.overflow != [] ==> next'.Some?)
  {
    if !Full(c, s0) && s0.overflow != [] {
      var j := s0.overflow[0];
      var s := s0.(overflow := s0.overflow[1..]);
      assert s0.overflow == [j] + s.overflow;
      EnlistKeeps(c, s, j, mem);
      if Idle(s) { FirstIsHead(c, s, j, mem); }
    }
  }

  /** A wake-up for a cycle that is not past finds itself in that cycle. */
  lemma AlarmFits(c: Config, now: nat, m: nat)
    requires ConfigOk(c) && MemCycle(c, now) <= m
    ensures var a := AlarmAt(c, now, m);
      a.memCycle == m && a.sysCycle > 0 && now <= a.sysCycle && MemCycle(c, a.sysCycle) == m
  {
    Clock.WakeUpMatches(c.sysKHz, c.memKHz, m, now);
    Clock.MatchingPositive(c.sysKHz, c.memKHz, m);
  }

  lemma TickCore(c: Config, s: State)
    requires c.depth > 0 && Core(c, s) && AlarmOk(c, s) && s.alarm.Some?
    ensures var o := DoTick(c, s); o.ok && Core(c, o.s) && AlarmOk(c, o.s)
  {
    var woken := s.(now := s.alarm.value.sysCycle);
    var mem := MemCycle(c, woken.now);
    TryKeeps(c, woken);
    var tried := TrySchedule(c, woken, mem);
    RefillKeeps(c, tried.s, tried.next, mem);
    var next := Refill(c, tried.s, tried.next, mem).1;
    if next.Some? { AlarmFits(c, woken.now, next.value); }
  }

  lemma TickKeeps(c: Config, s: State)
    requires Ok(c, s) && s.alarm.Some?
    ensures var o := DoTick(c, s); o.ok && Ok(c, o.s) && o.s.arrived == s.arrived
  {
    TickCore(c, s);
    TickAccounts(c, s);
  }

  lemma TickAccounts(c: Config, s: State)
    requires ConfigOk(c) && Shaped(s) && s.alarm.Some?
    ensures var s' := DoTick(c, s).s;
      s'.arrived == s.arrived && multiset(s'.served) + Waiting(s') == multiset(s.served) + Waiting(s)
  {
    var woken := s.(now := s.alarm.value.sysCycle);
    var tried := TrySchedule(c, woken, MemCycle(c, woken.now));
    TryAccounts(c, woken, MemCycle(c, woken.now));
    RefillAccounts(c, tried.s, tried.next, MemCycle(c, woken.now));
  }

  lemma TryAccounts(c: Config, s: State, cur: nat)
    requires ConfigOk(c) && Shaped(s)
    ensures var s' := TrySchedule(c, s, cur).s;
      s'.arrived == s.arrived && multiset(s'.served) + Waiting(s') == multiset(s.served) + Waiting(s)
  {
    if !Idle(s) && cur + c.tech.tCL >= s.dram.minResp {
      var k := Scan(c, s.dram, LaneOf(s, ServesWrites(c, s)), cur, 0, None).0;
      if k.Some? { IssueAccounts(c, s, ServesWrites(c, s), k.value, cur); }
    }
  }

  lemma RefillAccounts(c: Config, s0: State, next: Option<nat>, mem: nat)
    requires ConfigOk(c) && Shaped(s0)
    ensures var s' := Refill(c, s0, next, mem).0;
      s'.arrived == s0.arrived && s'.served == s0.served && Waiting(s') == Waiting(s0)
  {
    if !Full(c, s0) && s0.overflow != [] {
      OverflowAccounts(s0);
      EnlistAccounts(c, s0.(overflow := s0.overflow[1..]), s0.overflow[0], mem);
    }
  }

  lemma OverflowAccounts(s: State)
    requires s.overflow != []
    ensures Waiting(s) == Waiting(s.(overflow := s.overflow[1..])) + multiset{s.overflow[0]}
  {
    assert s.overflow == [s.overflow[0]] + s.overflow[1..];
  }

  lemma ArriveCore(c: Config, s: State, at: nat, j: Job)
    requires c.depth > 0 && Core(c, s) && AlarmOk(c, s) && Enabled(s, Arrive(at, j))
    ensures var s' := DoArrive(c, s, at, j); Core(c, s') && AlarmOk(c, s')
  {
    var s0 := s.(now := at, arrived := s.arrived + [j]);
    if !Full(c, s0) {
      var s' := Enlist(c, s0, j, MemCycle(c, at));
      EnlistKeeps(c, s0, j, MemCycle(c, at));
      if Idle(s0) { FirstIsHead(c, s0, j, MemCycle(c, at)); }
      AlarmFits(c, at, Timing.Max(Soonest(c, s', MemCycle(c, at)), Ready(c, s'.dram, NewItem(s0, j, MemCycle(c, at)))));
    }
  }

  lemma ArriveAccounts(c: Config, s: State, at: nat, j: Job)
    requires ConfigOk(c) && Shaped(s) && Placed(s.dram, j) && Accounted(s)
    ensures Accounted(DoArrive(c, s, at, j))
  {
    var s0 := s.(now := at, arrived := s.arrived + [j]);
    if !Full(c, s0) { EnlistAccounts(c, s0, j, MemCycle(c, at)); }
  }

  lemma RefreshKeeps(c: Config, s: State, at: nat)
    requires Ok(c, s) && Enabled(s, RefreshAt(at))
    ensures Ok(c, DoRefresh(c, s, at))
  {
    Timing.RefreshGood(c.tech, s.dram, MemCycle(c, at));
  }

  /** Every event trips no assertion, keeps the queues agreed and the timing rules, loses no
      request, and leaves a wake-up pending exactly when something is queued. */
  lemma StepKeeps(c: Config, s: State, e: Event)
    requires Ok(c, s) && Enabled(s, e)
    ensures Next(c, s, e).ok && Ok(c, Next(c, s, e).s)
  {
    match e
    case Arrive(at, j) => ArriveCore(c, s, at, j); ArriveAccounts(c, s, at, j);
    case Tick => TickKeeps(c, s);
    case RefreshAt(at) => RefreshKeeps(c, s, at);
  }

  // ---------------------------------------------------------------- whole runs

  function Initial(c: Config, ranks: nat, banks: nat): State {
    var none := Lane([], seq(ranks, _ => seq(banks, _ => [])));
    State(Timing.Initial(c.tech, ranks, banks), none, none, [], 0, 0, None, [], [])
  }

  lemma InitialOk(c: Config, ranks: nat, banks: nat)
    requires ConfigOk(c) && c.depth > 0
    ensures Ok(c, Initial(c, ranks, banks))
  {
    Timing.InitialGood(c.tech, ranks, banks);
    var l := Initial(c, ranks, banks).rdLane;
    forall r: nat, b: nat ensures ChainOk(l, r, b, c.rowHitLimit) {
      assert ChainAt(l, r, b) == [];
    }
  }

  predicate Steps(c: Config, s: State, e: Event, s': State)
    requires ConfigOk(c)
  {
    Shaped(s) && Enabled(s, e) && s' == Next(c, s, e).s
  }

  ghost predicate IsRun(c: Config, trace: seq<State>, es: seq<Event>)
    requires ConfigOk(c)
  {
    |trace| == |es| + 1 && forall k :: 0 <= k < |es| ==> Steps(c, trace[k], es[k], trace[k + 1])
  }

  /** In every run of arrivals, ticks and refreshes every tick comes in the memory cycle it was
      set for, no assertion fails, every request that has arrived has been served or waits in
      exactly one place, and a wake-up is pending whenever one waits. */
  lemma EveryRunKeeps(c: Config, trace: seq<State>, es: seq<Event>, k: nat)
    requires ConfigOk(c) && IsRun(c, trace, es) && Ok(c, trace[0]) && k < |trace|
    ensures Ok(c, trace[k])
    ensures k < |es| ==> NothingFails(c, trace[k], es[k])
  {
    var i := 0;
    while i < k
      invariant i <= k && Ok(c, trace[i])
    {
      RunStep(c, trace[i], es[i], trace[i + 1]);
      i := i + 1;
    }
    if k < |es| { RunStep(c, trace[k], es[k], trace[k + 1]); }
  }

  /** Every assertion of the step holds. */
  predicate NothingFails(c: Config, s: State, e: Event)
    requires ConfigOk(c)
  {
    Shaped(s) && Enabled(s, e) && Next(c, s, e).ok
  }

  lemma RunStep(c: Config, s: State, e: Event, s': State)
    requires Ok(c, s) && Steps(c, s, e, s')
    ensures Ok(c, s') && NothingFails(c, s, e)
  {
    StepKeeps(c, s, e);
  }

  // ---------------------------------------------------------------- progress

  /** What keeps the next tick from serving a request: 2 while the bus is booked too far ahead,
      1 while no head of a bank queue is ready, 0 when nothing does. */
  function Stage(c: Config, s: State): nat
    requires Shaped(s)
  {
    if s.alarm.None? then 0
    else
      var cur := s.alarm.value.memCycle;
      if cur + c.tech.tCL < s.dram.minResp then 2
      else if Scan(c, s.dram, LaneOf(s, ServesWrites(c, s)), cur, 0, None).0.None? then 1
      else 0
  }

  function Pending(s: State): nat { |s.rdLane.queue| + |s.wrLane.queue| + |s.overflow| }

  /** A bound on the ticks still needed to serve everything. */
  function Effort(c: Config, s: State): nat
    requires Shaped(s)
  {
    3 * (Pending(s) + |s.overflow|) + Stage(c, s)
  }

  /** No tick is wasted: each serves a request, or takes one out of the overflow queue, or is
      followed by one that is closer to serving. */
  lemma TickWorks(c: Config, s: State)
    requires Ok(c, s) && s.alarm.Some?
    ensures Effort(c, DoTick(c, s).s) < Effort(c, s)
  {
    var woken := s.(now := s.alarm.value.sysCycle);
    var mem := MemCycle(c, woken.now);
    var tried := TrySchedule(c, woken, mem);
    if tried.s == woken && (Full(c, woken) || woken.overflow == []) {
      IdleTick(c, s);
    } else {
      TryCounts(c, woken, mem);
      RefillCounts(c, tried.s, tried.next, mem);
    }
  }

  lemma TryCounts(c: Config, s: State, cur: nat)
    requires ConfigOk(c) && Shaped(s)
    ensures var s' := TrySchedule(c, s, cur).s;
      s'.overflow == s.overflow && (s' == s || Pending(s') == Pending(s) - 1)
  {
  }

  lemma RefillCounts(c: Config, s: State, next: Option<nat>, mem: nat)
    requires ConfigOk(c) && Shaped(s)
    ensures var s' := Refill(c, s, next, mem).0;
      Pending(s') == Pending(s) && |s'.overflow| == |s.overflow| - if Full(c, s) || s.overflow == [] then 0 else 1
  {
  }

  /** A tick that changes nothing but the wake-up comes closer to serving. */
  lemma IdleTick(c: Config, s: State)
    requires c.depth > 0 && Core(c, s) && AlarmOk(c, s) && s.alarm.Some?
    requires var woken := s.(now := s.alarm.value.sysCycle);
      TrySchedule(c, woken, MemCycle(c, woken.now)).s == woken && (Full(c, woken) || woken.overflow == [])
    ensures var s' := DoTick(c, s).s;
      s'.rdLane == s.rdLane && s'.wrLane == s.wrLane && s'.overflow == s.overflow && Stage(c, s') < Stage(c, s)
  {
    var woken := s.(now := s.alarm.value.sysCycle);
    var mem := MemCycle(c, woken.now);
    TryKeeps(c, woken);
    var next := TrySchedule(c, woken, mem).next.value;
    AlarmFits(c, woken.now, next);
    if mem + c.tech.tCL >= s.dram.minResp {
      NextHead(c, s.dram, LaneOf(s, ServesWrites(c, s)), s.stamp, mem);
    }
  }

  /** Every request is served: with no further arrivals or refreshes the ticks come to an end
      within `Effort` of them, and once none is pending the queues and the overflow queue are
      empty and exactly what had arrived has been served. */
  lemma EverythingServed(c: Config, trace: seq<State>, es: seq<Event>, k: nat)
    requires ConfigOk(c) && IsRun(c, trace, es) && Ok(c, trace[0]) && k < |trace|
    requires forall i :: 0 <= i < |es| ==> es[i] == Tick
    ensures Ok(c, trace[k]) && trace[k].arrived == trace[0].arrived
    ensures k + Effort(c, trace[k]) <= Effort(c, trace[0])
    ensures trace[k].alarm.None? ==>
      && Idle(trace[k]) && trace[k].overflow == []
      && multiset(trace[k].served) == multiset(trace[0].arrived)
  {
    var i := 0;
    while i < k
      invariant i <= k && Ok(c, trace[i]) && trace[i].arrived == trace[0].arrived
      invariant i + Effort(c, trace[i]) <= Effort(c, trace[0])
    {
      TickServes(c, trace[i], es[i], trace[i + 1]);
      i := i + 1;
    }
  }

  lemma TickServes(c: Config, s: State, e: Event, s': State)
    requires Ok(c, s) && e == Tick && Steps(c, s, e, s')
    ensures Ok(c, s') && s'.arrived == s.arrived && Effort(c, s') < Effort(c, s)
  {
    TickKeeps(c, s);
    TickWorks(c, s);
  }

  /** All this needs queues with room for a request, which the constructor does not check: an
      arrival at rest sets a wake-up if and only if there is room. Without, it goes to the
      overflow queue, and no tick will ever come for it. */
  lemma WakesUpIffRoom(c: Config, s: State, at: nat, j: Job)
    requires Core(c, s) && Idle(s) && s.alarm.None? && Placed(s.dram, j)
    ensures DoArrive(c, s, at, j).alarm.Some? <==> c.depth > 0
  {
    if c.depth > 0 { FirstIsHead(c, s.(now := at, arrived := s.arrived + [j]), j, MemCycle(c, at)); }
  }
}
