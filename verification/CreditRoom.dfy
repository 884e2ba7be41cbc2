/** How much a sender may send: the slots a VC has left, counted in the ledger, decide when it is
    refused, and the errors of the book are raised exactly when a caller breaks its rules. */
module CreditRoom {
  import opened Option
  import opened Sums
  import opened CreditBook
  import Arith

  function Least(a: int, b: int): int { if a <= b then a else b }

  function Above0(a: int): nat { if a > 0 then a else 0 }

  /** The slots VC v could still fill, leaving held-slot limits aside: the one kept for it, what is
      left of its private buffer, and what is left of the shared part. */
  function SlotsLeft(c: Config, b: Book, v: nat): nat
    requires Shaped(c, b) && v < c.vcs
  {
    if c.policy.Private? then Above0(c.policy.vcSize - b.vcOccupancy[v])
    else
      var i := c.owner[v];
      b.reserved[v] + Above0(c.privateSize[i] - b.privateOccupancy[i]) + Above0(c.sharedSize - b.sharedOccupancy)
  }

  /** The flits VC v may still send without a credit. */
  function Room(c: Config, b: Book, v: nat): nat
    requires Shaped(c, b) && v < c.vcs
  {
    if Counts(c.policy) then Above0(Least(SlotsLeft(c, b, v), b.held - b.vcOccupancy[v])) else SlotsLeft(c, b, v)
  }

  /** A VC is refused exactly when it has no room left. */
  lemma RefusedIffNoRoom(c: Config, b: Book, v: nat)
    requires Shaped(c, b) && v < c.vcs
    ensures IsFullFor(c, b, v) <==> Room(c, b, v) == 0
  {
  }

  /** Each flit takes one unit of room, ... */
  lemma SendTakesRoom(c: Config, b: Book, open: set<nat>, v: nat)
    requires ValidConfig(c) && Inv(c, b, open) && v < c.vcs
    requires b.inUse[v] && !b.tailSent[v] && Room(c, b, v) > 0
    ensures var r := SendingFlit(c, b, v, false); r.Some? && Room(c, r.value, v) == Room(c, b, v) - 1
  {
    SendResult(c, b, open, v, false);
    if !c.policy.Private? {
      assert VcReserving(b, v, v in open);
      SlotTaken(c, b, v);
    }
  }

  lemma SlotTaken(c: Config, b: Book, v: nat)
    requires Shaped(c, b) && v < c.vcs && !c.policy.Private? && SendingFlit(c, b, v, false).Some?
    requires b.reserved[v] <= 1 && SlotsLeft(c, b, v) > 0 && b.sharedOccupancy <= c.sharedSize
    ensures SlotsLeft(c, SendingFlit(c, b, v, false).value, v) == SlotsLeft(c, b, v) - 1
  {
  }

  /** ... and each credit gives one back. */
  lemma CreditGivesRoom(c: Config, b: Book, open: set<nat>, v: nat)
    requires ValidConfig(c) && Inv(c, b, open) && v < c.vcs && b.vcOccupancy[v] > 0
    requires Counts(c.policy) ==> b.vcOccupancy[v] <= b.held
    ensures var r := FreeSlot(c, b, v); r.Some? && Room(c, r.value, v) == Room(c, b, v) + 1
  {
    FreeResult(c, b, open, v);
    if !c.policy.Private? {
      assert VcReserving(b, v, v in open) && VcUsage(c, b, v);
      SlotGiven(c, b, open, v);
    }
  }

  lemma SlotGiven(c: Config, b: Book, open: set<nat>, v: nat)
    requires ValidConfig(c) && Inv(c, b, open) && v < c.vcs && !c.policy.Private? && b.vcOccupancy[v] > 0
    requires FreeSlot(c, b, v).Some?
    ensures SlotsLeft(c, FreeSlot(c, b, v).value, v) == SlotsLeft(c, b, v) + 1
  {
    var i := c.owner[v];
    ExcessAtLeast(b.privateOccupancy, c.privateSize, i);
  }

  // ---------------------------------------------------------------- bursts

  /** n flits sent one after the other without a credit; None if one of them is refused. */
  function Burst(c: Config, b: Book, v: nat, n: nat): (r: Option<Book>)
    requires Shaped(c, b) && v < c.vcs
    decreases n
  {
    if n == 0 then Some(b)
    else if IsFullFor(c, b, v) then None
    else
      var r := SendingFlit(c, b, v, false);
      if r.None? then None else Burst(c, r.value, v, n - 1)
  }

  /** The burst law: without any credit a packet may send exactly the room its VC has, no flit
      less and no flit more. */
  lemma {:induction false} BurstIsRoom(c: Config, b: Book, open: set<nat>, v: nat, n: nat)
    requires ValidConfig(c) && Inv(c, b, open) && v < c.vcs && b.inUse[v] && !b.tailSent[v]
    ensures Burst(c, b, v, n).Some? <==> n <= Room(c, b, v)
    decreases n
  {
    RefusedIffNoRoom(c, b, v);
    if n > 0 && Room(c, b, v) > 0 {
      SendTakesRoom(c, b, open, v);
      SendKeeps(c, b, open, v, false);
      BurstIsRoom(c, SendingFlit(c, b, v, false).value, open + {v}, v, n - 1);
    }
  }

  /** What a VC is entitled to when nobody else sends: its own slots, or its private buffer and the
      whole shared part, up to the held-slot limit for `active` VCs. */
  function Share(c: Config, v: nat, active: nat, held: nat): nat
    requires |c.owner| == c.vcs && v < c.vcs && c.owner[v] < |c.privateSize|
  {
    if c.policy.Private? then c.policy.vcSize
    else
      var slots := c.privateSize[c.owner[v]] + c.sharedSize;
      if Counts(c.policy) then Above0(Least(slots, HeldFor(c, active, held))) else slots
  }

  /** From rest a packet that has taken its VC sends its whole share before it needs a credit. */
  lemma ShareFromRest(c: Config, b: Book, v: nat, n: nat)
    requires ValidConfig(c) && Inv(c, b, {}) && v < c.vcs
    requires forall w :: 0 <= w < c.vcs ==> b.vcOccupancy[w] == 0 && !b.inUse[w]
    ensures var r := TakeBuffer(c, b, v);
      r.Some? && (Burst(c, r.value, v, n).Some? <==> n <= Share(c, v, 1, b.held))
  {
    TakeKeeps(c, b, {}, v);
    var r := TakeBuffer(c, b, v).value;
    BurstIsRoom(c, r, {}, v, n);
    RestIsEmpty(c, b);
    NobodyBusy(b.inUse, b.tailSent);
  }

  lemma {:induction false} NobodyBusy(inUse: seq<bool>, tailSent: seq<bool>)
    requires |inUse| == |tailSent| && forall v :: 0 <= v < |inUse| ==> !inUse[v]
    ensures CreditBook.Busy(inUse, tailSent) == 0
  {
    if inUse != [] { NobodyBusy(inUse[1..], tailSent[1..]); }
  }

  lemma RestIsEmpty(c: Config, b: Book)
    requires ValidConfig(c) && Inv(c, b, {})
    requires forall w :: 0 <= w < c.vcs ==> b.vcOccupancy[w] == 0 && !b.inUse[w]
    ensures !c.policy.Private? ==>
      b.sharedOccupancy == 0 && (forall w :: 0 <= w < c.vcs ==> b.reserved[w] == 0) &&
      forall i :: 0 <= i < |c.privateSize| ==> b.privateOccupancy[i] == 0
  {
    if !c.policy.Private? {
      var open: set<nat> := {};
      forall w | 0 <= w < c.vcs ensures b.reserved[w] == 0 { assert VcReserving(b, w, w in open) && VcUsage(c, b, w); }
      assert Load(b) == seq(c.vcs, _ => 0);
      forall i | 0 <= i < |c.privateSize| ensures b.privateOccupancy[i] == 0 { OwnsNothing(c.owner, i); }
      assert b.privateOccupancy == seq(|c.privateSize|, _ => 0);
      NoExcess(c.privateSize);
    }
  }

  /** The held-slot limits are as generous as they can be: the dynamic one is the greatest that all
      active VCs can have at once, the shifting one the greatest for the power of two that covers
      them. */
  lemma HeldIsGreatest(c: Config, active: nat, held: nat, h: nat)
    requires active > 0
    ensures c.policy.Dynamic? ==> (h <= HeldFor(c, active, held) <==> h * active <= c.size)
    ensures c.policy.Shifting? ==> (h <= HeldFor(c, active, held) <==> h * PowerAbove(active - 1) <= c.size)
  {
    if c.policy.Dynamic? {
      Arith.RemainderIs(c.size, active);
      QuotientLeast(c.size, active, h);
    } else if c.policy.Shifting? {
      HalvedDivides(c.size, active - 1);
      GreatestFactor(HeldFor(c, active, held), PowerAbove(active - 1), c.size, h);
    }
  }

  lemma QuotientLeast(size: nat, n: nat, h: nat)
    requires n > 0
    ensures h <= size / n <==> h * n <= size
  {
    assert size == size / n * n + size % n;
    assert (size / n + 1) * n == size / n * n + n;
    GreatestFactor(size / n, n, size, h);
  }

  lemma GreatestFactor(q: nat, p: nat, size: nat, h: nat)
    requires q * p <= size < (q + 1) * p
    ensures h <= q <==> h * p <= size
  {
    if h <= q {
      Arith.MulLe(p, h, q);
      assert p * h == h * p && p * q == q * p;
    } else {
      Arith.MulLe(p, q + 1, h);
      assert p * h == h * p && p * (q + 1) == (q + 1) * p;
    }
  }

  // ---------------------------------------------------------------- exactly when an error is raised

  /** Without a held-slot limit a VC is refused exactly when one more flit would be an error, as
      long as the whole buffer has room. */
  lemma RefusedIffError(c: Config, b: Book, v: nat)
    requires Shaped(c, b) && v < c.vcs && !Counts(c.policy) && b.occupancy < c.size
    ensures IsFullFor(c, b, v) <==> SendingFlit(c, b, v, false).None?
  {
  }

  /** In every state a sender can be in that is so for every flit of the packet that holds the VC;
      a held-slot limit refuses in addition exactly the VCs that have reached it. */
  lemma SendFailsIff(c: Config, b: Book, open: set<nat>, v: nat, tail: bool)
    requires ValidConfig(c) && Inv(c, b, open) && v < c.vcs && b.inUse[v] && !b.tailSent[v]
    ensures SendingFlit(c, b, v, tail).None? <==> SlotsLeft(c, b, v) == 0
    ensures IsFullFor(c, b, v) <==>
      SendingFlit(c, b, v, tail).None? || (Counts(c.policy) && b.vcOccupancy[v] >= b.held)
  {
    if !OutOfSlots(c, b, v) { SendKeeps(c, b, open, v, tail); }
  }

  /** Taking a VC fails exactly when it is in use. */
  lemma TakeFailsIff(c: Config, b: Book, open: set<nat>, v: nat)
    requires ValidConfig(c) && Inv(c, b, open) && v < c.vcs
    ensures TakeBuffer(c, b, v).None? <==> b.inUse[v]
  {
    if !b.inUse[v] { TakeKeeps(c, b, open, v); }
  }

  /** A credit is an error exactly when its VC has nothing outstanding. */
  lemma CreditFailsIff(c: Config, b: Book, open: set<nat>, v: nat)
    requires ValidConfig(c) && Inv(c, b, open) && v < c.vcs
    ensures FreeSlot(c, b, v).None? <==> b.vcOccupancy[v] == 0
  {
    Natural(c, b, open);
    if b.vcOccupancy[v] > 0 { CreditKeeps(c, b, open, v); }
  }
}
