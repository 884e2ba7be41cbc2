/** The upstream half of credit-based flow control: what a sender keeps about the buffer at the
    far end of its channel. A `Book` is the state of a BufferState together with its buffer
    policy; `None` stands for every call of Error and every failed assertion. */
module CreditBook {
  import opened Option
  import opened Sums
  import opened Arith

  // ---------------------------------------------------------------- state

  datatype Policy = Private(vcSize: nat) | Shared | Limited(slots: nat) | Dynamic | Shifting

  /** `owner` maps each VC to its private buffer; the private buffers and the shared part make
      up the whole buffer. */
  datatype Config = Config(vcs: nat, size: nat, waitForTail: bool, policy: Policy,
                           owner: seq<nat>, privateSize: seq<nat>, sharedSize: nat)

  datatype Book = Book(occupancy: int, vcOccupancy: seq<int>, inUse: seq<bool>, tailSent: seq<bool>,
                       privateOccupancy: seq<int>, sharedOccupancy: int, reserved: seq<nat>,
                       active: int, held: nat)

  predicate Shaped(c: Config, b: Book) {
    && |b.vcOccupancy| == |b.inUse| == |b.tailSent| == |b.reserved| == |c.owner| == c.vcs
    && |b.privateOccupancy| == |c.privateSize|
    && forall v :: 0 <= v < c.vcs ==> c.owner[v] < |c.privateSize|
  }

  predicate Counts(p: Policy) { p.Limited? || p.Dynamic? || p.Shifting? }

  /** What the constructors demand, and a buffer large enough for the policy: every VC's private
      share fits, or the held-slot limit stays positive with all VCs active. */
  predicate ValidConfig(c: Config) {
    && |c.owner| == c.vcs
    && (forall v :: 0 <= v < c.vcs ==> c.owner[v] < |c.privateSize|)
    && (if c.policy.Private? then c.policy.vcSize > 0 && c.vcs * c.policy.vcSize <= c.size
        else Sum(c.privateSize) + c.sharedSize == c.size)
    && (c.policy.Limited? ==> c.policy.slots > 0)
    && (c.policy.Dynamic? ==> c.size >= c.vcs && c.size > 0)
    && (c.policy.Shifting? ==> c.size >= PowerAbove(c.vcs - 1) && c.size > 0)
  }

  function InitialBook(c: Config): Book {
    Book(0, seq(c.vcs, _ => 0), seq(c.vcs, _ => false), seq(c.vcs, _ => false),
         seq(|c.privateSize|, _ => 0), 0, seq(c.vcs, _ => 0),
         0, if c.policy.Limited? then c.policy.slots else c.size)
  }

  // ---------------------------------------------------------------- held-slot limits

  function Halved(h: nat, i: nat): nat {
    if i == 0 then h else Halved(h / 2, i / 2)
  }

  /** The least power of two above i. */
  function PowerAbove(i: int): (p: nat)
    ensures p > 0 && p > i
    decreases if i < 0 then 0 else i
  {
    if i <= 0 then 1 else 2 * PowerAbove(i / 2)
  }

  /** The limit a dynamic policy computes for `active` VCs. */
  function HeldFor(c: Config, active: int, held: nat): nat {
    if c.policy.Dynamic? && active > 0 then Quotient(c.size, active)
    else if c.policy.Shifting? && active > 0 then Halved(c.size, active - 1)
    else held
  }

  /** Shifting by the bit length of i divides by the power of two above i. */
  lemma {:induction false} HalvedDivides(h: nat, i: nat)
    ensures Halved(h, i) * PowerAbove(i) <= h < (Halved(h, i) + 1) * PowerAbove(i)
    decreases i
  {
    if i > 0 {
      HalvedDivides(h / 2, i / 2);
      Doubled(Halved(h / 2, i / 2), PowerAbove(i / 2), h / 2, h);
    }
  }

  lemma Doubled(q: nat, p: nat, g: nat, h: nat)
    requires q * p <= g < (q + 1) * p && 2 * g <= h <= 2 * g + 1
    ensures q * (2 * p) <= h < (q + 1) * (2 * p)
  {
    assert q * (2 * p) == 2 * (q * p);
    assert (q + 1) * (2 * p) == 2 * ((q + 1) * p);
  }

  lemma {:induction false} PowerAboveGrows(i: int, j: int)
    requires i <= j
    ensures PowerAbove(i) <= PowerAbove(j)
    decreases if j < 0 then 0 else j
  {
    if i > 0 { PowerAboveGrows(i / 2, j / 2); }
  }

  /** The dynamic limit never vanishes, whatever number of VCs is active, exactly when the buffer
      has a slot for every VC. */
  lemma DynamicPositiveIff(c: Config)
    requires c.policy.Dynamic? && c.vcs > 0
    ensures (forall a :: 0 < a <= c.vcs ==> HeldFor(c, a, 0) > 0) <==> c.size >= c.vcs
  {
    assert HeldFor(c, c.vcs, 0) == Quotient(c.size, c.vcs);
    QuotientPositiveIff(c.size, c.vcs);
    forall a | 0 < a <= c.vcs && c.size >= c.vcs ensures HeldFor(c, a, 0) > 0 {
      QuotientPositiveIff(c.size, a);
    }
  }

  /** The shifting limit never vanishes exactly when the buffer has as many slots as the least
      power of two that covers all VCs. */
  lemma ShiftingPositiveIff(c: Config)
    requires c.policy.Shifting? && c.vcs > 0
    ensures (forall a :: 0 < a <= c.vcs ==> HeldFor(c, a, 0) > 0) <==> c.size >= PowerAbove(c.vcs - 1)
  {
    HalvedPositiveIff(c.size, c.vcs - 1);
    assert HeldFor(c, c.vcs, 0) == Halved(c.size, c.vcs - 1);
    forall a | 0 < a <= c.vcs && c.size >= PowerAbove(c.vcs - 1) ensures HeldFor(c, a, 0) > 0 {
      ShiftedPositive(c.size, c.vcs - 1, a - 1);
    }
  }

  lemma ShiftedPositive(h: nat, n: nat, i: nat)
    requires i <= n && h >= PowerAbove(n)
    ensures Halved(h, i) > 0
  {
    PowerAboveGrows(i, n);
    HalvedPositiveIff(h, i);
  }

  lemma HalvedPositiveIff(h: nat, i: nat)
    ensures Halved(h, i) > 0 <==> h >= PowerAbove(i)
  {
    HalvedDivides(h, i);
    PositiveIff(Halved(h, i), PowerAbove(i), h);
  }

  lemma PositiveIff(q: nat, p: nat, h: nat)
    requires q * p <= h < (q + 1) * p
    ensures q > 0 <==> h >= p
  {
    if q > 0 { MulLe(p, 1, q); }
  }

  /** The limits of all active VCs together never promise more than the buffer holds. */
  lemma LimitsFit(c: Config, active: nat, held: nat)
    requires active > 0 && (c.policy.Dynamic? || c.policy.Shifting?)
    ensures active * HeldFor(c, active, held) <= c.size
  {
    if c.policy.Dynamic? { QuotientFits(c.size, active); } else { ShiftedFits(c.size, active); }
  }

  lemma ShiftedFits(h: nat, active: nat)
    requires active > 0
    ensures active * Halved(h, active - 1) <= h
  {
    HalvedDivides(h, active - 1);
    var q, p := Halved(h, active - 1), PowerAbove(active - 1);
    MulLe(q, active, p);
    assert active * q == q * active;
  }

  // ---------------------------------------------------------------- the policies

  predicate SharedFull(c: Config, b: Book, v: nat)
    requires Shaped(c, b) && v < c.vcs
  {
    var i := c.owner[v];
    b.reserved[v] == 0 && b.privateOccupancy[i] >= c.privateSize[i] && b.sharedOccupancy >= c.sharedSize
  }

  /** No slot left, leaving held-slot limits aside. */
  predicate OutOfSlots(c: Config, b: Book, v: nat)
    requires Shaped(c, b) && v < c.vcs
  {
    if c.policy.Private? then b.vcOccupancy[v] >= c.policy.vcSize else SharedFull(c, b, v)
  }

  predicate IsFullFor(c: Config, b: Book, v: nat)
    requires Shaped(c, b) && v < c.vcs
  {
    OutOfSlots(c, b, v) || (Counts(c.policy) && b.vcOccupancy[v] >= b.held)
  }

  function ProcessFreeSlot(c: Config, b: Book, v: nat): (r: Option<Book>)
    requires Shaped(c, b) && v < c.vcs
    ensures r.Some? ==> Shaped(c, r.value) && r.value.reserved == b.reserved
  {
    var i := c.owner[v];
    var b' := b.(privateOccupancy := b.privateOccupancy[i := b.privateOccupancy[i] - 1]);
    if b'.privateOccupancy[i] < 0 then None
    else if b'.privateOccupancy[i] >= c.privateSize[i] then
      if b.sharedOccupancy - 1 < 0 then None else Some(b'.(sharedOccupancy := b.sharedOccupancy - 1))
    else Some(b')
  }

  function ClaimSlot(c: Config, b: Book, v: nat): (r: Option<Book>)
    requires Shaped(c, b) && v < c.vcs
    ensures r.Some? ==> Shaped(c, r.value) && r.value.reserved == b.reserved
  {
    var i := c.owner[v];
    var b' := b.(privateOccupancy := b.privateOccupancy[i := b.privateOccupancy[i] + 1]);
    if b'.privateOccupancy[i] > c.privateSize[i] then
      if b.sharedOccupancy + 1 > c.sharedSize then None else Some(b'.(sharedOccupancy := b.sharedOccupancy + 1))
    else Some(b')
  }

  /** The tail gives back what is still reserved. */
  function ReleaseReserved(c: Config, b: Book, v: nat): (r: Option<Book>)
    requires Shaped(c, b) && v < c.vcs
    ensures r.Some? ==> Shaped(c, r.value)
    decreases b.reserved[v]
  {
    if b.reserved[v] == 0 then Some(b)
    else
      var r := ProcessFreeSlot(c, b.(reserved := b.reserved[v := b.reserved[v] - 1]), v);
      if r.None? then None else ReleaseReserved(c, r.value, v)
  }

  function SharedSend(c: Config, b: Book, v: nat, tail: bool): (r: Option<Book>)
    requires Shaped(c, b) && v < c.vcs
    ensures r.Some? ==> Shaped(c, r.value)
  {
    var r := if b.reserved[v] > 0 then Some(b.(reserved := b.reserved[v := b.reserved[v] - 1])) else ClaimSlot(c, b, v);
    if r.None? then None
    else if tail then ReleaseReserved(c, r.value, v)
    else r
  }

  function PolicySend(c: Config, b: Book, v: nat, tail: bool): (r: Option<Book>)
    requires Shaped(c, b) && v < c.vcs
    ensures r.Some? ==> Shaped(c, r.value)
  {
    if c.policy.Private? then
      if b.vcOccupancy[v] > c.policy.vcSize then None else Some(b)
    else
      var r := SharedSend(c, b, v, tail);
      if r.None? || !Counts(c.policy) then r
      else
        var active := if tail then r.value.active - 1 else r.value.active;
        if active < 0 then None
        else
          var held := if tail then HeldFor(c, active, r.value.held) else r.value.held;
          if !c.policy.Limited? && held == 0 then None
          else Some(r.value.(active := active, held := held))
  }

  function PolicyTake(c: Config, b: Book): (r: Option<Book>)
    requires Shaped(c, b)
    ensures r.Some? ==> Shaped(c, r.value)
  {
    if !Counts(c.policy) then Some(b)
    else
      var active := b.active + 1;
      if active > c.vcs || (!c.policy.Limited? && active <= 0) then None
      else
        var held := HeldFor(c, active, b.held);
        if !c.policy.Limited? && held == 0 then None else Some(b.(active := active, held := held))
  }

  function PolicyFree(c: Config, b: Book, v: nat): (r: Option<Book>)
    requires Shaped(c, b) && v < c.vcs
    ensures r.Some? ==> Shaped(c, r.value)
  {
    if c.policy.Private? then Some(b)
    else if b.inUse[v] && b.vcOccupancy[v] == 0 then Some(b.(reserved := b.reserved[v := b.reserved[v] + 1]))
    else ProcessFreeSlot(c, b, v)
  }

  // ---------------------------------------------------------------- the buffer state

  function TakeBuffer(c: Config, b: Book, v: nat): (r: Option<Book>)
    requires Shaped(c, b) && v < c.vcs
    ensures r.Some? ==> Shaped(c, r.value)
  {
    if b.inUse[v] then None
    else PolicyTake(c, b.(inUse := b.inUse[v := true], tailSent := b.tailSent[v := false]))
  }

  function SendingFlit(c: Config, b: Book, v: nat, tail: bool): (r: Option<Book>)
    requires Shaped(c, b) && v < c.vcs
    ensures r.Some? ==> Shaped(c, r.value)
  {
    if b.occupancy + 1 > c.size then None
    else
      var b' := b.(occupancy := b.occupancy + 1, vcOccupancy := b.vcOccupancy[v := b.vcOccupancy[v] + 1]);
      var r := PolicySend(c, b', v, tail);
      if r.None? then None
      else if !tail then r
      else if !c.waitForTail && !r.value.inUse[v] then None
      else Some(r.value.(tailSent := r.value.tailSent[v := true],
                         inUse := if c.waitForTail then r.value.inUse else r.value.inUse[v := false]))
  }

  /** One VC of a returned credit. */
  function FreeSlot(c: Config, b: Book, v: nat): (r: Option<Book>)
    requires Shaped(c, b) && v < c.vcs
    ensures r.Some? ==> Shaped(c, r.value)
  {
    if c.waitForTail && !b.inUse[v] then None
    else if b.occupancy - 1 < 0 || b.vcOccupancy[v] - 1 < 0 then None
    else
      var b' := b.(occupancy := b.occupancy - 1, vcOccupancy := b.vcOccupancy[v := b.vcOccupancy[v] - 1]);
      var done := c.waitForTail && b'.vcOccupancy[v] == 0 && b'.tailSent[v];
      PolicyFree(c, if done then b'.(inUse := b'.inUse[v := false]) else b', v)
  }

  /** A credit carries a set of VCs, in ascending order. */
  function ProcessCredit(c: Config, b: Book, credit: seq<nat>): (r: Option<Book>)
    requires Shaped(c, b) && forall i :: 0 <= i < |credit| ==> credit[i] < c.vcs
    ensures r.Some? ==> Shaped(c, r.value)
    decreases |credit|
  {
    if credit == [] then Some(b)
    else
      var r := FreeSlot(c, b, credit[0]);
      if r.None? then None else ProcessCredit(c, r.value, credit[1..])
  }

  // ---------------------------------------------------------------- the ledger

  /** Slots a VC answers for: flits not yet credited and slots kept for it. */
  function Load(b: Book): (a: seq<int>)
    requires |b.reserved| == |b.vcOccupancy|
    ensures |a| == |b.vcOccupancy|
  {
    seq(|b.vcOccupancy|, v requires 0 <= v < |b.vcOccupancy| => b.vcOccupancy[v] + b.reserved[v])
  }

  /** The part of `a` that falls to private buffer i. */
  function Owned(owner: seq<nat>, a: seq<int>, i: nat): int
    requires |owner| == |a|
  {
    if a == [] then 0 else (if owner[0] == i then a[0] else 0) + Owned(owner[1..], a[1..], i)
  }

  function Over(p: int, size: nat): int { if p > size then p - size else 0 }

  function Excess(p: seq<int>, size: seq<nat>): int
    requires |p| == |size|
  {
    if p == [] then 0 else Over(p[0], size[0]) + Excess(p[1..], size[1..])
  }

  predicate Ledger(c: Config, b: Book)
    requires Shaped(c, b)
  {
    && (forall i :: 0 <= i < |c.privateSize| ==> b.privateOccupancy[i] == Owned(c.owner, Load(b), i))
    && b.sharedOccupancy == Excess(b.privateOccupancy, c.privateSize)
    && b.sharedOccupancy <= c.sharedSize
  }

  lemma {:induction false} OwnedUpdate(owner: seq<nat>, a: seq<int>, v: nat, x: int, i: nat)
    requires |owner| == |a| && v < |a|
    ensures Owned(owner, a[v := x], i) == Owned(owner, a, i) + (if owner[v] == i then x - a[v] else 0)
  {
    if v == 0 {
      assert a[v := x][1..] == a[1..];
    } else {
      OwnedUpdate(owner[1..], a[1..], v - 1, x, i);
      assert a[v := x][1..] == a[1..][v - 1 := x];
    }
  }

  lemma {:induction false} OwnedAtLeast(owner: seq<nat>, a: seq<int>, v: nat)
    requires |owner| == |a| && v < |a| && forall j :: 0 <= j < |a| ==> a[j] >= 0
    ensures Owned(owner, a, owner[v]) >= a[v]
  {
    if v > 0 {
      OwnedAtLeast(owner[1..], a[1..], v - 1);
    } else {
      OwnedNatural(owner[1..], a[1..], owner[0]);
    }
  }

  lemma {:induction false} OwnedNatural(owner: seq<nat>, a: seq<int>, i: nat)
    requires |owner| == |a| && forall j :: 0 <= j < |a| ==> a[j] >= 0
    ensures Owned(owner, a, i) >= 0
  {
    if a != [] { OwnedNatural(owner[1..], a[1..], i); }
  }

  lemma {:induction false} ExcessUpdate(p: seq<int>, size: seq<nat>, i: nat, x: int)
    requires |p| == |size| && i < |p|
    ensures Excess(p[i := x], size) == Excess(p, size) - Over(p[i], size[i]) + Over(x, size[i])
  {
    if i == 0 {
      assert p[i := x][1..] == p[1..];
    } else {
      ExcessUpdate(p[1..], size[1..], i - 1, x);
      assert p[i := x][1..] == p[1..][i - 1 := x];
    }
  }

  lemma {:induction false} ExcessAtLeast(p: seq<int>, size: seq<nat>, i: nat)
    requires |p| == |size| && i < |p|
    ensures Excess(p, size) >= Over(p[i], size[i])
  {
    if i > 0 {
      ExcessAtLeast(p[1..], size[1..], i - 1);
    } else if |p| > 1 {
      ExcessAtLeast(p[1..], size[1..], 0);
    }
  }

  lemma {:induction false} ExcessCovers(p: seq<int>, size: seq<nat>)
    requires |p| == |size|
    ensures Sum(p) <= Sum(size) + Excess(p, size)
  {
    if p != [] { ExcessCovers(p[1..], size[1..]); }
  }

  /** The sums per private buffer, for buffers below n. */
  function Shares(owner: seq<nat>, a: seq<int>, n: nat): (p: seq<int>)
    requires |owner| == |a|
    ensures |p| == n && forall i :: 0 <= i < n ==> p[i] == Owned(owner, a, i)
  {
    if n == 0 then [] else Shares(owner, a, n - 1) + [Owned(owner, a, n - 1)]
  }

  /** Splitting a total by owner loses nothing. */
  lemma {:induction false} SharesTotal(owner: seq<nat>, a: seq<int>, n: nat)
    requires |owner| == |a| && forall v :: 0 <= v < |a| ==> owner[v] < n
    ensures Sum(Shares(owner, a, n)) == Sum(a)
  {
    if a == [] {
      assert Shares(owner, a, n) == seq(n, _ => 0);
      SumZeros(n);
    } else {
      SharesTotal(owner[1..], a[1..], n);
      var p, i := Shares(owner[1..], a[1..], n), owner[0];
      SumUpdate(p, i, p[i] + a[0]);
      assert Shares(owner, a, n) == p[i := p[i] + a[0]];
    }
  }

  /** Whatever the VCs do, a ledger that balances fits into the buffer. */
  lemma LedgerFits(c: Config, b: Book)
    requires ValidConfig(c) && !c.policy.Private? && Shaped(c, b) && Ledger(c, b)
    ensures Sum(Load(b)) <= c.size
    ensures Sum(b.vcOccupancy) <= c.size
  {
    SharesTotal(c.owner, Load(b), |c.privateSize|);
    assert b.privateOccupancy == Shares(c.owner, Load(b), |c.privateSize|);
    ExcessCovers(b.privateOccupancy, c.privateSize);
    SumMonotone(b.vcOccupancy, Load(b));
  }

  lemma LedgerClaim(c: Config, b: Book, b': Book, v: nat)
    requires Shaped(c, b) && Shaped(c, b') && Ledger(c, b) && v < c.vcs && !SharedFull(c, b, v) && b.reserved[v] == 0
    requires Load(b') == Load(b)[v := Load(b)[v] + 1]
    requires b'.privateOccupancy == b.privateOccupancy && b'.sharedOccupancy == b.sharedOccupancy
    ensures ClaimSlot(c, b', v).Some? && Ledger(c, ClaimSlot(c, b', v).value)
  {
    var i := c.owner[v];
    ExcessUpdate(b.privateOccupancy, c.privateSize, i, b.privateOccupancy[i] + 1);
    var r := ClaimSlot(c, b', v).value;
    assert Load(r) == Load(b');
    forall j | 0 <= j < |c.privateSize| ensures r.privateOccupancy[j] == Owned(c.owner, Load(r), j) {
      OwnedUpdate(c.owner, Load(b), v, Load(b)[v] + 1, j);
    }
  }

  lemma LedgerFree(c: Config, b: Book, b': Book, v: nat)
    requires Shaped(c, b) && Shaped(c, b') && Ledger(c, b) && v < c.vcs
    requires (forall j :: 0 <= j < c.vcs ==> b.vcOccupancy[j] >= 0) && Load(b)[v] > 0
    requires Load(b') == Load(b)[v := Load(b)[v] - 1]
    requires b'.privateOccupancy == b.privateOccupancy && b'.sharedOccupancy == b.sharedOccupancy
    ensures ProcessFreeSlot(c, b', v).Some? && Ledger(c, ProcessFreeSlot(c, b', v).value)
  {
    var i := c.owner[v];
    OwnedAtLeast(c.owner, Load(b), v);
    ExcessAtLeast(b.privateOccupancy, c.privateSize, i);
    ExcessUpdate(b.privateOccupancy, c.privateSize, i, b.privateOccupancy[i] - 1);
    var r := ProcessFreeSlot(c, b', v).value;
    assert Load(r) == Load(b');
    forall j | 0 <= j < |c.privateSize| ensures r.privateOccupancy[j] == Owned(c.owner, Load(r), j) {
      OwnedUpdate(c.owner, Load(b), v, Load(b)[v] - 1, j);
    }
  }

  // ---------------------------------------------------------------- the invariant

  /** `open` holds the VCs whose packet has sent a flit but not yet its tail. */
  predicate Usage(c: Config, b: Book, open: set<nat>)
    requires Shaped(c, b)
  {
    && b.occupancy == Sum(b.vcOccupancy)
    && (forall v :: v in open ==> v < c.vcs && b.inUse[v] && !b.tailSent[v])
    && forall v :: 0 <= v < c.vcs ==> VcUsage(c, b, v)
  }

  predicate VcUsage(c: Config, b: Book, v: nat)
    requires Shaped(c, b) && v < c.vcs
  {
    && b.vcOccupancy[v] >= 0
    && (c.waitForTail && !b.inUse[v] ==> b.vcOccupancy[v] == 0)
    && (c.waitForTail && b.inUse[v] && b.tailSent[v] ==> b.vcOccupancy[v] > 0)
    && (!c.waitForTail && b.inUse[v] ==> !b.tailSent[v])
  }

  predicate Reserving(c: Config, b: Book, open: set<nat>)
    requires Shaped(c, b)
  {
    forall v :: 0 <= v < c.vcs ==> VcReserving(b, v, v in open)
  }

  /** At most one slot is reserved, only for a VC that is held and empty, and always when its
      packet is under way. */
  predicate VcReserving(b: Book, v: nat, underWay: bool)
    requires |b.vcOccupancy| == |b.inUse| == |b.tailSent| == |b.reserved| && v < |b.reserved|
  {
    && b.reserved[v] <= 1
    && (b.reserved[v] == 1 ==> b.vcOccupancy[v] == 0 && b.inUse[v] && !b.tailSent[v])
    && (underWay && b.vcOccupancy[v] == 0 ==> b.reserved[v] == 1)
  }

  /** VCs taken by a packet whose tail has not been sent. */
  function Busy(inUse: seq<bool>, tailSent: seq<bool>): (n: nat)
    requires |inUse| == |tailSent|
    ensures n <= |inUse|
  {
    if inUse == [] then 0 else (if inUse[0] && !tailSent[0] then 1 else 0) + Busy(inUse[1..], tailSent[1..])
  }

  predicate Limits(c: Config, b: Book)
    requires Shaped(c, b)
  {
    Counts(c.policy) ==>
      && b.active == Busy(b.inUse, b.tailSent)
      && b.held > 0
      && (b.active > 0 ==> b.held == HeldFor(c, b.active, b.held))
  }

  predicate Inv(c: Config, b: Book, open: set<nat>) {
    && Shaped(c, b) && Usage(c, b, open) && Limits(c, b)
    && (if c.policy.Private? then forall v :: 0 <= v < c.vcs ==> b.vcOccupancy[v] <= c.policy.vcSize
        else Ledger(c, b) && Reserving(c, b, open))
  }

  lemma InitialInv(c: Config)
    requires ValidConfig(c)
    ensures Inv(c, InitialBook(c), {})
  {
    var b := InitialBook(c);
    SumZeros(c.vcs);
    NoneBusy(c.vcs);
    assert Load(b) == seq(c.vcs, _ => 0);
    forall i | 0 <= i < |c.privateSize| ensures Owned(c.owner, Load(b), i) == 0 {
      OwnsNothing(c.owner, i);
    }
    NoExcess(c.privateSize);
  }

  lemma {:induction false} NoneBusy(n: nat)
    ensures Busy(seq(n, _ => false), seq(n, _ => false)) == 0
  {
    if n > 0 {
      assert seq(n, _ => false)[1..] == seq(n - 1, _ => false);
      NoneBusy(n - 1);
    }
  }

  lemma {:induction false} OwnsNothing(owner: seq<nat>, i: nat)
    ensures Owned(owner, seq(|owner|, _ => 0), i) == 0
  {
    if owner != [] {
      assert seq(|owner|, _ => 0)[1..] == seq(|owner| - 1, _ => 0);
      OwnsNothing(owner[1..], i);
    }
  }

  lemma {:induction false} NoExcess(size: seq<nat>)
    ensures Excess(seq(|size|, _ => 0), size) == 0
  {
    if size != [] {
      assert seq(|size|, _ => 0)[1..] == seq(|size| - 1, _ => 0);
      NoExcess(size[1..]);
    }
  }

  lemma Natural(c: Config, b: Book, open: set<nat>)
    requires Inv(c, b, open)
    ensures forall v :: 0 <= v < c.vcs ==> b.vcOccupancy[v] >= 0
  {
    forall v | 0 <= v < c.vcs ensures b.vcOccupancy[v] >= 0 { assert VcUsage(c, b, v); }
  }

  /** The promise to the sender: no more flits are outstanding than the buffer holds. */
  lemma WithinSize(c: Config, b: Book, open: set<nat>)
    requires ValidConfig(c) && Inv(c, b, open)
    ensures 0 <= b.occupancy <= c.size
  {
    if c.policy.Private? {
      SumAtMost(b.vcOccupancy, c.policy.vcSize);
    } else {
      LedgerFits(c, b);
    }
    Natural(c, b, open);
    SumZeros(c.vcs);
    SumMonotone(seq(c.vcs, _ => 0), b.vcOccupancy);
  }

  /** A packet under way is never locked out: with its VC empty downstream it may always send,
      whatever the other VCs hold. */
  lemma NeverLockedOut(c: Config, b: Book, open: set<nat>, v: nat)
    requires ValidConfig(c) && Inv(c, b, open) && v in open && b.vcOccupancy[v] == 0
    ensures !IsFullFor(c, b, v)
  {
    if !c.policy.Private? {
      assert VcReserving(b, v, true);
    }
  }

  lemma {:induction false} BusyUpdate(inUse: seq<bool>, tailSent: seq<bool>, v: nat, u: bool, t: bool)
    requires |inUse| == |tailSent| && v < |inUse|
    ensures Busy(inUse[v := u], tailSent[v := t])
      == Busy(inUse, tailSent) - (if inUse[v] && !tailSent[v] then 1 else 0) + (if u && !t then 1 else 0)
  {
    if v == 0 {
      assert inUse[v := u][1..] == inUse[1..] && tailSent[v := t][1..] == tailSent[1..];
    } else {
      BusyUpdate(inUse[1..], tailSent[1..], v - 1, u, t);
      assert inUse[v := u][1..] == inUse[1..][v - 1 := u] && tailSent[v := t][1..] == tailSent[1..][v - 1 := t];
    }
  }

  lemma HeldPositive(c: Config, active: nat, held: nat)
    requires ValidConfig(c) && active <= c.vcs && held > 0
    ensures HeldFor(c, active, held) > 0
  {
    if active > 0 {
      if c.policy.Dynamic? {
        DynamicPositiveIff(c);
        assert HeldFor(c, active, 0) > 0;
      } else if c.policy.Shifting? {
        ShiftingPositiveIff(c);
        assert HeldFor(c, active, 0) > 0;
      }
    }
  }

  /** Taking a free VC succeeds and keeps the invariant. */
  lemma TakeKeeps(c: Config, b: Book, open: set<nat>, v: nat)
    requires ValidConfig(c) && Inv(c, b, open) && v < c.vcs && !b.inUse[v]
    ensures var r := TakeBuffer(c, b, v);
      && r.Some? && Inv(c, r.value, open)
      && r.value.inUse == b.inUse[v := true] && r.value.tailSent == b.tailSent[v := false]
      && r.value.vcOccupancy == b.vcOccupancy
      && (OutOfSlots(c, r.value, v) <==> OutOfSlots(c, b, v))
  {
    BusyUpdate(b.inUse, b.tailSent, v, true, false);
    var b' := b.(inUse := b.inUse[v := true], tailSent := b.tailSent[v := false]);
    if Counts(c.policy) { HeldPositive(c, b.active + 1, b.held); }
    var r := TakeBuffer(c, b, v).value;
    assert Load(r) == Load(b);
    assert VcUsage(c, b, v);
    forall w | 0 <= w < c.vcs ensures VcUsage(c, r, w) {
      assert VcUsage(c, b, w);
    }
    if !c.policy.Private? {
      forall w | 0 <= w < c.vcs ensures VcReserving(r, w, w in open) {
        assert VcReserving(b, w, w in open);
      }
    }
  }

  /** What sending does to the ledger of a shared buffer: a reserved slot is used up, or else a
      new one is claimed; the tail finds nothing left to give back. */
  lemma SharedSendKeeps(c: Config, b: Book, b': Book, v: nat, tail: bool)
    requires Shaped(c, b) && Ledger(c, b) && v < c.vcs && !SharedFull(c, b, v) && b.reserved[v] <= 1
    requires b' == b.(occupancy := b.occupancy + 1, vcOccupancy := b.vcOccupancy[v := b.vcOccupancy[v] + 1])
    ensures var r := SharedSend(c, b', v, tail);
      && r.Some? && Ledger(c, r.value)
      && r.value == b'.(reserved := b.reserved[v := 0],
                        privateOccupancy := r.value.privateOccupancy, sharedOccupancy := r.value.sharedOccupancy)
  {
    if b.reserved[v] > 0 {
      var r := b'.(reserved := b.reserved[v := 0]);
      assert Load(r) == Load(b);
    } else {
      assert Load(b') == Load(b)[v := Load(b)[v] + 1];
      LedgerClaim(c, b, b', v);
      assert b.reserved[v := 0] == b.reserved;
    }
  }

  /** The policy's part of sending a flit. */
  lemma PolicySendResult(c: Config, b: Book, open: set<nat>, b': Book, v: nat, tail: bool)
    requires ValidConfig(c) && Inv(c, b, open) && v < c.vcs
    requires b.inUse[v] && !b.tailSent[v] && !OutOfSlots(c, b, v)
    requires b' == b.(occupancy := b.occupancy + 1, vcOccupancy := b.vcOccupancy[v := b.vcOccupancy[v] + 1])
    ensures var r := PolicySend(c, b', v, tail);
      && r.Some?
      && r.value.occupancy == b'.occupancy && r.value.vcOccupancy == b'.vcOccupancy
      && r.value.inUse == b.inUse && r.value.tailSent == b.tailSent
      && (!c.policy.Private? ==> r.value.reserved == b.reserved[v := 0] && Ledger(c, r.value))
      && (Counts(c.policy) ==>
            && r.value.active == (if tail then b.active - 1 else b.active)
            && r.value.held == (if tail then HeldFor(c, b.active - 1, b.held) else b.held))
  {
    if Counts(c.policy) { SendLimits(c, b, open, v, tail); }
    if !c.policy.Private? {
      assert VcReserving(b, v, v in open);
      SharedSendKeeps(c, b, b', v, tail);
      assert Load(PolicySend(c, b', v, tail).value) == Load(SharedSend(c, b', v, tail).value);
    }
  }

  /** Sending a flit of the packet that holds the VC, with a slot to spare, raises no error. */
  lemma SendResult(c: Config, b: Book, open: set<nat>, v: nat, tail: bool)
    requires ValidConfig(c) && Inv(c, b, open) && v < c.vcs
    requires b.inUse[v] && !b.tailSent[v] && !OutOfSlots(c, b, v)
    ensures var r := SendingFlit(c, b, v, tail);
      && r.Some?
      && r.value.occupancy == b.occupancy + 1
      && r.value.vcOccupancy == b.vcOccupancy[v := b.vcOccupancy[v] + 1]
      && r.value.inUse == b.inUse[v := !tail || c.waitForTail]
      && r.value.tailSent == b.tailSent[v := tail]
      && (!c.policy.Private? ==> r.value.reserved == b.reserved[v := 0] && Ledger(c, r.value))
      && (Counts(c.policy) ==>
            && r.value.active == (if tail then b.active - 1 else b.active)
            && r.value.held == (if tail then HeldFor(c, b.active - 1, b.held) else b.held))
  {
    var b' := b.(occupancy := b.occupancy + 1, vcOccupancy := b.vcOccupancy[v := b.vcOccupancy[v] + 1]);
    SendFits(c, b, open, b', v, tail);
    PolicySendResult(c, b, open, b', v, tail);
    assert b.inUse[v := true] == b.inUse && b.tailSent[v := false] == b.tailSent;
    var r := SendingFlit(c, b, v, tail).value;
    assert Load(r) == Load(PolicySend(c, b', v, tail).value);
  }

  /** ... and keeps the invariant. */
  lemma SendKeeps(c: Config, b: Book, open: set<nat>, v: nat, tail: bool)
    requires ValidConfig(c) && Inv(c, b, open) && v < c.vcs
    requires b.inUse[v] && !b.tailSent[v] && !OutOfSlots(c, b, v)
    ensures var r := SendingFlit(c, b, v, tail);
      && r.Some? && Inv(c, r.value, if tail then open - {v} else open + {v})
      && r.value.vcOccupancy == b.vcOccupancy[v := b.vcOccupancy[v] + 1]
      && r.value.inUse == b.inUse[v := !tail || c.waitForTail]
      && r.value.tailSent == b.tailSent[v := tail]
  {
    SendResult(c, b, open, v, tail);
    var r := SendingFlit(c, b, v, tail).value;
    SumUpdate(b.vcOccupancy, v, b.vcOccupancy[v] + 1);
    SendKeepsLimits(c, b, open, r, v, tail);
    SendUses(c, b, r, v, tail);
    if !c.policy.Private? {
      assert VcUsage(c, b, v);
      SendReserves(c, b, open, r, v, tail);
    }
  }

  lemma SendKeepsLimits(c: Config, b: Book, open: set<nat>, r: Book, v: nat, tail: bool)
    requires ValidConfig(c) && Inv(c, b, open) && Shaped(c, r) && v < c.vcs && b.inUse[v] && !b.tailSent[v]
    requires r.inUse == b.inUse[v := !tail || c.waitForTail] && r.tailSent == b.tailSent[v := tail]
    requires Counts(c.policy) ==>
               && r.active == (if tail then b.active - 1 else b.active)
               && r.held == (if tail then HeldFor(c, b.active - 1, b.held) else b.held)
    ensures Limits(c, r)
  {
    BusyUpdate(b.inUse, b.tailSent, v, !tail || c.waitForTail, tail);
    if Counts(c.policy) { SendLimits(c, b, open, v, tail); }
  }

  lemma SendUses(c: Config, b: Book, r: Book, v: nat, tail: bool)
    requires Shaped(c, b) && Shaped(c, r) && v < c.vcs && b.inUse[v]
    requires forall w :: 0 <= w < c.vcs ==> VcUsage(c, b, w)
    requires r.vcOccupancy == b.vcOccupancy[v := b.vcOccupancy[v] + 1]
    requires r.inUse == b.inUse[v := !tail || c.waitForTail] && r.tailSent == b.tailSent[v := tail]
    ensures forall w :: 0 <= w < c.vcs ==> VcUsage(c, r, w)
  {
    forall w | 0 <= w < c.vcs ensures VcUsage(c, r, w) {
      assert VcUsage(c, b, w);
    }
  }

  lemma SendReserves(c: Config, b: Book, open: set<nat>, r: Book, v: nat, tail: bool)
    requires Shaped(c, b) && Shaped(c, r) && v < c.vcs && Reserving(c, b, open) && b.vcOccupancy[v] >= 0
    requires r.vcOccupancy == b.vcOccupancy[v := b.vcOccupancy[v] + 1] && r.reserved == b.reserved[v := 0]
    requires forall w :: 0 <= w < c.vcs && w != v ==> r.inUse[w] == b.inUse[w] && r.tailSent[w] == b.tailSent[w]
    ensures Reserving(c, r, if tail then open - {v} else open + {v})
  {
    var open' := if tail then open - {v} else open + {v};
    forall w | 0 <= w < c.vcs ensures VcReserving(r, w, w in open') {
      assert VcReserving(b, w, w in open);
    }
  }

  lemma SendFits(c: Config, b: Book, open: set<nat>, b': Book, v: nat, tail: bool)
    requires ValidConfig(c) && Inv(c, b, open) && v < c.vcs && !OutOfSlots(c, b, v)
    requires b' == b.(occupancy := b.occupancy + 1, vcOccupancy := b.vcOccupancy[v := b.vcOccupancy[v] + 1])
    ensures b.occupancy + 1 <= c.size
  {
    SumUpdate(b.vcOccupancy, v, b.vcOccupancy[v] + 1);
    if c.policy.Private? {
      SumAtMost(b'.vcOccupancy, c.policy.vcSize);
    } else {
      assert VcReserving(b, v, v in open);
      SharedSendKeeps(c, b, b', v, tail);
      LedgerFits(c, SharedSend(c, b', v, tail).value);
    }
  }

  lemma SendLimits(c: Config, b: Book, open: set<nat>, v: nat, tail: bool)
    requires ValidConfig(c) && Inv(c, b, open) && v < c.vcs && b.inUse[v] && !b.tailSent[v] && Counts(c.policy)
    ensures b.active - 1 >= 0 && b.held > 0 && HeldFor(c, b.active - 1, b.held) > 0
  {
    BusyUpdate(b.inUse, b.tailSent, v, true, true);
    HeldPositive(c, b.active - 1, b.held);
  }

  /** A credit for a VC with flits outstanding raises no error. */
  lemma FreeResult(c: Config, b: Book, open: set<nat>, v: nat)
    requires ValidConfig(c) && Inv(c, b, open) && v < c.vcs && b.vcOccupancy[v] > 0
    ensures var r := FreeSlot(c, b, v);
      var freed := c.waitForTail && b.vcOccupancy[v] == 1 && b.tailSent[v];
      && r.Some?
      && r.value.occupancy == b.occupancy - 1
      && r.value.vcOccupancy == b.vcOccupancy[v := b.vcOccupancy[v] - 1]
      && r.value.inUse == b.inUse[v := b.inUse[v] && !freed]
      && r.value.tailSent == b.tailSent && r.value.active == b.active && r.value.held == b.held
      && (!c.policy.Private? ==>
            && Ledger(c, r.value)
            && r.value.reserved ==
                 b.reserved[v := b.reserved[v] + if b.inUse[v] && !freed && b.vcOccupancy[v] == 1 then 1 else 0])
  {
    assert VcUsage(c, b, v);
    Natural(c, b, open);
    SumAtLeast(b.vcOccupancy, v);
    var b1 := b.(occupancy := b.occupancy - 1, vcOccupancy := b.vcOccupancy[v := b.vcOccupancy[v] - 1]);
    var freed := c.waitForTail && b.vcOccupancy[v] == 1 && b.tailSent[v];
    var b' := if freed then b1.(inUse := b1.inUse[v := false]) else b1;
    assert b'.inUse == b.inUse[v := b.inUse[v] && !freed];
    if !c.policy.Private? {
      FreeBalances(c, b, open, b', v);
      assert b.reserved[v := b.reserved[v]] == b.reserved;
    }
  }

  /** ... and keeps the invariant. */
  lemma CreditKeeps(c: Config, b: Book, open: set<nat>, v: nat)
    requires ValidConfig(c) && Inv(c, b, open) && v < c.vcs && b.vcOccupancy[v] > 0
    ensures var r := FreeSlot(c, b, v);
      && r.Some? && Inv(c, r.value, open)
      && r.value.vcOccupancy == b.vcOccupancy[v := b.vcOccupancy[v] - 1]
      && r.value.tailSent == b.tailSent
      && (forall w :: 0 <= w < c.vcs ==>
          (r.value.inUse[w] ==> b.inUse[w]) && (b.inUse[w] && !b.tailSent[w] ==> r.value.inUse[w]))
  {
    FreeResult(c, b, open, v);
    var r := FreeSlot(c, b, v).value;
    SumUpdate(b.vcOccupancy, v, b.vcOccupancy[v] - 1);
    BusyUpdate(b.inUse, b.tailSent, v, r.inUse[v], b.tailSent[v]);
    assert b.tailSent[v := b.tailSent[v]] == b.tailSent;
    forall w | 0 <= w < c.vcs ensures VcUsage(c, r, w) {
      assert VcUsage(c, b, w);
    }
    if !c.policy.Private? {
      assert VcReserving(b, v, v in open);
      assert VcUsage(c, b, v);
      forall w | 0 <= w < c.vcs ensures VcReserving(r, w, w in open) {
        assert VcReserving(b, w, w in open);
      }
    }
  }

  /** The same for a whole credit, which names each VC at most once. */
  lemma {:induction false} CreditsKeep(c: Config, b: Book, open: set<nat>, credit: seq<nat>)
    requires ValidConfig(c) && Inv(c, b, open)
    requires forall i :: 0 <= i < |credit| ==> credit[i] < c.vcs && b.vcOccupancy[credit[i]] > 0
    requires forall i, j :: 0 <= i < j < |credit| ==> credit[i] != credit[j]
    ensures var r := ProcessCredit(c, b, credit);
      && r.Some? && Inv(c, r.value, open)
      && (forall w :: 0 <= w < c.vcs ==> r.value.vcOccupancy[w] == b.vcOccupancy[w] - (if w in credit then 1 else 0))
      && r.value.tailSent == b.tailSent
      && (forall w :: 0 <= w < c.vcs ==>
          (r.value.inUse[w] ==> b.inUse[w]) && (b.inUse[w] && !b.tailSent[w] ==> r.value.inUse[w]))
    decreases |credit|
  {
    if credit != [] {
      CreditKeeps(c, b, open, credit[0]);
      var r := FreeSlot(c, b, credit[0]).value;
      CreditsKeep(c, r, open, credit[1..]);
      assert forall w :: w in credit <==> w == credit[0] || w in credit[1..];
    }
  }

  lemma FreeBalances(c: Config, b: Book, open: set<nat>, b': Book, v: nat)
    requires ValidConfig(c) && Inv(c, b, open) && Shaped(c, b')
    requires !c.policy.Private? && v < c.vcs && b.vcOccupancy[v] > 0
    requires b'.vcOccupancy == b.vcOccupancy[v := b.vcOccupancy[v] - 1] && b'.reserved == b.reserved
    requires b'.privateOccupancy == b.privateOccupancy && b'.sharedOccupancy == b.sharedOccupancy
    ensures PolicyFree(c, b', v).Some? && Ledger(c, PolicyFree(c, b', v).value)
  {
    if b'.inUse[v] && b'.vcOccupancy[v] == 0 {
      assert Load(PolicyFree(c, b', v).value) == Load(b);
    } else {
      assert VcReserving(b, v, v in open);
      assert Load(b') == Load(b)[v := Load(b)[v] - 1];
      forall j | 0 <= j < c.vcs ensures b.vcOccupancy[j] >= 0 { assert VcUsage(c, b, j); }
      LedgerFree(c, b, b', v);
    }
  }
}
