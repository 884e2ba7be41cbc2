/** The per-bank request queue of the DDR controller, kept in first-ready first-come-first-served
    order at arrival time, with a limit on how many row hits may be served in a row. */
module BankQueueSpec {
  /** A queued request: its row, its number in its chain of row hits, and an arrival stamp. */
  datatype Req = Req(row: nat, hit: nat, id: nat)

  /** What insertion looks at in the bank itself. */
  datatype Bank = Bank(open: bool, openRow: nat, curRowHits: nat)

  /** The last queue position below `n` that holds a request to `row`, or -1. */
  function LastMatch(q: seq<Req>, row: nat, n: nat): (m: int)
    requires n <= |q|
    ensures -1 <= m < n
    ensures m >= 0 ==> q[m].row == row
    ensures forall i :: m < i < n ==> q[i].row != row
  {
    if n == 0 then -1 else if q[n - 1].row == row then n - 1 else LastMatch(q, row, n - 1)
  }

  function InsertAt(q: seq<Req>, p: nat, r: Req): (q': seq<Req>)
    requires p <= |q|
    ensures |q'| == |q| + 1
    ensures forall i :: 0 <= i < |q'| ==> q'[i] == if i < p then q[i] else if i == p then r else q[i - 1]
  {
    q[..p] + [r] + q[p..]
  }

  /** Where an arriving request to `row` goes, and its number in its chain. */
  function Slot(q: seq<Req>, b: Bank, limit: nat, row: nat): (s: (nat, nat))
    ensures s.0 <= |q|
  {
    var m := LastMatch(q, row, |q|);
    if m >= 0 then
      if q[m].hit < limit then (m + 1, q[m].hit + 1) else (|q|, 0)
    else if b.open && row == b.openRow && b.curRowHits < limit && q == [] then (0, b.curRowHits + 1)
    else (|q|, 0)
  }

  function Enqueue(q: seq<Req>, b: Bank, limit: nat, row: nat, id: nat): (q': seq<Req>)
  {
    var (p, hit) := Slot(q, b, limit, row);
    InsertAt(q, p, Req(row, hit, id))
  }

  // ---------------------------------------------------------------- what every queue keeps

  /** Hit numbers respect the limit, a request with a positive number directly follows its
      predecessor in the chain (the front may have lost its own), and requests to one row stay
      in arrival order. */
  ghost predicate Ordered(q: seq<Req>, limit: nat) {
    && (forall i :: 0 <= i < |q| ==> q[i].hit <= limit)
    && InChains(q) && InArrivalOrder(q) && FullBeforeBreak(q, limit)
  }

  /** A chain is broken off only at the limit: a request that starts a new chain although one to
      its row is queued ahead of it does so because that one's number is the limit. */
  ghost predicate FullBeforeBreak(q: seq<Req>, limit: nat) {
    forall i, j :: 0 <= i < j < |q| && NextOfRow(q, i, j) && q[j].hit == 0 ==> q[i].hit == limit
  }

  /** Request j is the next one after i to i's row. */
  predicate NextOfRow(q: seq<Req>, i: nat, j: nat)
    requires i < j < |q|
  {
    q[i].row == q[j].row && forall k | i < k < j :: q[k].row != q[j].row
  }

  ghost predicate InArrivalOrder(q: seq<Req>) {
    forall i, j :: 0 <= i < j < |q| && q[i].row == q[j].row ==> q[i].id < q[j].id
  }

  lemma InsertInOrder(q: seq<Req>, p: nat, r: Req)
    requires InArrivalOrder(q) && p <= |q|
    requires forall i :: 0 <= i < |q| ==> q[i].id < r.id
    requires forall i :: p <= i < |q| ==> q[i].row != r.row
    ensures InArrivalOrder(InsertAt(q, p, r))
  {
  }

  /** The slot respects the limit, continues its predecessor's chain, splits no chain, and has
      no request to the same row behind it. */
  lemma EnqueueFits(q: seq<Req>, b: Bank, limit: nat, row: nat)
    requires Ordered(q, limit)
    ensures var (p, hit) := Slot(q, b, limit, row);
      && hit <= limit
      && (p > 0 && hit > 0 ==> q[p - 1].row == row && q[p - 1].hit == hit - 1)
      && (p < |q| ==> q[p].hit == 0)
      && forall i :: p <= i < |q| ==> q[i].row != row
  {
    var m := LastMatch(q, row, |q|);
    if m >= 0 && m + 1 < |q| {
      assert q[m + 1].row != row;
    }
  }

  lemma EnqueueOrdered(q: seq<Req>, b: Bank, limit: nat, row: nat, id: nat)
    requires Ordered(q, limit) && forall i :: 0 <= i < |q| ==> q[i].id < id
    ensures Ordered(Enqueue(q, b, limit, row, id), limit)
  {
    var (p, hit) := Slot(q, b, limit, row);
    EnqueueFits(q, b, limit, row);
    InsertInOrder(q, p, Req(row, hit, id));
    InsertInChains(q, p, Req(row, hit, id));
    InsertBreaks(q, p, Req(row, hit, id), limit);
  }

  /** Exactly when an arriving request counts as a row hit, and is served ahead of its turn: the
      last request to its row still has room in its chain, which it then joins at the end; or the
      queue is empty and the bank's open row is its row and has room, which it then continues. */
  lemma HitIff(q: seq<Req>, b: Bank, limit: nat, row: nat)
    ensures var (p, hit) := Slot(q, b, limit, row);
      if exists i :: 0 <= i < |q| && q[i].row == row then
        exists i :: 0 <= i < |q| && q[i].row == row && (forall k :: i < k < |q| ==> q[k].row != row) &&
          if q[i].hit < limit then p == i + 1 && hit == q[i].hit + 1 else p == |q| && hit == 0
      else
        p == |q| && hit == if q == [] && b.open && b.openRow == row && b.curRowHits < limit then b.curRowHits + 1 else 0
  {
    var m := LastMatch(q, row, |q|);
    if m >= 0 { assert q[m].row == row && forall k :: m < k < |q| ==> q[k].row != row; }
  }

  /** Request i is the last one to the row before position p. */
  predicate LastOfRow(q: seq<Req>, i: nat, p: nat, row: nat)
    requires i < p <= |q|
  {
    q[i].row == row && forall k | i < k < p :: q[k].row != row
  }

  /** Inserting a request that joins its chain, or that starts a new one behind a full chain or
      none, breaks no other chain. */
  lemma InsertBreaks(q: seq<Req>, p: nat, r: Req, limit: nat)
    requires FullBeforeBreak(q, limit) && p <= |q|
    requires forall i :: p <= i < |q| ==> q[i].row != r.row
    requires r.hit == 0 ==> forall i :: 0 <= i < p && LastOfRow(q, i, p, r.row) ==> q[i].hit == limit
    ensures FullBeforeBreak(InsertAt(q, p, r), limit)
  {
    var q' := InsertAt(q, p, r);
    forall i, j | 0 <= i < j < |q'| && NextOfRow(q', i, j) && q'[j].hit == 0
      ensures q'[i].hit == limit
    {
      NextInserted(q, p, r, i, j);
    }
  }

  /** Where an old request stands after the insertion, and back. */
  function Moved(p: nat, k: nat): nat { if k < p then k else k + 1 }

  function MovedBack(p: nat, k: nat): nat
    requires k != p
  {
    if k < p then k else k - 1
  }

  lemma StandsAt(q: seq<Req>, p: nat, r: Req, k: nat)
    requires p <= |q| && k < |q|
    ensures InsertAt(q, p, r)[Moved(p, k)] == q[k]
  {
  }

  /** Neighbours of one row, neither of them new, were neighbours before; and the one before the new
      request was the last of its row in front. */
  lemma NextInserted(q: seq<Req>, p: nat, r: Req, i: nat, j: nat)
    requires p <= |q| && i < j <= |q| && NextOfRow(InsertAt(q, p, r), i, j)
    requires forall m :: p <= m < |q| ==> q[m].row != r.row
    ensures i != p
    ensures j == p ==> LastOfRow(q, i, p, r.row)
    ensures j != p ==>
      NextOfRow(q, MovedBack(p, i), MovedBack(p, j)) &&
      q[MovedBack(p, i)] == InsertAt(q, p, r)[i] && q[MovedBack(p, j)] == InsertAt(q, p, r)[j]
  {
    var q' := InsertAt(q, p, r);
    assert i != p by { StandsAt(q, p, r, j - 1); }
    StandsAt(q, p, r, MovedBack(p, i));
    forall k | MovedBack(p, i) < k < |q| && Moved(p, k) < j
      ensures q[k].row != q'[i].row
    {
      StandsAt(q, p, r, k);
    }
    if j != p { StandsAt(q, p, r, MovedBack(p, j)); }
  }

  predicate InChains(q: seq<Req>) {
    forall i :: 0 < i < |q| && q[i].hit > 0 ==> q[i - 1].row == q[i].row && q[i - 1].hit == q[i].hit - 1
  }

  /** Inserting behind its predecessor and between two chains keeps the chains. */
  lemma InsertInChains(q: seq<Req>, p: nat, r: Req)
    requires InChains(q) && p <= |q|
    requires p > 0 && r.hit > 0 ==> q[p - 1].row == r.row && q[p - 1].hit == r.hit - 1
    requires p < |q| ==> q[p].hit == 0
    ensures InChains(InsertAt(q, p, r))
  {
    var q' := InsertAt(q, p, r);
    forall i | 0 < i < |q'| && q'[i].hit > 0
      ensures q'[i - 1].row == q'[i].row && q'[i - 1].hit == q'[i].hit - 1
    {
      if i > p + 1 { assert q'[i] == q[i - 1] && q'[i - 1] == q[i - 2]; }
    }
  }

  lemma PopOrdered(q: seq<Req>, limit: nat)
    requires Ordered(q, limit) && q != []
    ensures Ordered(q[1..], limit)
  {
    var t := q[1..];
    assert forall i :: 0 <= i < |t| ==> t[i] == q[i + 1];
    forall i, j | 0 <= i < j < |t| && NextOfRow(t, i, j) && t[j].hit == 0
      ensures t[i].hit == limit
    {
      assert forall k :: i + 1 < k < j + 1 ==> q[k] == t[k - 1];
      assert NextOfRow(q, i + 1, j + 1);
    }
  }

  // ---------------------------------------------------------------- bounded overtaking

  /** How many more requests can still be inserted ahead of position `k`: the unused row hits
      of the chains that end before it. */
  function Room(q: seq<Req>, limit: nat, k: nat): (n: nat)
    requires k < |q|
  {
    if k == 0 then 0
    else Room(q, limit, k - 1) + if q[k].hit == 0 && q[k - 1].hit <= limit then limit - q[k - 1].hit else 0
  }

  /** The number of chains that end before position `k`. */
  function Chains(q: seq<Req>, k: nat): (n: nat)
    requires k < |q|
    ensures n <= k
  {
    if k == 0 then 0 else Chains(q, k - 1) + if q[k].hit == 0 then 1 else 0
  }

  lemma {:induction false} RoomBound(q: seq<Req>, limit: nat, k: nat)
    requires k < |q|
    ensures Room(q, limit, k) <= Chains(q, k) * limit
  {
    if k > 0 {
      RoomBound(q, limit, k - 1);
      assert (Chains(q, k - 1) + 1) * limit == Chains(q, k - 1) * limit + limit;
    }
  }

  lemma {:induction false} RoomSame(a: seq<Req>, b: seq<Req>, limit: nat, k: nat)
    requires k < |a| && k < |b| && forall i :: 0 <= i <= k ==> a[i] == b[i]
    ensures Room(a, limit, k) == Room(b, limit, k)
  {
    if k > 0 { RoomSame(a, b, limit, k - 1); }
  }

  /** Inserting at `p`, in front of position `k`, uses up exactly one unit of room. */
  lemma {:induction false} InsertUsesRoom(q: seq<Req>, limit: nat, p: nat, r: Req, k: nat)
    requires 0 < p <= k < |q|
    requires q[p].hit == 0 && q[p - 1].hit < limit && r.hit == q[p - 1].hit + 1
    ensures Room(InsertAt(q, p, r), limit, k + 1) + 1 == Room(q, limit, k)
    decreases k
  {
    var q' := InsertAt(q, p, r);
    if k == p {
      RoomSame(q, q', limit, p - 1);
      assert Room(q', limit, p) == Room(q', limit, p - 1);
      assert Room(q', limit, p + 1) == Room(q', limit, p) + (limit - r.hit);
    } else {
      InsertUsesRoom(q, limit, p, r, k - 1);
    }
  }

  /** One arrival: either it stays behind the request at `k`, or it overtakes it and the room
      ahead of that request shrinks by one. */
  lemma EnqueueRoom(q: seq<Req>, b: Bank, limit: nat, row: nat, id: nat, k: nat)
    requires Ordered(q, limit) && k < |q|
    ensures var p := Slot(q, b, limit, row).0;
      var q' := Enqueue(q, b, limit, row, id);
      if p <= k then q'[k + 1] == q[k] && Room(q', limit, k + 1) + 1 == Room(q, limit, k)
      else q'[k] == q[k] && Room(q', limit, k) == Room(q, limit, k)
  {
    var (p, hit) := Slot(q, b, limit, row);
    var q' := Enqueue(q, b, limit, row, id);
    if p <= k {
      assert q[p].hit == 0;
      InsertUsesRoom(q, limit, p, Req(row, hit, id), k);
    } else {
      RoomSame(q, q', limit, k);
    }
  }

  /** Serving the front never makes room for more overtaking. */
  lemma {:induction false} PopRoom(q: seq<Req>, limit: nat, k: nat)
    requires 0 < k < |q|
    ensures Room(q[1..], limit, k - 1) <= Room(q, limit, k)
  {
    if k > 1 { PopRoom(q, limit, k - 1); }
  }

  // ---------------------------------------------------------------- whole runs

  datatype Event = Arrive(row: nat, bank: Bank) | Pop

  /** The queue during a run, the watched request's position, the arrivals that overtook it,
      and the next arrival stamp. */
  datatype Watch = Watch(q: seq<Req>, k: nat, passed: nat, next: nat)

  ghost predicate WatchOk(w: Watch, limit: nat) {
    w.k < |w.q| && Ordered(w.q, limit) && forall i :: 0 <= i < |w.q| ==> w.q[i].id < w.next
  }

  /** One event. Popping is watched only until the request itself is served. */
  function Observe(w: Watch, limit: nat, e: Event): (w': Watch)
    requires w.k < |w.q|
    ensures w'.k < |w'.q|
  {
    match e
    case Arrive(row, b) =>
      var ahead := Slot(w.q, b, limit, row).0 <= w.k;
      Watch(Enqueue(w.q, b, limit, row, w.next), if ahead then w.k + 1 else w.k,
            if ahead then w.passed + 1 else w.passed, w.next + 1)
    case Pop => if w.k == 0 then w else Watch(w.q[1..], w.k - 1, w.passed, w.next)
  }

  function ObserveAll(w: Watch, limit: nat, es: seq<Event>): (w': Watch)
    requires w.k < |w.q|
    ensures w'.k < |w'.q|
    decreases |es|
  {
    if es == [] then w else Observe(ObserveAll(w, limit, es[..|es| - 1]), limit, es[|es| - 1])
  }

  lemma ObserveOk(w: Watch, limit: nat, e: Event)
    requires WatchOk(w, limit)
    ensures var w' := Observe(w, limit, e);
      && WatchOk(w', limit) && w'.q[w'.k] == w.q[w.k]
      && w'.passed + Room(w'.q, limit, w'.k) <= w.passed + Room(w.q, limit, w.k)
  {
    match e
    case Arrive(row, b) =>
      ArriveOk(w, limit, row, b);
    case Pop =>
      if w.k > 0 {
        PopOrdered(w.q, limit);
        PopRoom(w.q, limit, w.k);
      }
  }

  lemma ArriveOk(w: Watch, limit: nat, row: nat, b: Bank)
    requires WatchOk(w, limit)
    ensures var w' := Observe(w, limit, Arrive(row, b));
      && WatchOk(w', limit) && w'.q[w'.k] == w.q[w.k]
      && w'.passed + Room(w'.q, limit, w'.k) == w.passed + Room(w.q, limit, w.k)
  {
    ArriveKeepsQueue(w, limit, row, b);
    ArriveKeepsRoom(w, limit, row, b);
  }

  lemma ArriveKeepsQueue(w: Watch, limit: nat, row: nat, b: Bank)
    requires WatchOk(w, limit)
    ensures WatchOk(Observe(w, limit, Arrive(row, b)), limit)
  {
    EnqueueOrdered(w.q, b, limit, row, w.next);
    StampsBelow(w.q, b, limit, row, w.next);
  }

  lemma ArriveKeepsRoom(w: Watch, limit: nat, row: nat, b: Bank)
    requires w.k < |w.q| && Ordered(w.q, limit)
    ensures var w' := Observe(w, limit, Arrive(row, b));
      && w'.q[w'.k] == w.q[w.k]
      && w'.passed + Room(w'.q, limit, w'.k) == w.passed + Room(w.q, limit, w.k)
  {
    var ahead := Slot(w.q, b, limit, row).0 <= w.k;
    EnqueueRoom(w.q, b, limit, row, w.next, w.k);
    assert Observe(w, limit, Arrive(row, b)).k == if ahead then w.k + 1 else w.k;
  }

  lemma StampsBelow(q: seq<Req>, b: Bank, limit: nat, row: nat, id: nat)
    requires forall i :: 0 <= i < |q| ==> q[i].id < id
    ensures var q' := Enqueue(q, b, limit, row, id); forall i :: 0 <= i < |q'| ==> q'[i].id < id + 1
  {
  }

  /** Starvation freedom: over any run of arrivals and services, the request first seen at
      position `k` is overtaken at most (chains ahead of it) x limit times, and the queue keeps
      its order throughout. */
  lemma {:induction false} OvertakingBounded(q: seq<Req>, limit: nat, k: nat, next: nat, es: seq<Event>)
    requires k < |q| && Ordered(q, limit) && forall i :: 0 <= i < |q| ==> q[i].id < next
    ensures var w := ObserveAll(Watch(q, k, 0, next), limit, es);
      && WatchOk(w, limit) && w.q[w.k] == q[k]
      && w.passed + Room(w.q, limit, w.k) <= Room(q, limit, k)
      && w.passed <= Chains(q, k) * limit
    decreases |es|
  {
    RoomBound(q, limit, k);
    if es != [] {
      OvertakingBounded(q, limit, k, next, es[..|es| - 1]);
      ObserveOk(ObserveAll(Watch(q, k, 0, next), limit, es[..|es| - 1]), limit, es[|es| - 1]);
    }
  }
}

module BankQueueModel {
  import opened BankQueueSpec

  /** Queues an arriving request in service order: scan from the back for the same row. */
  method Place(q: seq<Req>, b: Bank, rowHitLimit: nat, row: nat, id: nat) returns (q': seq<Req>)
    ensures q' == Enqueue(q, b, rowHitLimit, row, id)
  {
    var m: int := |q| - 1;
    while m >= 0 && q[m].row != row
      invariant -1 <= m < |q|
      invariant LastMatch(q, row, m + 1) == LastMatch(q, row, |q|)
      decreases m
    {
      m := m - 1;
    }
    if m >= 0 {
      if q[m].hit < rowHitLimit {
        q' := q[..m + 1] + [Req(row, q[m].hit + 1, id)] + q[m + 1..];
      } else {
        q' := q + [Req(row, 0, id)];
      }
    } else if b.open && row == b.openRow && b.curRowHits < rowHitLimit && q == [] {
      q' := [Req(row, b.curRowHits + 1, id)] + q;
    } else {
      q' := q + [Req(row, 0, id)];
    }
  }

  /** One bank's queue as the controller keeps it. */
  class BankQueue {
    var q: seq<Req>
    const rowHitLimit: nat

    constructor (limit: nat)
      ensures q == [] && rowHitLimit == limit && Ordered(q, limit)
    {
      q := [];
      rowHitLimit := limit;
    }

    /** Queues an arriving request. */
    method Queue(b: Bank, row: nat, id: nat)
      modifies this
      ensures q == Enqueue(old(q), b, rowHitLimit, row, id)
      ensures Ordered(old(q), rowHitLimit) && (forall i :: 0 <= i < |old(q)| ==> old(q)[i].id < id) ==>
          Ordered(q, rowHitLimit)
    {
      ghost var q0 := q;
      q := Place(q, b, rowHitLimit, row, id);
      if Ordered(q0, rowHitLimit) && forall i :: 0 <= i < |q0| ==> q0[i].id < id {
        EnqueueOrdered(q0, b, rowHitLimit, row, id);
      }
    }

    /** Takes the front request off. */
    method PopFront() returns (r: Req)
      requires q != []
      modifies this
      ensures old(q) == [r] + q
      ensures Ordered(old(q), rowHitLimit) ==> Ordered(q, rowHitLimit)
    {
      r := q[0];
      if Ordered(q, rowHitLimit) { PopOrdered(q, rowHitLimit); }
      q := q[1..];
    }
  }
}
