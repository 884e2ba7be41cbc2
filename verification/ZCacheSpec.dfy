/** The zcache as a mathematical object: what the tag array and the position table mean
    together, which walk the replacement takes, and why rotating line ids along the chosen
    path leaves a plain map from address to line id. The class in ZArray.dfy is proved
    equal to the functions here. */
module ZCacheSpec {
  import opened Option
  import opened Arith

  /** The fixed shape of one array. `hash` stands for the whole hash family; since the number
      of sets is a power of two, masking with `sets - 1` is the remainder modulo `sets`. */
  datatype Geometry = Geometry(ways: nat, sets: nat, cands: nat, hash: (nat, nat) -> nat) {
    ghost predicate Valid() { ways > 1 && sets > 0 && cands >= ways }

    /** The first position of way `w`, that is `w * sets`. */
    function Base(w: nat): nat {
      if w == 0 then 0 else Base(w - 1) + sets
    }

    function Lines(): nat { Base(ways) }

    function Slot(w: nat, a: nat): (s: nat)
      requires sets > 0
      ensures s < sets
    {
      Remainder(hash(w, a), sets)
    }

    function Pos(w: nat, a: nat): nat
      requires sets > 0
    {
      Base(w) + Slot(w, a)
    }

    /** The number of candidates after `f` complete expansions, `ways + f * (ways - 1)`. */
    function Grown(f: nat): (n: nat)
      requires ways > 1
      ensures n >= ways + f
    {
      if f == 0 then ways else Grown(f - 1) + (ways - 1)
    }
  }

  lemma {:induction false} BaseIsProduct(g: Geometry, w: nat)
    ensures g.Base(w) == w * g.sets
  {
    if w > 0 { BaseIsProduct(g, w - 1); }
  }

  lemma {:induction false} GrownIsProduct(g: Geometry, f: nat)
    requires g.ways > 1
    ensures g.Grown(f) == g.ways + f * (g.ways - 1)
  {
    if f > 0 { GrownIsProduct(g, f - 1); }
  }

  lemma {:induction false} BaseMonotone(g: Geometry, v: nat, w: nat)
    requires v < w
    ensures g.Base(v) + g.sets <= g.Base(w)
  {
    if v + 1 < w { BaseMonotone(g, v, w - 1); }
  }

  /** `addr` maps a line id to the address it caches (0 when empty), `look` maps a physical
      position to the line id stored there. */
  datatype ZState = ZState(addr: seq<nat>, look: seq<nat>)

  lemma PosInRange(g: Geometry, w: nat, a: nat)
    requires g.Valid() && w < g.ways
    ensures g.Pos(w, a) < g.Lines()
  {
    BaseMonotone(g, w, g.ways);
  }

  /** Different ways own different stretches of positions. */
  lemma PosInjective(g: Geometry, v: nat, w: nat, a: nat, b: nat)
    requires g.Valid() && v != w
    ensures g.Pos(v, a) != g.Pos(w, b)
  {
    if v < w { BaseMonotone(g, v, w); } else { BaseMonotone(g, w, v); }
  }

  ghost predicate Permutation(look: seq<nat>) {
    && (forall p :: 0 <= p < |look| ==> look[p] < |look|)
    && (forall p, q :: 0 <= p < q < |look| ==> look[p] != look[q])
    && (forall id :: 0 <= id < |look| ==> id in look)
  }

  /** Position `p` is one of the places the hash functions allow for address `a`. */
  ghost predicate Home(g: Geometry, p: nat, a: nat)
    requires g.Valid()
  {
    exists w: nat :: w < g.ways && p == g.Pos(w, a)
  }

  ghost predicate Shape(g: Geometry, z: ZState) {
    && g.Valid()
    && |z.addr| == |z.look| == g.Lines()
    && Permutation(z.look)
  }

  ghost predicate Unique(addr: seq<nat>) {
    forall i, j :: 0 <= i < j < |addr| && addr[i] != 0 ==> addr[i] != addr[j]
  }

  ghost predicate Inv(g: Geometry, z: ZState) {
    && Shape(g, z)
    && Unique(z.addr)
    && forall p :: 0 <= p < |z.look| && z.addr[z.look[p]] != 0 ==> Home(g, p, z.addr[z.look[p]])
  }

  // ---------------------------------------------------------------- lookup

  /** What the lookup loop returns when it starts at way `w`. */
  function FindFrom(g: Geometry, z: ZState, a: nat, w: nat): (r: Option<nat>)
    requires Shape(g, z) && w <= g.ways
    ensures r.Some? ==> r.value < g.Lines() && z.addr[r.value] == a
    decreases g.ways - w
  {
    if w == g.ways then None
    else
      PosInRange(g, w, a);
      var id := z.look[g.Pos(w, a)];
      if z.addr[id] == a then Some(id) else FindFrom(g, z, a, w + 1)
  }

  function Find(g: Geometry, z: ZState, a: nat): Option<nat>
    requires Shape(g, z)
  {
    FindFrom(g, z, a, 0)
  }

  lemma FindFromHits(g: Geometry, z: ZState, a: nat, w: nat, v: nat)
    requires Inv(g, z) && a != 0 && w <= v < g.ways
    requires g.Pos(v, a) < g.Lines() && z.addr[z.look[g.Pos(v, a)]] == a
    ensures FindFrom(g, z, a, w).Some?
    decreases v - w
  {
    if w < v { FindFromHits(g, z, a, w + 1, v); }
  }

  /** Lookup is exact: it returns a line id if and only if that line caches the address,
      although it only probes the address's own hash positions. */
  lemma FindIff(g: Geometry, z: ZState, a: nat, id: nat)
    requires Inv(g, z) && a != 0 && id < g.Lines()
    ensures Find(g, z, a) == Some(id) <==> z.addr[id] == a
  {
    if z.addr[id] == a {
      assert id in z.look;
      var p :| 0 <= p < |z.look| && z.look[p] == id;
      assert Home(g, p, a);
      var w: nat :| w < g.ways && p == g.Pos(w, a);
      FindFromHits(g, z, a, 0, w);
    }
  }

  lemma FindNone(g: Geometry, z: ZState, a: nat)
    requires Inv(g, z) && a != 0
    ensures Find(g, z, a) == None <==> a !in z.addr
  {
    if a in z.addr {
      var id :| 0 <= id < |z.addr| && z.addr[id] == a;
      FindIff(g, z, a, id);
    }
  }

  // ---------------------------------------------------------------- the candidate walk

  /** One entry of the breadth-first walk; `parent` is -1 for a seed. */
  datatype Walk = Walk(pos: nat, id: nat, parent: int)

  function Entry(g: Geometry, z: ZState, a: nat, w: nat, parent: int): (e: Walk)
    requires Shape(g, z) && w < g.ways
    ensures e.pos < g.Lines() && e.id == z.look[e.pos] && e.pos == g.Pos(w, a)
  {
    PosInRange(g, w, a);
    Walk(g.Pos(w, a), z.look[g.Pos(w, a)], parent)
  }

  function Seeds(g: Geometry, z: ZState, a: nat, n: nat): (c: seq<Walk>)
    requires Shape(g, z) && n <= g.ways
    ensures |c| == n
  {
    if n == 0 then [] else Seeds(g, z, a, n - 1) + [Entry(g, z, a, n - 1, -1)]
  }

  /** The candidates that the first `n` ways of the line at walk index `f` add; the way the
      line already sits in is dropped. */
  function Children(g: Geometry, z: ZState, id: nat, f: nat, n: nat): (c: seq<Walk>)
    requires Shape(g, z) && id < g.Lines() && n <= g.ways
  {
    if n == 0 then []
    else
      var e := Entry(g, z, z.addr[id], n - 1, f);
      var rest := Children(g, z, id, f, n - 1);
      if e.id != id then rest + [e] else rest
  }

  ghost predicate ChildOf(g: Geometry, z: ZState, id: nat, f: nat, e: Walk)
    requires Shape(g, z) && id < g.Lines()
  {
    && e.pos < g.Lines() && e.id == z.look[e.pos] && e.parent == f && e.id != id
    && Home(g, e.pos, z.addr[id])
  }

  lemma {:induction false} ChildrenSound(g: Geometry, z: ZState, id: nat, f: nat, n: nat)
    requires Shape(g, z) && id < g.Lines() && n <= g.ways
    ensures forall e :: e in Children(g, z, id, f, n) ==> ChildOf(g, z, id, f, e)
  {
    if n > 0 {
      ChildrenSound(g, z, id, f, n - 1);
      var e := Entry(g, z, z.addr[id], n - 1, f);
      assert e.id != id ==> ChildOf(g, z, id, f, e);
    }
  }

  lemma {:induction false} ChildrenComplete(g: Geometry, z: ZState, id: nat, f: nat, n: nat, w: nat)
    requires Shape(g, z) && id < g.Lines() && w < n <= g.ways
    requires Entry(g, z, z.addr[id], w, f).id != id
    ensures Entry(g, z, z.addr[id], w, f) in Children(g, z, id, f, n)
  {
    if w < n - 1 {
      ChildrenComplete(g, z, id, f, n - 1, w);
    }
  }

  /** Expanding a valid line adds exactly `ways - 1` candidates: among its hash positions
      exactly one holds the line itself. */
  lemma {:induction false} ChildrenCount(g: Geometry, z: ZState, id: nat, f: nat, n: nat, own: nat)
    requires Shape(g, z) && id < g.Lines() && n <= g.ways
    requires own < g.ways && g.Pos(own, z.addr[id]) < g.Lines() && z.look[g.Pos(own, z.addr[id])] == id
    ensures |Children(g, z, id, f, n)| == if own < n then n - 1 else n
  {
    if n > 0 {
      ChildrenCount(g, z, id, f, n - 1, own);
      var e := Entry(g, z, z.addr[id], n - 1, f);
      if n - 1 != own {
        PosInjective(g, n - 1, own, z.addr[id], z.addr[id]);
        assert e.id != id;
      }
      assert Children(g, z, id, f, n) ==
        if e.id != id then Children(g, z, id, f, n - 1) + [e] else Children(g, z, id, f, n - 1);
    }
  }

  lemma OwnWay(g: Geometry, z: ZState, id: nat) returns (own: nat)
    requires Inv(g, z) && id < g.Lines() && z.addr[id] != 0
    ensures own < g.ways && g.Pos(own, z.addr[id]) < g.Lines() && z.look[g.Pos(own, z.addr[id])] == id
  {
    assert id in z.look;
    var p :| 0 <= p < |z.look| && z.look[p] == id;
    assert Home(g, p, z.addr[id]);
    own :| own < g.ways && p == g.Pos(own, z.addr[id]);
  }

  lemma ExpansionAdds(g: Geometry, z: ZState, id: nat, f: nat)
    requires Inv(g, z) && id < g.Lines() && z.addr[id] != 0
    ensures |Children(g, z, id, f, g.ways)| == g.ways - 1
  {
    var own := OwnWay(g, z, id);
    ChildrenCount(g, z, id, f, g.ways, own);
  }

  predicate AllValid(z: ZState, c: seq<Walk>) {
    forall i :: 0 <= i < |c| && c[i].id < |z.addr| ==> z.addr[c[i].id] != 0
  }

  lemma AllValidAppend(z: ZState, c: seq<Walk>, e: Walk)
    requires e.id < |z.addr|
    ensures AllValid(z, c + [e]) <==> AllValid(z, c) && z.addr[e.id] != 0
  {
    assert forall i :: 0 <= i < |c| ==> (c + [e])[i] == c[i];
    assert (c + [e])[|c|] == e;
  }

  ghost predicate EntriesOk(g: Geometry, z: ZState, c: seq<Walk>)
    requires Shape(g, z)
  {
    forall i :: 0 <= i < |c| ==> c[i].pos < g.Lines() && c[i].id == z.look[c[i].pos]
  }

  ghost predicate ParentOk(g: Geometry, z: ZState, c: seq<Walk>, i: nat)
    requires Shape(g, z) && EntriesOk(g, z, c) && i < |c|
  {
    var p := c[i].parent;
    && 0 <= p && p + g.ways <= i
    && c[i].id != c[p].id
    && z.addr[c[p].id] != 0
    && Home(g, c[i].pos, z.addr[c[p].id])
  }

  ghost predicate ParentsOk(g: Geometry, z: ZState, c: seq<Walk>, f: nat)
    requires Shape(g, z) && EntriesOk(g, z, c)
  {
    forall i :: g.ways <= i < |c| ==> ParentOk(g, z, c, i) && c[i].parent < f
  }

  /** Parents are visited in order. */
  ghost predicate Monotone(c: seq<Walk>) {
    forall i, j :: 0 <= i < j < |c| ==> c[i].parent <= c[j].parent
  }

  /** Every other position of the line at index `p` is among the candidates, as its child. */
  ghost predicate Expanded(g: Geometry, z: ZState, c: seq<Walk>, p: nat)
    requires Shape(g, z) && EntriesOk(g, z, c) && p < |c|
  {
    forall w: nat :: w < g.ways ==>
      (var e := Entry(g, z, z.addr[c[p].id], w, p); e.id != c[p].id ==> e in c)
  }

  /** Everything the walk over address `a` has established once its first `f` entries have
      been expanded. */
  ghost predicate WalkInv(g: Geometry, z: ZState, a: nat, c: seq<Walk>, f: nat) {
    && Shape(g, z)
    && EntriesOk(g, z, c)
    && f < |c| && |c| == g.Grown(f)
    && (forall i :: 0 <= i < g.ways ==> c[i].parent == -1 && Home(g, c[i].pos, a))
    && ParentsOk(g, z, c, f)
    && Monotone(c)
    && forall p :: 0 <= p < f ==> Expanded(g, z, c, p)
  }

  lemma {:induction false} SeedsAt(g: Geometry, z: ZState, a: nat, n: nat)
    requires Shape(g, z) && n <= g.ways
    ensures forall w :: 0 <= w < n ==> Seeds(g, z, a, n)[w] == Entry(g, z, a, w, -1)
  {
    if n > 0 { SeedsAt(g, z, a, n - 1); }
  }

  lemma SeedsInv(g: Geometry, z: ZState, a: nat)
    requires Inv(g, z)
    ensures WalkInv(g, z, a, Seeds(g, z, a, g.ways), 0)
  {
    SeedsAt(g, z, a, g.ways);
  }

  lemma AppendParents(g: Geometry, z: ZState, c: seq<Walk>, f: nat, kids: seq<Walk>)
    requires Shape(g, z) && EntriesOk(g, z, c) && EntriesOk(g, z, kids)
    requires f < |c| && f + g.ways <= |c| && z.addr[c[f].id] != 0
    requires ParentsOk(g, z, c, f) && Monotone(c) && forall i :: 0 <= i < g.ways ==> c[i].parent == -1
    requires forall e :: e in kids ==> ChildOf(g, z, c[f].id, f, e)
    ensures EntriesOk(g, z, c + kids) && ParentsOk(g, z, c + kids, f + 1) && Monotone(c + kids)
  {
    var d := c + kids;
    assert EntriesOk(g, z, d);
    forall i | g.ways <= i < |d|
      ensures ParentOk(g, z, d, i) && d[i].parent < f + 1
    {
      if i < |c| {
        assert ParentOk(g, z, c, i);
      } else {
        assert d[i] == kids[i - |c|] && d[i] in kids;
      }
    }
    forall i, j | 0 <= i < j < |d|
      ensures d[i].parent <= d[j].parent
    {
      if j >= |c| {
        assert d[j] == kids[j - |c|] && d[j] in kids;
        if i >= |c| { assert d[i] == kids[i - |c|] && d[i] in kids; }
      }
    }
  }

  lemma KidsFacts(g: Geometry, z: ZState, id: nat, f: nat)
    requires Shape(g, z) && id < g.Lines()
    ensures var kids := Children(g, z, id, f, g.ways);
      && (forall e :: e in kids ==> ChildOf(g, z, id, f, e))
      && EntriesOk(g, z, kids)
      && (forall w: nat :: w < g.ways ==> (var e := Entry(g, z, z.addr[id], w, f); e.id != id ==> e in kids))
  {
    ChildrenSound(g, z, id, f, g.ways);
    forall w: nat | w < g.ways && Entry(g, z, z.addr[id], w, f).id != id
      ensures Entry(g, z, z.addr[id], w, f) in Children(g, z, id, f, g.ways)
    {
      ChildrenComplete(g, z, id, f, g.ways, w);
    }
    var kids := Children(g, z, id, f, g.ways);
    assert forall i :: 0 <= i < |kids| ==> kids[i] in kids;
  }

  lemma AppendExpanded(g: Geometry, z: ZState, c: seq<Walk>, f: nat, kids: seq<Walk>, p: nat)
    requires Shape(g, z) && EntriesOk(g, z, c) && EntriesOk(g, z, c + kids) && p <= f < |c|
    requires p < f ==> Expanded(g, z, c, p)
    requires forall w: nat :: w < g.ways ==>
      (var e := Entry(g, z, z.addr[c[f].id], w, f); e.id != c[f].id ==> e in kids)
    ensures Expanded(g, z, c + kids, p)
  {
    assert (c + kids)[p] == c[p];
  }

  /** One expansion keeps the walk invariant, and with it the exact candidate count that
      makes the walk terminate. */
  lemma ExpandInv(g: Geometry, z: ZState, a: nat, c: seq<Walk>, f: nat)
    requires Inv(g, z) && WalkInv(g, z, a, c, f) && z.addr[c[f].id] != 0
    ensures WalkInv(g, z, a, c + Children(g, z, c[f].id, f, g.ways), f + 1)
    ensures |Children(g, z, c[f].id, f, g.ways)| == g.ways - 1
  {
    var kids := Children(g, z, c[f].id, f, g.ways);
    ExpansionAdds(g, z, c[f].id, f);
    KidsFacts(g, z, c[f].id, f);
    AppendParents(g, z, c, f, kids);
    assert |c + kids| == g.Grown(f + 1);
    forall p | 0 <= p < f + 1
      ensures Expanded(g, z, c + kids, p)
    {
      AppendExpanded(g, z, c, f, kids, p);
    }
    assert forall i :: 0 <= i < g.ways ==> (c + kids)[i] == c[i];
  }

  lemma ExpandOnce(g: Geometry, z: ZState, a: nat, c: seq<Walk>, f: nat)
    requires Inv(g, z) && WalkInv(g, z, a, c, f) && AllValid(z, c)
    ensures c[f].id < g.Lines()
    ensures var r := c + Children(g, z, c[f].id, f, g.ways);
      WalkInv(g, z, a, r, f + 1) && |r| == |c| + g.ways - 1 && |r| > |c|
  {
    ExpandInv(g, z, a, c, f);
  }

  /** The breadth-first expansion: it stops once there are `cands` candidates or an empty
      line has been seen. */
  function Bfs(g: Geometry, z: ZState, a: nat, c: seq<Walk>, f: nat): (r: seq<Walk>)
    requires Inv(g, z) && WalkInv(g, z, a, c, f)
    decreases g.cands - |c|
  {
    if |c| < g.cands && AllValid(z, c) then
      ExpandOnce(g, z, a, c, f);
      Bfs(g, z, a, c + Children(g, z, c[f].id, f, g.ways), f + 1)
    else c
  }

  /** The walk ends with enough candidates or with an empty line among them, never outgrows
      the `cands + ways` buffer, and has kept the walk invariant. */
  lemma {:induction false} BfsInv(g: Geometry, z: ZState, a: nat, c: seq<Walk>, f: nat) returns (e: nat)
    requires Inv(g, z) && WalkInv(g, z, a, c, f) && |c| < g.cands + g.ways
    ensures var r := Bfs(g, z, a, c, f);
      && WalkInv(g, z, a, r, e)
      && |c| <= |r| < g.cands + g.ways
      && (|r| >= g.cands || !AllValid(z, r))
    decreases g.cands - |c|
  {
    e := f;
    if |c| < g.cands && AllValid(z, c) {
      ExpandOnce(g, z, a, c, f);
      e := BfsInv(g, z, a, c + Children(g, z, c[f].id, f, g.ways), f + 1);
    }
  }

  /** At most the rest of its own expansion comes after an empty line. */
  predicate EndsAtEmpty(g: Geometry, z: ZState, c: seq<Walk>) {
    forall i :: 0 <= i < |c| && c[i].id < |z.addr| && z.addr[c[i].id] == 0 ==> |c| <= i + g.ways
  }

  lemma {:induction false} BfsEndsAtEmpty(g: Geometry, z: ZState, a: nat, c: seq<Walk>, f: nat)
    requires Inv(g, z) && WalkInv(g, z, a, c, f) && EndsAtEmpty(g, z, c)
    ensures EndsAtEmpty(g, z, Bfs(g, z, a, c, f))
    decreases g.cands - |c|
  {
    if |c| < g.cands && AllValid(z, c) {
      ExpandOnce(g, z, a, c, f);
      BfsEndsAtEmpty(g, z, a, c + Children(g, z, c[f].id, f, g.ways), f + 1);
    }
  }

  /** An empty line ends the walk: nothing is expanded once one has turned up. */
  lemma EmptyEndsWalk(g: Geometry, z: ZState, a: nat)
    requires Inv(g, z)
    ensures EndsAtEmpty(g, z, Candidates(g, z, a))
  {
    BfsEndsAtEmpty(g, z, a, Start(g, z, a), 0);
  }

  /** The candidates offered to the replacement policy. */
  function Candidates(g: Geometry, z: ZState, a: nat): (r: seq<Walk>)
    requires Inv(g, z)
    ensures g.ways <= |r| <= g.cands
    ensures forall i :: 0 <= i < |r| ==> r[i].id < g.Lines()
    ensures |r| == g.cands || !AllValid(z, r)
  {
    var c := Bfs(g, z, a, Start(g, z, a), 0);
    CandidatesHelp(g, z, a);
    if |c| > g.cands then c[..g.cands] else c
  }

  lemma CandidatesHelp(g: Geometry, z: ZState, a: nat)
    requires Inv(g, z)
    ensures var r := Bfs(g, z, a, Start(g, z, a), 0);
      && g.ways <= |r| && (|r| >= g.cands || !AllValid(z, r))
      && EntriesOk(g, z, r)
      && forall i :: 0 <= i < |r| ==> r[i].id < g.Lines()
  {
    var e := BfsInv(g, z, a, Start(g, z, a), 0);
  }

  function Start(g: Geometry, z: ZState, a: nat): (c: seq<Walk>)
    requires Inv(g, z)
    ensures WalkInv(g, z, a, c, 0) && |c| == g.ways
  {
    SeedsInv(g, z, a);
    Seeds(g, z, a, g.ways)
  }

  // ---------------------------------------------------------------- the swap path

  /** The part of the walk invariant that survives truncating the candidate list. */
  ghost predicate WalkPrefix(g: Geometry, z: ZState, a: nat, c: seq<Walk>) {
    && Shape(g, z)
    && EntriesOk(g, z, c)
    && g.ways <= |c| <= g.cands
    && (forall i :: 0 <= i < g.ways ==> c[i].parent == -1 && Home(g, c[i].pos, a))
    && (forall i :: g.ways <= i < |c| ==> ParentOk(g, z, c, i))
    && Monotone(c)
    && (forall i, j :: g.ways <= i < |c| && 0 <= j < c[i].parent < |c| && c[j].id == c[c[i].parent].id ==>
          exists k :: 0 <= k < i && c[k].id == c[i].id)
  }

  lemma PrefixOfWalk(g: Geometry, z: ZState, a: nat, c: seq<Walk>, f: nat, n: nat)
    requires Inv(g, z) && WalkInv(g, z, a, c, f) && g.ways <= n <= |c| && n <= g.cands
    ensures WalkPrefix(g, z, a, c[..n])
  {
    var d := c[..n];
    forall i | g.ways <= i < |d|
      ensures ParentOk(g, z, d, i)
    {
      assert ParentOk(g, z, c, i);
    }
    forall i, j | g.ways <= i < |d| && 0 <= j < d[i].parent && d[j].id == d[d[i].parent].id
      ensures exists k :: 0 <= k < i && d[k].id == d[i].id
    {
      EarlierTwin(g, z, a, c, f, i, j);
    }
  }

  lemma ExpandedChild(g: Geometry, z: ZState, c: seq<Walk>, j: nat, w: nat)
    requires Shape(g, z) && EntriesOk(g, z, c) && j < |c| && Expanded(g, z, c, j) && w < g.ways
    requires z.look[Entry(g, z, z.addr[c[j].id], w, j).pos] != c[j].id
    ensures exists k :: 0 <= k < |c| && c[k] == Entry(g, z, z.addr[c[j].id], w, j)
  {
    assert Entry(g, z, z.addr[c[j].id], w, j) in c;
  }

  /** The line at entry `i` is one of the children of entry `j`. */
  lemma ChildAppears(g: Geometry, z: ZState, c: seq<Walk>, i: nat, j: nat)
    requires Shape(g, z) && EntriesOk(g, z, c) && i < |c| && j < |c| && Expanded(g, z, c, j)
    requires Home(g, c[i].pos, z.addr[c[j].id]) && c[i].id != c[j].id
    ensures exists k :: 0 <= k < |c| && c[k].id == c[i].id && c[k].parent == j
  {
    var w: nat :| w < g.ways && c[i].pos == g.Pos(w, z.addr[c[j].id]);
    ExpandedChild(g, z, c, j, w);
  }

  /** The heart of the minimum-index argument: an earlier entry `j` for the same line as the
      parent of `i` was expanded first and already produced `i`'s line. */
  lemma EarlierTwin(g: Geometry, z: ZState, a: nat, c: seq<Walk>, f: nat, i: nat, j: nat)
    requires WalkInv(g, z, a, c, f)
    requires g.ways <= i < |c| && ParentOk(g, z, c, i) && j < c[i].parent && c[j].id == c[c[i].parent].id
    ensures exists k :: 0 <= k < i && c[k].id == c[i].id
  {
    assert c[i].parent < f && Expanded(g, z, c, j);
    ChildAppears(g, z, c, i, j);
    var k :| 0 <= k < |c| && c[k].id == c[i].id && c[k].parent == j;
    BeforeByParent(c, k, i);
  }

  /** Entries with earlier parents come earlier. */
  lemma BeforeByParent(c: seq<Walk>, k: nat, i: nat)
    requires Monotone(c) && k < |c| && i < |c| && c[k].parent < c[i].parent
    ensures k < i
  {
  }

  lemma CandidatesPrefix(g: Geometry, z: ZState, a: nat)
    requires Inv(g, z)
    ensures WalkPrefix(g, z, a, Candidates(g, z, a))
  {
    var c := Bfs(g, z, a, Start(g, z, a), 0);
    var f := BfsInv(g, z, a, Start(g, z, a), 0);
    var n := if |c| > g.cands then g.cands else |c|;
    PrefixOfWalk(g, z, a, c, f, n);
    assert c[..|c|] == c;
  }

  ghost predicate MinIndex(c: seq<Walk>, i: nat)
    requires i < |c|
  {
    forall k :: 0 <= k < i ==> c[k].id != c[i].id
  }

  /** The first walk index of a line id that occurs among the candidates. */
  function FirstIndex(c: seq<Walk>, id: nat): (i: nat)
    requires exists k :: 0 <= k < |c| && c[k].id == id
    ensures i < |c| && c[i].id == id && MinIndex(c, i)
  {
    if c[0].id == id then 0
    else
      var k :| 0 <= k < |c| && c[k].id == id;
      assert c[1..][k - 1].id == id;
      var j := FirstIndex(c[1..], id);
      assert forall m :: 1 <= m < j + 1 ==> c[m] == c[1..][m - 1];
      j + 1
  }

  /** The positions from walk index `i` back to its seed, as the swap array stores them. */
  function PathFrom(g: Geometry, z: ZState, a: nat, c: seq<Walk>, i: nat): (path: seq<nat>)
    requires WalkPrefix(g, z, a, c) && i < |c|
    ensures 1 <= |path| <= Quotient(i, g.ways) + 1
    ensures path[0] == c[i].pos
    decreases i
  {
    if i < g.ways then
      [c[i].pos]
    else
      assert ParentOk(g, z, c, i);
      QuotientMonotone(c[i].parent, i - g.ways, g.ways);
      [c[i].pos] + PathFrom(g, z, a, c, c[i].parent)
  }

  lemma PathStep(g: Geometry, z: ZState, a: nat, c: seq<Walk>, i: nat)
    requires WalkPrefix(g, z, a, c) && i < |c|
    ensures -1 <= c[i].parent < i
    ensures PathFrom(g, z, a, c, i)[1..] == if c[i].parent < 0 then [] else PathFrom(g, z, a, c, c[i].parent)
  {
    if i >= g.ways { assert ParentOk(g, z, c, i); }
  }

  /** A path that may be rotated: the first position holds the victim, each line moves to
      one of its own positions, and the last position is one of the new address's. */
  ghost predicate GoodPath(g: Geometry, z: ZState, a: nat, path: seq<nat>, victim: nat) {
    && Shape(g, z)
    && |path| > 0
    && (forall k :: 0 <= k < |path| ==> path[k] < g.Lines())
    && (forall k, m :: 0 <= k < m < |path| ==> path[k] != path[m])
    && z.look[path[0]] == victim
    && (forall k :: 0 <= k < |path| - 1 ==> Moves(g, z, path[k], path[k + 1]))
    && Home(g, path[|path| - 1], a)
  }

  /** The line at position `from` is valid and may be moved to position `to`. */
  ghost predicate Moves(g: Geometry, z: ZState, to: nat, from: nat)
    requires Shape(g, z)
  {
    from < g.Lines() && z.addr[z.look[from]] != 0 && Home(g, to, z.addr[z.look[from]])
  }

  /** A good path stays good with one more position in front. */
  lemma GrowPath(g: Geometry, z: ZState, a: nat, pos: nat, rest: seq<nat>, victim: nat)
    requires GoodPath(g, z, a, rest, victim)
    requires pos < g.Lines() && pos !in rest && Moves(g, z, pos, rest[0])
    ensures GoodPath(g, z, a, [pos] + rest, z.look[pos])
  {
    var path := [pos] + rest;
    assert forall k :: 0 < k < |path| ==> path[k] == rest[k - 1] && path[k] in rest;
    forall k | 0 <= k < |path| - 1
      ensures Moves(g, z, path[k], path[k + 1])
    {
      if k > 0 { assert Moves(g, z, rest[k - 1], rest[k]); }
    }
  }

  /** The parent of a minimum-index candidate has minimum index itself. */
  lemma ParentIsMin(g: Geometry, z: ZState, a: nat, c: seq<Walk>, i: nat)
    requires WalkPrefix(g, z, a, c) && g.ways <= i < |c| && MinIndex(c, i)
    ensures 0 <= c[i].parent < i && MinIndex(c, c[i].parent)
    ensures Moves(g, z, c[i].pos, c[c[i].parent].pos)
  {
    assert ParentOk(g, z, c, i);
  }

  /** The line at a position is one of the first i + 1 candidates. */
  ghost predicate Among(z: ZState, c: seq<Walk>, i: nat, p: nat)
    requires i < |c|
  {
    p < |z.look| && exists k :: 0 <= k <= i && c[k].id == z.look[p]
  }

  /** So the lines on the path of a minimum-index candidate, and hence the positions, are
      pairwise different, although the walk keeps no visited set. */
  lemma {:induction false} PathIsGood(g: Geometry, z: ZState, a: nat, c: seq<Walk>, i: nat)
    requires WalkPrefix(g, z, a, c) && i < |c| && MinIndex(c, i)
    ensures GoodPath(g, z, a, PathFrom(g, z, a, c, i), c[i].id)
    ensures forall p :: p in PathFrom(g, z, a, c, i) ==> Among(z, c, i, p)
    decreases i
  {
    assert c[i].id == z.look[c[i].pos];
    assert Among(z, c, i, c[i].pos);
    if i >= g.ways {
      var p := c[i].parent;
      ParentIsMin(g, z, a, c, i);
      PathIsGood(g, z, a, c, p);
      var rest := PathFrom(g, z, a, c, p);
      NewOnPath(z, c, i, p, rest);
      GrowPath(g, z, a, c[i].pos, rest, c[p].id);
      assert PathFrom(g, z, a, c, i) == [c[i].pos] + rest;
    }
  }

  lemma NewOnPath(z: ZState, c: seq<Walk>, i: nat, p: nat, rest: seq<nat>)
    requires p < i < |c| && MinIndex(c, i) && c[i].pos < |z.look| && c[i].id == z.look[c[i].pos]
    requires forall q :: q in rest ==> Among(z, c, p, q)
    ensures c[i].pos !in rest && forall q :: q in rest ==> Among(z, c, i, q)
  {
    assert !Among(z, c, p, c[i].pos);
    forall q | q in rest
      ensures Among(z, c, i, q)
    {
      assert Among(z, c, p, q);
    }
  }

  // ---------------------------------------------------------------- the rotation

  /** The loop of the insertion: each position takes the line of the next one, and the last
      position takes the victim's line id. */
  function Rotate(look: seq<nat>, path: seq<nat>, victim: nat): (r: seq<nat>)
    requires |path| > 0 && forall k :: 0 <= k < |path| ==> path[k] < |look|
    ensures |r| == |look|
    decreases |path|
  {
    if |path| == 1 then look[path[0] := victim]
    else Rotate(look[path[0] := look[path[1]]], path[1..], victim)
  }

  lemma {:induction false} RotateAt(look: seq<nat>, path: seq<nat>, victim: nat)
    requires |path| > 0 && forall k :: 0 <= k < |path| ==> path[k] < |look|
    requires forall k, m :: 0 <= k < m < |path| ==> path[k] != path[m]
    ensures forall p :: 0 <= p < |look| && p !in path ==> Rotate(look, path, victim)[p] == look[p]
    ensures forall k :: 0 <= k < |path| - 1 ==> Rotate(look, path, victim)[path[k]] == look[path[k + 1]]
    ensures Rotate(look, path, victim)[path[|path| - 1]] == victim
    decreases |path|
  {
    if |path| > 1 {
      var tail := path[1..];
      var look1 := look[path[0] := look[path[1]]];
      RotateAt(look1, tail, victim);
      assert path[0] !in tail;
      var r := Rotate(look, path, victim);
      forall k | 0 <= k < |path| - 1
        ensures r[path[k]] == look[path[k + 1]]
      {
        if k > 0 {
          assert path[k] == tail[k - 1] && path[k + 1] == tail[k];
          assert path[k + 1] != path[0];
        }
      }
      forall p | 0 <= p < |look| && p !in path
        ensures r[p] == look[p]
      {
        assert p != path[0];
        assert p !in tail;
      }
    }
  }

  function Insert(z: ZState, a: nat, path: seq<nat>, victim: nat): ZState
    requires |path| > 0 && victim < |z.addr| && forall k :: 0 <= k < |path| ==> path[k] < |z.look|
  {
    ZState(z.addr[victim := a], Rotate(z.look, path, victim))
  }

  /** The rotation overwrites its first position before reading it. */
  lemma RotateIgnoresHead(look: seq<nat>, path: seq<nat>, victim: nat, x: nat)
    requires |path| > 0 && forall k :: 0 <= k < |path| ==> path[k] < |look|
    requires forall k, m :: 0 <= k < m < |path| ==> path[k] != path[m]
    ensures Rotate(look[path[0] := x], path, victim) == Rotate(look, path, victim)
  {
    if |path| > 1 {
      assert path[0] != path[1];
      assert look[path[0] := x][path[0] := look[path[1]]] == look[path[0] := look[path[1]]];
    } else {
      assert look[path[0] := x][path[0] := victim] == look[path[0] := victim];
    }
  }

  lemma SwapIsPermutation(look: seq<nat>, p: nat, q: nat)
    requires Permutation(look) && p < |look| && q < |look|
    ensures Permutation(look[p := look[q]][q := look[p]])
  {
    var r := look[p := look[q]][q := look[p]];
    forall id | 0 <= id < |look|
      ensures id in r
    {
      assert id in look;
      var k :| 0 <= k < |look| && look[k] == id;
      assert r[if k == p then q else if k == q then p else k] == id;
    }
  }

  /** The rotation is a chain of swaps, so the position table stays a permutation. */
  lemma {:induction false} RotateIsPermutation(look: seq<nat>, path: seq<nat>, victim: nat)
    requires Permutation(look) && |path| > 0
    requires forall k :: 0 <= k < |path| ==> path[k] < |look|
    requires forall k, m :: 0 <= k < m < |path| ==> path[k] != path[m]
    requires look[path[0]] == victim
    ensures Permutation(Rotate(look, path, victim))
    decreases |path|
  {
    if |path| == 1 {
      assert look[path[0] := victim] == look;
    } else {
      var tail := path[1..];
      var swapped := look[path[0] := look[path[1]]][path[1] := victim];
      SwapIsPermutation(look, path[0], path[1]);
      RotateIsPermutation(swapped, tail, victim);
      RotateIgnoresHead(look[path[0] := look[path[1]]], tail, victim, victim);
    }
  }

  /** Inserting an absent address along a good path keeps every structural invariant: the
      position table stays a permutation, addresses stay unique and every valid line sits at
      one of its own hash positions. */
  lemma InsertInv(g: Geometry, z: ZState, a: nat, path: seq<nat>, victim: nat)
    requires Inv(g, z) && a != 0 && a !in z.addr
    requires GoodPath(g, z, a, path, victim)
    ensures Inv(g, Insert(z, a, path, victim))
  {
    var z' := Insert(z, a, path, victim);
    RotateIsPermutation(z.look, path, victim);
    RotateAt(z.look, path, victim);
    forall p | 0 <= p < |z'.look| && z'.addr[z'.look[p]] != 0
      ensures Home(g, p, z'.addr[z'.look[p]])
    {
      if p in path {
        var k :| 0 <= k < |path| && path[k] == p;
        if k < |path| - 1 {
          assert Moves(g, z, path[k], path[k + 1]);
          assert z'.look[p] == z.look[path[k + 1]];
          assert path[0] != path[k + 1];
          assert z'.look[p] != victim;
        } else {
          assert z'.look[p] == victim;
        }
      } else {
        assert z'.look[p] == z.look[p];
        assert p != path[0];
        assert z'.look[p] != victim;
        assert Home(g, p, z.addr[z.look[p]]);
      }
    }
  }

  /** The observable meaning of an insertion: the new address is found at the victim's line
      id, the evicted address is gone, and every other address keeps its line id, wherever
      its line was moved. */
  lemma InsertRefinesMap(g: Geometry, z: ZState, a: nat, path: seq<nat>, victim: nat, b: nat)
    requires Inv(g, z) && a != 0 && a !in z.addr && b != 0
    requires GoodPath(g, z, a, path, victim)
    ensures Inv(g, Insert(z, a, path, victim))
    ensures Find(g, Insert(z, a, path, victim), b) ==
      if b == a then Some(victim) else if b == z.addr[victim] then None else Find(g, z, b)
  {
    var z' := Insert(z, a, path, victim);
    InsertInv(g, z, a, path, victim);
    if b == a {
      FindIff(g, z', b, victim);
    } else if b == z.addr[victim] {
      FindNone(g, z', b);
    } else if b in z.addr {
      var id :| 0 <= id < |z.addr| && z.addr[id] == b;
      FindIff(g, z, b, id);
      FindIff(g, z', b, id);
    } else {
      FindNone(g, z, b);
      FindNone(g, z', b);
    }
  }

  // ---------------------------------------------------------------- whole runs

  /** The line the policy evicts when its choice among the candidates is number `pick`; numbers
      beyond the last candidate name one of them too. */
  function Victim(g: Geometry, z: ZState, a: nat, pick: nat): (id: nat)
    requires Inv(g, z)
    ensures id < g.Lines()
    ensures pick < |Candidates(g, z, a)| ==> id == Candidates(g, z, a)[pick].id
  {
    var c := Candidates(g, z, a);
    c[Remainder(pick, |c|)].id
  }

  /** Any line offered to the policy can be the one it evicts, and no other line is evicted. */
  lemma EvictableIffOffered(g: Geometry, z: ZState, a: nat, id: nat)
    requires Inv(g, z)
    ensures (exists pick :: Victim(g, z, a, pick) == id) <==>
            (exists k :: 0 <= k < |Candidates(g, z, a)| && Candidates(g, z, a)[k].id == id)
  {
    var c := Candidates(g, z, a);
    if pick :| Victim(g, z, a, pick) == id {
      assert c[Remainder(pick, |c|)].id == id;
    }
    if k :| 0 <= k < |c| && c[k].id == id {
      assert Victim(g, z, a, k) == id;
    }
  }

  function SwapPath(g: Geometry, z: ZState, a: nat, pick: nat): (path: seq<nat>)
    requires Inv(g, z)
    ensures GoodPath(g, z, a, path, Victim(g, z, a, pick))
    ensures |path| <= Quotient(g.cands, g.ways) + 2
  {
    var c := Candidates(g, z, a);
    CandidatesPrefix(g, z, a);
    assert c[Remainder(pick, |c|)].id == Victim(g, z, a, pick);
    var i := FirstIndex(c, Victim(g, z, a, pick));
    PathIsGood(g, z, a, c, i);
    QuotientMonotone(i, g.cands, g.ways);
    PathFrom(g, z, a, c, i)
  }

  /** What a cache miss does to the array: evict the policy's choice and insert `a`. A hit
      changes nothing here. */
  function Miss(g: Geometry, z: ZState, a: nat, pick: nat): ZState
    requires Inv(g, z)
  {
    Insert(z, a, SwapPath(g, z, a, pick), Victim(g, z, a, pick))
  }

  function Start0(g: Geometry): (z: ZState)
    requires g.Valid()
    ensures Inv(g, z)
  {
    var look := Identity(g.Lines());
    ZState(seq(g.Lines(), i => 0), look)
  }

  function Identity(n: nat): (look: seq<nat>)
    ensures |look| == n && Permutation(look) && forall i :: 0 <= i < n ==> look[i] == i
  {
    var look: seq<nat> := seq(n, i => i);
    assert Permutation(look) by {
      forall id | 0 <= id < n
        ensures id in look
      {
        assert look[id] == id;
      }
    }
    look
  }

  /** The directory the array is meant to be: a plain map from address to line id. */
  ghost predicate Implements(g: Geometry, z: ZState, m: map<nat, nat>) {
    && Inv(g, z)
    && forall b :: b != 0 ==> Find(g, z, b) == if b in m then Some(m[b]) else None
  }

  /** The same miss on the plain map, given the line the policy chose. */
  function MissMap(m: map<nat, nat>, a: nat, victim: nat): map<nat, nat> {
    (map b | b in m && m[b] != victim :: m[b])[a := victim]
  }

  /** Runs the accesses in order; an access is an address and the policy's choice number. */
  ghost predicate RunImplements(g: Geometry, z: ZState, m: map<nat, nat>, accesses: seq<(nat, nat)>)
    decreases |accesses|
  {
    && Implements(g, z, m)
    && (|accesses| > 0 ==>
          var (a, pick) := accesses[0];
          if a == 0 || Find(g, z, a).Some? then RunImplements(g, z, m, accesses[1..])
          else RunImplements(g, Miss(g, z, a, pick), MissMap(m, a, Victim(g, z, a, pick)), accesses[1..]))
  }

  /** Every run of accesses, under every hash family and every replacement choice, keeps the
      array equal to a plain map that evicts the chosen line and inserts the new address. */
  lemma {:induction false} EveryRunImplementsMap(g: Geometry, z: ZState, m: map<nat, nat>, accesses: seq<(nat, nat)>)
    requires Implements(g, z, m)
    ensures RunImplements(g, z, m, accesses)
    decreases |accesses|
  {
    if |accesses| > 0 {
      var (a, pick) := accesses[0];
      if a == 0 || Find(g, z, a).Some? {
        EveryRunImplementsMap(g, z, m, accesses[1..]);
      } else {
        MissImplements(g, z, m, a, pick);
        EveryRunImplementsMap(g, Miss(g, z, a, pick), MissMap(m, a, Victim(g, z, a, pick)), accesses[1..]);
      }
    }
  }

  /** A miss is a miss on the map, with the very line the policy chose as victim. */
  lemma MissImplements(g: Geometry, z: ZState, m: map<nat, nat>, a: nat, pick: nat)
    requires Implements(g, z, m) && a != 0 && Find(g, z, a) == None
    ensures Implements(g, Miss(g, z, a, pick), MissMap(m, a, Victim(g, z, a, pick)))
    ensures pick < |Candidates(g, z, a)| ==>
      Implements(g, Miss(g, z, a, pick), MissMap(m, a, Candidates(g, z, a)[pick].id))
  {
    var victim := Victim(g, z, a, pick);
    var path := SwapPath(g, z, a, pick);
    FindNone(g, z, a);
    InsertInv(g, z, a, path, victim);
    var z' := Miss(g, z, a, pick);
    var m' := MissMap(m, a, victim);
    forall b: nat | b != 0
      ensures Find(g, z', b) == if b in m' then Some(m'[b]) else None
    {
      InsertRefinesMap(g, z, a, path, victim, b);
      if b in m {
        FindIff(g, z, b, m[b]);
        FindIff(g, z, b, victim);
      } else if b == z.addr[victim] {
        FindIff(g, z, b, victim);
      }
    }
  }
}
