/** MESI coherence for one line in a tree of caches of any depth and width. A cache has a
    bottom controller (its own state) and a top controller (the sharer directory over its
    children). Every function follows one controller routine; `ok` collects the assertions
    the source makes along the way. */
module Mesi {
  datatype MesiState = I | S | E | M
  datatype AccessType = GETS | GETX | PUTS | PUTX
  datatype InvType = INV | INVX

  /** `num`, the links' `shared` bits and `excl` are the directory entry. A terminal cache has
      no children. */
  datatype Cache = Cache(state: MesiState, num: nat, excl: bool, kids: seq<Link>)
  datatype Link = Link(shared: bool, cache: Cache)

  /** The cache after a routine, the writeback flag it pulled up, and whether every assertion
      held. */
  datatype Result = Result(c: Cache, wb: bool, ok: bool)

  predicate Owner(s: MesiState) { s == E || s == M }

  predicate IsExclusive(t: Cache) { t.num == 1 && t.excl }

  function Count(kids: seq<Link>): (n: nat)
    ensures n <= |kids|
  {
    if kids == [] then 0 else Count(kids[..|kids| - 1]) + if kids[|kids| - 1].shared then 1 else 0
  }

  // ---------------------------------------------------------------- invalidations

  /** What the bottom controller does with an invalidation or downgrade. */
  function BottomInval(s: MesiState, ty: InvType): (MesiState, bool, bool) {
    match ty
    case INVX => (S, s == M, Owner(s))
    case INV => (I, s == M, s != I)
  }

  /** The top controller's fan-out to the children in the sharer set. */
  function SendInvalidates(t: Cache, ty: InvType): (r: Result)
    ensures |r.c.kids| == |t.kids|
    decreases t, 0
  {
    if (ty == INVX && !IsExclusive(t)) || t.num == 0 then Result(t, false, true)
    else
      var rs := seq(|t.kids|, i requires 0 <= i < |t.kids| => InvalLink(t.kids[i], ty));
      var kids := seq(|t.kids|, i requires 0 <= i < |t.kids| =>
        Link(t.kids[i].shared && ty == INVX, rs[i].c));
      Result(
        Cache(t.state, if ty == INV then 0 else t.num, ty == INV && t.excl, kids),
        exists i | 0 <= i < |rs| :: rs[i].wb,
        (forall i | 0 <= i < |rs| :: rs[i].ok) && Count(t.kids) == t.num && (ty == INVX ==> IsExclusive(t)))
  }

  function InvalLink(l: Link, ty: InvType): Result
    decreases l, 2
  {
    if l.shared then Invalidate(l.cache, ty) else Result(l.cache, false, true)
  }

  /** A whole invalidation of a cache: children first, then its own state. */
  function Invalidate(t: Cache, ty: InvType): Result
    decreases t, 1
  {
    var r := SendInvalidates(t, ty);
    var (s, wb, ok) := BottomInval(r.c.state, ty);
    Result(r.c.(state := s), r.wb || wb, r.ok && ok)
  }

  /** Coherence traffic changes states and directory entries, never the tree. */
  ghost predicate SameShape(a: Cache, b: Cache) {
    |a.kids| == |b.kids| && forall i :: 0 <= i < |a.kids| ==> SameShape(a.kids[i].cache, b.kids[i].cache)
  }

  lemma {:induction false} ShapeRefl(t: Cache)
    ensures SameShape(t, t)
  {
    forall i | 0 <= i < |t.kids|
      ensures SameShape(t.kids[i].cache, t.kids[i].cache)
    {
      ShapeRefl(t.kids[i].cache);
    }
  }

  /** The fan-out link by link. */
  lemma SendParts(t: Cache, ty: InvType)
    requires t.num != 0 && (ty == INVX ==> IsExclusive(t))
    ensures var r := SendInvalidates(t, ty);
      && (forall i :: 0 <= i < |t.kids| ==>
            r.c.kids[i] == Link(t.kids[i].shared && ty == INVX, InvalLink(t.kids[i], ty).c))
      && (r.wb <==> exists i :: 0 <= i < |t.kids| && InvalLink(t.kids[i], ty).wb)
      && (r.ok <==> (forall i :: 0 <= i < |t.kids| ==> InvalLink(t.kids[i], ty).ok) && Count(t.kids) == t.num)
  {
    var rs := seq(|t.kids|, i requires 0 <= i < |t.kids| => InvalLink(t.kids[i], ty));
    assert forall i :: 0 <= i < |t.kids| ==> rs[i] == InvalLink(t.kids[i], ty);
  }

  lemma {:induction false} InvalidateShape(t: Cache, ty: InvType)
    ensures SameShape(t, SendInvalidates(t, ty).c)
    ensures SameShape(t, Invalidate(t, ty).c)
  {
    var r := SendInvalidates(t, ty);
    ShapeRefl(t);
    if t.num != 0 && (ty == INVX ==> IsExclusive(t)) {
      SendParts(t, ty);
      forall i | 0 <= i < |t.kids|
        ensures SameShape(t.kids[i].cache, r.c.kids[i].cache)
      {
        ShapeRefl(t.kids[i].cache);
        InvalidateShape(t.kids[i].cache, ty);
      }
    }
    assert Invalidate(t, ty).c.kids == r.c.kids;
  }

  // ---------------------------------------------------------------- what every cache keeps

  /** The directory entry of one cache agrees with its children, the cache includes them, and
      exclusivity below needs exclusivity here. */
  predicate Local(t: Cache) {
    && t.num == Count(t.kids)
    && (t.excl ==> t.num <= 1)
    && (forall i | 0 <= i < |t.kids| :: LinkOk(t, t.kids[i]))
  }

  predicate LinkOk(t: Cache, l: Link) {
    && (l.shared <==> l.cache.state != I)
    && (l.shared ==> t.state != I)
    && (l.shared && IsExclusive(t) ==> Owner(l.cache.state))
    && (Owner(l.cache.state) ==> IsExclusive(t) && Owner(t.state))
  }

  predicate Coherent(t: Cache) {
    Local(t) && forall i | 0 <= i < |t.kids| :: Coherent(t.kids[i].cache)
  }

  predicate HasDirty(t: Cache) {
    t.state == M || exists i | 0 <= i < |t.kids| :: HasDirty(t.kids[i].cache)
  }

  predicate AllInvalid(t: Cache) {
    t.state == I && forall i | 0 <= i < |t.kids| :: AllInvalid(t.kids[i].cache)
  }

  predicate NoOwner(t: Cache) {
    !Owner(t.state) && forall i | 0 <= i < |t.kids| :: NoOwner(t.kids[i].cache)
  }

  // ---------------------------------------------------------------- counting sharers

  lemma {:induction false} CountZero(kids: seq<Link>)
    ensures Count(kids) == 0 <==> forall i :: 0 <= i < |kids| ==> !kids[i].shared
  {
    if kids != [] {
      var n := |kids| - 1;
      CountZero(kids[..n]);
      assert forall i :: 0 <= i < n ==> kids[..n][i] == kids[i];
    }
  }

  lemma {:induction false} CountOne(kids: seq<Link>, i: nat, j: nat)
    requires i < |kids| && j < |kids| && i != j && kids[i].shared && kids[j].shared
    ensures Count(kids) >= 2
  {
    var n := |kids| - 1;
    if i < n && j < n {
      CountOne(kids[..n], i, j);
    } else {
      var k := if i < n then i else j;
      assert kids[..n][k] == kids[k];
      CountZero(kids[..n]);
    }
  }

  lemma {:induction false} CountUpdate(kids: seq<Link>, i: nat, l: Link)
    requires i < |kids|
    ensures Count(kids[i := l]) ==
      Count(kids) - (if kids[i].shared then 1 else 0) + (if l.shared then 1 else 0)
  {
    var n := |kids| - 1;
    if i == n {
      assert kids[i := l][..n] == kids[..n];
    } else {
      assert kids[i := l][..n] == kids[..n][i := l];
      CountUpdate(kids[..n], i, l);
    }
  }

  lemma {:induction false} CountSame(a: seq<Link>, b: seq<Link>)
    requires |a| == |b| && forall i :: 0 <= i < |a| ==> a[i].shared == b[i].shared
    ensures Count(a) == Count(b)
  {
    if a != [] { CountSame(a[..|a| - 1], b[..|b| - 1]); }
  }

  // ---------------------------------------------------------------- inclusion, recursively

  /** Below an invalid cache everything is invalid; below a cache that is not exclusive
      nothing is. */
  lemma {:induction false} Inclusion(t: Cache)
    requires Coherent(t)
    ensures t.state == I ==> AllInvalid(t)
    ensures !Owner(t.state) ==> NoOwner(t)
  {
    forall i | 0 <= i < |t.kids|
      ensures Coherent(t.kids[i].cache) && LinkOk(t, t.kids[i])
      ensures t.kids[i].cache.state == I ==> AllInvalid(t.kids[i].cache)
      ensures !Owner(t.kids[i].cache.state) ==> NoOwner(t.kids[i].cache)
    {
      Inclusion(t.kids[i].cache);
    }
  }

  lemma {:induction false} NoOwnerNoDirty(t: Cache)
    requires NoOwner(t)
    ensures !HasDirty(t)
  {
    forall i | 0 <= i < |t.kids|
      ensures !HasDirty(t.kids[i].cache)
    {
      NoOwnerNoDirty(t.kids[i].cache);
    }
  }

  lemma {:induction false} AllInvalidNoOwner(t: Cache)
    requires AllInvalid(t)
    ensures NoOwner(t)
  {
    forall i | 0 <= i < |t.kids|
      ensures NoOwner(t.kids[i].cache)
    {
      AllInvalidNoOwner(t.kids[i].cache);
    }
  }

  /** Dirty data under a cache is under its exclusive child, if the cache is not dirty itself. */
  lemma DirtyBelowIsExclusive(t: Cache, i: nat)
    requires Coherent(t) && i < |t.kids| && HasDirty(t.kids[i].cache)
    ensures IsExclusive(t) && Owner(t.state) && t.kids[i].shared && Owner(t.kids[i].cache.state)
  {
    var k := t.kids[i].cache;
    assert LinkOk(t, t.kids[i]);
    if !Owner(k.state) {
      Inclusion(k);
      NoOwnerNoDirty(k);
    }
  }

  // ---------------------------------------------------------------- invalidation, proved

  /** What an invalidation achieves on a coherent cache that holds the line with the permission
      the request takes away. */
  ghost predicate InvalidateDone(t: Cache, ty: InvType, r: Result) {
    && r.ok
    && Coherent(r.c)
    && (ty == INV ==> AllInvalid(r.c))
    && (ty == INVX ==> r.c.state == S && NoOwner(r.c))
    && (r.wb <==> HasDirty(t))
  }

  ghost predicate Invalidatable(t: Cache, ty: InvType) {
    Coherent(t) && t.state != I && (ty == INVX ==> Owner(t.state))
  }

  /** The children after the fan-out. */
  ghost predicate SendDone(t: Cache, ty: InvType, r: Result) {
    && r.ok
    && |r.c.kids| == |t.kids| && r.c.state == t.state
    && r.c.num == Count(r.c.kids) && (r.c.excl ==> r.c.num <= 1) && !IsExclusive(r.c)
    && (forall i :: 0 <= i < |r.c.kids| ==> Coherent(r.c.kids[i].cache))
    && (forall i :: 0 <= i < |r.c.kids| ==>
          var l := r.c.kids[i];
          && (ty == INV ==> !l.shared && AllInvalid(l.cache))
          && (ty == INVX ==> NoOwner(l.cache) && (l.shared <==> t.kids[i].shared) && (l.shared <==> l.cache.state != I))
          && (!t.kids[i].shared ==> l == t.kids[i]))
    && (r.wb <==> exists i :: 0 <= i < |t.kids| && HasDirty(t.kids[i].cache))
  }

  lemma {:induction false} InvalidateCorrect(t: Cache, ty: InvType)
    requires Invalidatable(t, ty)
    ensures InvalidateDone(t, ty, Invalidate(t, ty))
    decreases t, 1
  {
    SendCorrect(t, ty);
    var r := SendInvalidates(t, ty);
    InvalidateCloses(t, ty, r);
  }

  lemma InvalidateCloses(t: Cache, ty: InvType, r: Result)
    requires Invalidatable(t, ty) && SendDone(t, ty, r)
    ensures var (s, wb, ok) := BottomInval(t.state, ty);
      InvalidateDone(t, ty, Result(r.c.(state := s), r.wb || wb, r.ok && ok))
  {
    var u := r.c.(state := BottomInval(t.state, ty).0);
    forall i | 0 <= i < |u.kids|
      ensures LinkOk(u, u.kids[i]) && Coherent(u.kids[i].cache)
    {
      assert LinkOk(t, t.kids[i]);
    }
  }

  /** The fan-out reaches every sharer, clears or keeps exactly the right bits, and reports a
      writeback exactly when some copy below was dirty. */
  lemma {:induction false} SendCorrect(t: Cache, ty: InvType)
    requires Coherent(t)
    ensures SendDone(t, ty, SendInvalidates(t, ty))
    decreases t, 0
  {
    CountZero(t.kids);
    forall i | 0 <= i < |t.kids|
      ensures LinkOk(t, t.kids[i]) && Coherent(t.kids[i].cache)
      ensures !Owner(t.kids[i].cache.state) ==> NoOwner(t.kids[i].cache) && !HasDirty(t.kids[i].cache)
      ensures t.kids[i].cache.state == I ==> AllInvalid(t.kids[i].cache)
    {
      Inclusion(t.kids[i].cache);
      if !Owner(t.kids[i].cache.state) { NoOwnerNoDirty(t.kids[i].cache); }
    }
    if !((ty == INVX && !IsExclusive(t)) || t.num == 0) {
      forall i | 0 <= i < |t.kids| && t.kids[i].shared
        ensures InvalidateDone(t.kids[i].cache, ty, Invalidate(t.kids[i].cache, ty))
      {
        InvalidateCorrect(t.kids[i].cache, ty);
      }
      SendFansOut(t, ty);
    }
  }

  /** One link under the fan-out. */
  ghost predicate LinkSent(t: Cache, ty: InvType, i: nat)
    requires i < |t.kids|
  {
    var l := t.kids[i];
    var r := InvalLink(l, ty);
    && r.ok && Coherent(r.c) && (r.wb <==> HasDirty(l.cache))
    && (ty == INV ==> AllInvalid(r.c))
    && (ty == INVX ==> NoOwner(r.c) && (l.shared <==> r.c.state != I))
    && (!l.shared ==> r.c == l.cache)
  }

  lemma SendFansOut(t: Cache, ty: InvType)
    requires Coherent(t) && t.num > 0 && (ty == INVX ==> IsExclusive(t))
    requires forall i :: 0 <= i < |t.kids| ==>
      && LinkOk(t, t.kids[i])
      && Coherent(t.kids[i].cache)
      && (!t.kids[i].shared ==> AllInvalid(t.kids[i].cache) && NoOwner(t.kids[i].cache) && !HasDirty(t.kids[i].cache))
      && (t.kids[i].shared ==> InvalidateDone(t.kids[i].cache, ty, Invalidate(t.kids[i].cache, ty)))
    ensures SendDone(t, ty, SendInvalidates(t, ty))
  {
    var u := SendInvalidates(t, ty).c;
    forall i | 0 <= i < |t.kids|
      ensures LinkSent(t, ty, i)
    {
    }
    SendParts(t, ty);
    if ty == INV { CountZero(u.kids); } else { CountSame(u.kids, t.kids); }
    SendReportsDirty(t, ty);
    forall i | 0 <= i < |t.kids|
      ensures Coherent(u.kids[i].cache)
      ensures ty == INV ==> !u.kids[i].shared && AllInvalid(u.kids[i].cache)
      ensures ty == INVX ==> NoOwner(u.kids[i].cache) && u.kids[i].shared == t.kids[i].shared
    {
      assert LinkSent(t, ty, i);
    }
  }

  lemma SendReportsDirty(t: Cache, ty: InvType)
    requires t.num > 0 && (ty == INVX ==> IsExclusive(t))
    requires forall i :: 0 <= i < |t.kids| ==> LinkSent(t, ty, i)
    ensures SendInvalidates(t, ty).wb <==> exists i :: 0 <= i < |t.kids| && HasDirty(t.kids[i].cache)
  {
    if SendInvalidates(t, ty).wb {
      var i :| 0 <= i < |t.kids| && InvalLink(t.kids[i], ty).wb;
      assert LinkSent(t, ty, i);
      assert HasDirty(t.kids[i].cache);
    }
    if i :| 0 <= i < |t.kids| && HasDirty(t.kids[i].cache) {
      assert LinkSent(t, ty, i);
      assert InvalLink(t.kids[i], ty).wb;
    }
  }
}
