/** What transactions do to the caches that did not ask for them, cache by cache: which copies
    are taken away or downgraded, where dirty data comes from, and when a reader is given the
    line exclusively. */
module MesiEffects {
  import opened Mesi
  import opened MesiTree

  // ---------------------------------------------------------------- invalidations, cache by cache

  /** The state an invalidation or downgrade leaves a cache in. */
  function Demoted(inv: InvType, s: MesiState): MesiState {
    match inv
    case INV => I
    case INVX => if Owner(s) then S else s
  }

  lemma {:induction false} NoOwnerAt(t: Cache, q: seq<nat>)
    requires NoOwner(t) && OnPath(t, q)
    ensures !Owner(At(t, q).state)
    decreases |q|
  {
    if q != [] { NoOwnerAt(t.kids[q[0]].cache, q[1..]); }
  }

  lemma CoherentKid(t: Cache, i: nat)
    requires Coherent(t) && i < |t.kids|
    ensures Coherent(t.kids[i].cache) && LinkOk(t, t.kids[i])
    ensures !t.kids[i].shared ==> AllInvalid(t.kids[i].cache)
    ensures !Owner(t.kids[i].cache.state) ==> NoOwner(t.kids[i].cache)
  {
    Inclusion(t.kids[i].cache);
  }

  /** An INV takes every copy in the subtree; an INVX takes none, and downgrades exactly the
      exclusive ones. */
  lemma {:induction false} InvalidatesAt(t: Cache, inv: InvType, q: seq<nat>)
    requires Invalidatable(t, inv) && OnPath(t, q)
    ensures var r := Invalidate(t, inv).c; OnPath(r, q) && At(r, q).state == Demoted(inv, At(t, q).state)
    decreases |q|
  {
    if q != [] { SendsAt(t, inv, q); }
  }

  lemma {:induction false} SendsAt(t: Cache, inv: InvType, q: seq<nat>)
    requires Invalidatable(t, inv) && OnPath(t, q) && q != []
    ensures var r := SendInvalidates(t, inv).c; OnPath(r, q) && At(r, q).state == Demoted(inv, At(t, q).state)
    decreases |q|, 0
  {
    var i := q[0];
    CoherentKid(t, i);
    if t.kids[i].shared && (inv == INVX ==> IsExclusive(t)) {
      assert t.num > 0 by { SharedCounts(t, i); }
      SendParts(t, inv);
      InvalidatesAt(t.kids[i].cache, inv, q[1..]);
    } else {
      if !((inv == INVX && !IsExclusive(t)) || t.num == 0) { SendParts(t, inv); }
      if !t.kids[i].shared { AllInvalidAt(t.kids[i].cache, q[1..]); } else { NoOwnerAt(t.kids[i].cache, q[1..]); }
    }
  }

  lemma SharedCounts(t: Cache, i: nat)
    requires Coherent(t) && i < |t.kids| && t.kids[i].shared
    ensures t.num > 0
  {
    CountZero(t.kids);
  }

  // ---------------------------------------------------------------- what a load does to the others

  lemma {:induction false} InvalidClimbs(t: Cache, path: seq<nat>)
    requires OnPath(t, path) && AllInvalid(t)
    ensures Climbs(t, path, GETS)
    decreases |path|
  {
    if path != [] { InvalidClimbs(t.kids[path[0]].cache, path[1..]); }
  }

  lemma {:induction false} ClimbsFromInvalid(t: Cache, path: seq<nat>)
    requires OnPath(t, path) && Climbs(t, path, GETS)
    ensures At(t, path).state == I
    decreases |path|
  {
    if path != [] { ClimbsFromInvalid(t.kids[path[0]].cache, path[1..]); }
  }

  /** A sibling of a cache that holds the line is not exclusive, nor is anything below it. */
  lemma SiblingShares(t: Cache, c: nat, i: nat)
    requires Coherent(t) && c < |t.kids| && i < |t.kids| && i != c && t.kids[c].cache.state != I
    ensures NoOwner(t.kids[i].cache)
  {
    CoherentKid(t, i);
    CoherentKid(t, c);
    if Owner(t.kids[i].cache.state) { LoneSharer(t, c, i); }
  }

  /** Answering a GETS downgrades the exclusive copies beside the requester, and takes none away. */
  lemma TopGetsAt(t: Cache, c: nat, noexcl: bool, q: seq<nat>)
    requires Coherent(t) && t.state != I && c < |t.kids| && OnPath(t, q) && q != [] && q[0] != c
    ensures var u := TopGets(t, c, noexcl).c; OnPath(u, q) && At(u, q).state == Demoted(INVX, At(t, q).state)
  {
    var i := q[0];
    CoherentKid(t, i);
    if IsExclusive(t) {
      SomeSharer(t);
      SendsAt(t, INVX, q);
    } else {
      NoOwnerAt(t.kids[i].cache, q[1..]);
    }
  }

  /** A GETS leaves every copy off its way: exclusive ones are downgraded, and only if the
      requester did not hold the line; all others stay as they are. */
  lemma {:induction false} GetsAt(t: Cache, path: seq<nat>, noexcl: bool, grant: MesiState, q: seq<nat>)
    requires Coherent(t) && OnPath(t, path) && OnPath(t, q) && !(q <= path)
    requires Climbs(t, path, GETS) ==> Grantable(GETS, grant)
    ensures var r := Get(t, path, GETS, noexcl, grant).c;
      && OnPath(r, q)
      && At(r, q).state == if At(t, path).state == I then Demoted(INVX, At(t, q).state) else At(t, q).state
    decreases |path|
  {
    if path == [] {
      if t.state == I {
        Inclusion(t);
        AllInvalidAt(t, q);
      }
    } else {
      var c := path[0];
      var kid := t.kids[c].cache;
      CoherentKid(t, c);
      if !Climbs(kid, path[1..], GETS) {
        if kid.state == I {
          Inclusion(kid);
          InvalidClimbs(kid, path[1..]);
        }
        if q[0] == c {
          GetsAt(kid, path[1..], noexcl, I, q[1..]);
        } else {
          SiblingShares(t, c, q[0]);
          NoOwnerAt(t.kids[q[0]].cache, q[1..]);
        }
      } else {
        GetsThroughAt(t, path, noexcl, grant, q);
      }
    }
  }

  lemma ReadyToAnswer(t: Cache, c: nat, noexcl: bool, grant: MesiState)
    requires Coherent(t) && c < |t.kids| && t.kids[c].cache.state == I
    requires t.state == I ==> Grantable(GETS, grant)
    ensures var t1 := t.(state := Serve(t.state, GETS, grant));
      var a := TopGets(t1, c, noexcl);
      && Coherent(t1) && t1.state != I && |a.c.kids| == |t.kids|
      && Grantable(GETS, a.grant) && a.c.kids[c].cache == t.kids[c].cache
  {
    var t1 := t.(state := Serve(t.state, GETS, grant));
    ServedCoherent(t, t1.state);
    AnswerFits(t1, c, GETS, noexcl);
  }

  lemma {:induction false} GetsThroughAt(t: Cache, path: seq<nat>, noexcl: bool, grant: MesiState, q: seq<nat>)
    requires Coherent(t) && path != [] && OnPath(t, path) && OnPath(t, q) && !(q <= path)
    requires Climbs(t.kids[path[0]].cache, path[1..], GETS)
    requires Climbs(t, path, GETS) ==> Grantable(GETS, grant)
    ensures var r := Get(t, path, GETS, noexcl, grant).c;
      && OnPath(r, q) && At(t, path).state == I && At(r, q).state == Demoted(INVX, At(t, q).state)
    decreases |path|, 0
  {
    var c := path[0];
    var t1 := t.(state := Serve(t.state, GETS, grant));
    ReadyToAnswer(t, c, noexcl, grant);
    ClimbsFromInvalid(t.kids[c].cache, path[1..]);
    if q[0] == c {
      GetsAt(t.kids[c].cache, path[1..], noexcl, TopGets(t1, c, noexcl).grant, q[1..]);
    } else {
      TopGetsAt(t1, c, noexcl, q);
    }
  }

  /** No access touches what lies below the cache it is made at. */
  lemma {:induction false} GetLeavesBelow(t: Cache, path: seq<nat>, ty: AccessType, noexcl: bool, grant: MesiState)
    requires Coherent(t) && OnPath(t, path) && (ty == GETS || ty == GETX)
    requires Climbs(t, path, ty) ==> Grantable(ty, grant)
    ensures var r := Get(t, path, ty, noexcl, grant).c; OnPath(r, path) && At(r, path).kids == At(t, path).kids
    decreases |path|
  {
    if path != [] {
      var c := path[0];
      CoherentKid(t, c);
      if !Climbs(t.kids[c].cache, path[1..], ty) {
        GetLeavesBelow(t.kids[c].cache, path[1..], ty, noexcl, I);
      } else {
        var t1 := t.(state := Serve(t.state, ty, grant));
        ServedCoherent(t, t1.state);
        AnswerFits(t1, c, ty, noexcl);
        GetLeavesBelow(t.kids[c].cache, path[1..], ty, noexcl, TopGet(t1, c, ty, noexcl).grant);
      }
    }
  }

  // ---------------------------------------------------------------- when a reader gets the line exclusively

  /** Every cache that holds the line is above `path` and holds it exclusively. */
  ghost predicate HeldAbove(t: Cache, path: seq<nat>) {
    forall q :: OnPath(t, q) && At(t, q).state != I ==> q <= path && Owner(At(t, q).state)
  }

  lemma {:induction false} InvalidHoldsNothing(t: Cache, q: seq<nat>)
    requires Coherent(t) && t.state == I && OnPath(t, q)
    ensures At(t, q).state == I
    decreases |q|
  {
    Inclusion(t);
    AllInvalidAt(t, q);
  }

  lemma AtKid(t: Cache, i: nat, q: seq<nat>)
    requires i < |t.kids| && OnPath(t.kids[i].cache, q)
    ensures OnPath(t, [i] + q) && At(t, [i] + q) == At(t.kids[i].cache, q)
  {
    assert ([i] + q)[1..] == q;
  }

  /** One level of that. */
  lemma HeldAboveStep(t: Cache, path: seq<nat>)
    requires Coherent(t) && path != [] && OnPath(t, path) && t.state != I
    ensures HeldAbove(t, path) <==>
      && Owner(t.state) && HeldAbove(t.kids[path[0]].cache, path[1..])
      && forall i :: 0 <= i < |t.kids| && i != path[0] ==> t.kids[i].cache.state == I
  {
    if HeldAbove(t, path) { HeldAboveDown(t, path); }
    if Owner(t.state) && HeldAbove(t.kids[path[0]].cache, path[1..])
       && forall i :: 0 <= i < |t.kids| && i != path[0] ==> t.kids[i].cache.state == I {
      HeldAboveUp(t, path);
    }
  }

  lemma HeldAboveDown(t: Cache, path: seq<nat>)
    requires path != [] && OnPath(t, path) && t.state != I && HeldAbove(t, path)
    ensures Owner(t.state) && HeldAbove(t.kids[path[0]].cache, path[1..])
    ensures forall i :: 0 <= i < |t.kids| && i != path[0] ==> t.kids[i].cache.state == I
  {
    var c := path[0];
    assert OnPath(t, []);
    forall i | 0 <= i < |t.kids| && i != c
      ensures t.kids[i].cache.state == I
    {
      AtKid(t, i, []);
      assert !([i] <= path);
    }
    forall q | OnPath(t.kids[c].cache, q) && At(t.kids[c].cache, q).state != I
      ensures q <= path[1..] && Owner(At(t.kids[c].cache, q).state)
    {
      AtKid(t, c, q);
      assert [c] + q <= path;
    }
  }

  lemma HeldAboveUp(t: Cache, path: seq<nat>)
    requires Coherent(t) && path != [] && OnPath(t, path)
    requires Owner(t.state) && HeldAbove(t.kids[path[0]].cache, path[1..])
    requires forall i :: 0 <= i < |t.kids| && i != path[0] ==> t.kids[i].cache.state == I
    ensures HeldAbove(t, path)
  {
    forall q | OnPath(t, q) && At(t, q).state != I
      ensures q <= path && Owner(At(t, q).state)
    {
      if q != [] {
        var kid := t.kids[q[0]].cache;
        CoherentKid(t, q[0]);
        assert OnPath(kid, q[1..]) && At(t, q) == At(kid, q[1..]);
        if q[0] != path[0] { InvalidHoldsNothing(kid, q[1..]); }
        PrefixFromTails(q, path);
      }
    }
  }

  lemma PrefixFromTails(q: seq<nat>, path: seq<nat>)
    requires q != [] && path != []
    ensures q[0] == path[0] && q[1..] <= path[1..] ==> q <= path
  {
    assert q == [q[0]] + q[1..] && path == [path[0]] + path[1..];
  }

  /** A directory without sharers is one whose children hold nothing. */
  lemma NoSharersIff(t: Cache)
    requires Coherent(t)
    ensures t.num == 0 <==> forall i :: 0 <= i < |t.kids| ==> t.kids[i].cache.state == I
  {
    CountZero(t.kids);
    assert forall i :: 0 <= i < |t.kids| ==> LinkOk(t, t.kids[i]);
  }

  lemma NothingHeld(t: Cache, path: seq<nat>)
    requires Coherent(t) && t.state == I
    ensures HeldAbove(t, path)
  {
    forall q | OnPath(t, q)
      ensures At(t, q).state == I
    {
      InvalidHoldsNothing(t, q);
    }
  }

  /** A reader that did not hold the line gets it exclusively if and only if it did not decline
      that, nobody but the exclusive caches above it holds the line, and the level above this tree,
      if it had to be asked, granted it exclusively. */
  lemma {:induction false} GetsExclusiveIff(t: Cache, path: seq<nat>, noexcl: bool, grant: MesiState)
    requires Coherent(t) && OnPath(t, path) && At(t, path).state == I
    requires Climbs(t, path, GETS) ==> Grantable(GETS, grant)
    ensures var r := Get(t, path, GETS, noexcl, grant).c;
      && OnPath(r, path)
      && (Owner(At(r, path).state) <==>
            && (path != [] ==> !noexcl) && HeldAbove(t, path) && (t.state == I ==> grant == E))
    decreases |path|
  {
    if t.state == I { NothingHeld(t, path); }
    if path != [] {
      var c := path[0];
      var kid := t.kids[c].cache;
      CoherentKid(t, c);
      if t.state != I { HeldAboveStep(t, path); }
      if !Climbs(kid, path[1..], GETS) {
        if kid.state == I { Inclusion(kid); InvalidClimbs(kid, path[1..]); }
        KidHolds(t, path, noexcl);
      } else {
        KidClimbs(t, path, noexcl, grant);
      }
    }
  }

  /** The child on the way holds the line, so it answers by itself. */
  lemma {:induction false} KidHolds(t: Cache, path: seq<nat>, noexcl: bool)
    requires Coherent(t) && path != [] && OnPath(t, path) && At(t, path).state == I
    requires t.state != I && t.kids[path[0]].cache.state != I && !Climbs(t.kids[path[0]].cache, path[1..], GETS)
    ensures var r := Get(t.kids[path[0]].cache, path[1..], GETS, noexcl, I).c;
      && OnPath(r, path[1..])
      && (Owner(At(r, path[1..]).state) <==> !noexcl && HeldAbove(t, path))
    decreases |path|, 0
  {
    var c := path[0];
    CoherentKid(t, c);
    HeldAboveStep(t, path);
    GetsExclusiveIff(t.kids[c].cache, path[1..], noexcl, I);
    if Owner(t.kids[c].cache.state) {
      forall i | 0 <= i < |t.kids| && i != c
        ensures t.kids[i].cache.state == I
      {
        CoherentKid(t, i);
        LoneSharer(t, i, c);
      }
    } else {
      assert !HeldAbove(t.kids[c].cache, path[1..]) by { assert OnPath(t.kids[c].cache, []); }
    }
  }

  /** The child on the way does not, so this cache answers. */
  lemma {:induction false} KidClimbs(t: Cache, path: seq<nat>, noexcl: bool, grant: MesiState)
    requires Coherent(t) && path != [] && OnPath(t, path) && Climbs(t.kids[path[0]].cache, path[1..], GETS)
    requires t.state == I ==> Grantable(GETS, grant)
    ensures var r := Get(t, path, GETS, noexcl, grant).c;
      && OnPath(r, path)
      && (Owner(At(r, path).state) <==> !noexcl && HeldAbove(t, path) && (t.state == I ==> grant == E))
    decreases |path|, 0
  {
    var c := path[0];
    var kid := t.kids[c].cache;
    var t1 := t.(state := Serve(t.state, GETS, grant));
    var a := TopGets(t1, c, noexcl);
    ReadyToAnswer(t, c, noexcl, grant);
    ClimbsFromInvalid(kid, path[1..]);
    CoherentKid(t, c);
    GetsExclusiveIff(kid, path[1..], noexcl, a.grant);
    NothingHeld(kid, path[1..]);
    NoSharersIff(t);
    if t.state == I {
      NothingHeld(t, path);
      InvalidHasNoSharers(t);
    } else {
      HeldAboveStep(t, path);
    }
  }

  /** The same for a whole load: memory above the root grants exclusively unless that is declined. */
  lemma LoadExclusiveIff(t: Cache, p: seq<nat>, noexcl: bool)
    requires Coherent(t) && OnPath(t, p) && At(t, p).state == I
    ensures var r := Step(t, Load(p, noexcl)).c;
      OnPath(r, p) && (Owner(At(r, p).state) <==> !noexcl && HeldAbove(t, p))
  {
    GetsExclusiveIff(t, p, noexcl, MemoryGrant(GETS, noexcl));
  }

  // ---------------------------------------------------------------- what an eviction does to the others

  /** An eviction changes no cache outside the evicted subtree but the parent, which turns dirty
      exactly when dirty data was evicted. */
  lemma {:induction false} EvictsAt(t: Cache, path: seq<nat>, q: seq<nat>)
    requires Coherent(t) && OnPath(t, path) && OnPath(t, q) && !(path <= q)
    ensures var r := Evict(t, path).c;
      && OnPath(r, q)
      && At(r, q).state ==
           if |path| == |q| + 1 && q <= path && HasDirty(At(t, path)) then M else At(t, q).state
    decreases |path|
  {
    var c := path[0];
    var kid := t.kids[c].cache;
    CoherentKid(t, c);
    if |path| == 1 {
      EvictsKidAt(t, path, q);
    } else if q != [] && q[0] == c {
      EvictsAt(kid, path[1..], q[1..]);
    }
  }

  lemma EvictsKidAt(t: Cache, path: seq<nat>, q: seq<nat>)
    requires Coherent(t) && |path| == 1 && OnPath(t, path) && OnPath(t, q) && !(path <= q)
    ensures var r := Evict(t, path).c;
      && OnPath(r, q)
      && At(r, q).state == if q == [] && HasDirty(At(t, path)) then M else At(t, q).state
  {
    CoherentKid(t, path[0]);
    PurgeCorrect(t.kids[path[0]].cache);
    assert path[1..] == [];
  }

  // ---------------------------------------------------------------- whole transactions

  /** A load leaves every copy above its requester too; one turns from E to M only to take in
      dirty data. */
  lemma {:induction false} GetsAbove(t: Cache, path: seq<nat>, noexcl: bool, grant: MesiState, q: seq<nat>)
    requires Coherent(t) && OnPath(t, path) && q <= path && OnPath(t, q) && At(t, q).state != I
    requires Climbs(t, path, GETS) ==> Grantable(GETS, grant)
    ensures var r := Get(t, path, GETS, noexcl, grant).c;
      && OnPath(r, q)
      && (At(r, q).state == At(t, q).state || (At(t, q).state == E && At(r, q).state == M && HasDirty(t)))
    decreases |path|
  {
    if path != [] {
      var c := path[0];
      var kid := t.kids[c].cache;
      CoherentKid(t, c);
      if !Climbs(kid, path[1..], GETS) {
        if q != [] { GetsAbove(kid, path[1..], noexcl, I, q[1..]); }
      } else {
        ReadyToAnswer(t, c, noexcl, grant);
        var t1 := t.(state := Serve(t.state, GETS, grant));
        if q != [] {
          ClimbsFromInvalid(kid, path[1..]);
          InvalidHoldsNothing(kid, q[1..]);
        } else if !HasDirty(t) {
          TopGetsClean(t1, c, noexcl);
        } else {
          AnswerFits(t1, c, GETS, noexcl);
        }
      }
    }
  }

  /** What a transaction does to the state of every cache but the one it is made at and those
      above it. A load downgrades exclusive copies if its requester did not hold the line, and does
      nothing else. A store takes every copy beside its requester, and none below it. An eviction
      takes the copies below and nothing else. */
  lemma EffectOnOthers(t: Cache, op: Op, q: seq<nat>)
    requires Coherent(t) && OnPath(t, op.path) && OnPath(t, q) && !(q <= op.path)
    ensures var r := Step(t, op).c;
      && OnPath(r, q)
      && At(r, q).state ==
           match op
           case Load(p, _) => if At(t, p).state == I then Demoted(INVX, At(t, q).state) else At(t, q).state
           case Store(p) => if p <= q then At(t, q).state else I
           case Drop(p) => if p <= q then I else At(t, q).state
  {
    StepCorrect(t, op);
    match op
    case Load(p, noexcl) => GetsAt(t, p, noexcl, MemoryGrant(GETS, noexcl), q);
    case Store(p) => StoresAt(t, p, q);
    case Drop(p) => DropsAt(t, p, q);
  }

  lemma StoresAt(t: Cache, p: seq<nat>, q: seq<nat>)
    requires Coherent(t) && OnPath(t, p) && OnPath(t, q) && !(q <= p)
    ensures var r := Step(t, Store(p)).c; OnPath(r, q) && At(r, q).state == if p <= q then At(t, q).state else I
  {
    var r := Step(t, Store(p)).c;
    StepCorrect(t, Store(p));
    GetShape(t, p, GETX, false, M);
    ShapePath(t, r, q);
    if p <= q {
      GetLeavesBelow(t, p, GETX, false, M);
      assert q == p + q[|p|..];
      BelowSame(t, r, p, q[|p|..]);
    } else {
      SingleWriter(r, p, q);
    }
  }

  lemma {:induction false} GetShape(t: Cache, path: seq<nat>, ty: AccessType, noexcl: bool, grant: MesiState)
    requires OnPath(t, path)
    ensures SameShape(t, Get(t, path, ty, noexcl, grant).c)
    decreases |path|
  {
    ShapeRefl(t);
    if path != [] {
      var c := path[0];
      var s := Serve(t.state, ty, grant);
      if !Climbs(t.kids[c].cache, path[1..], ty) {
        GetShape(t.kids[c].cache, path[1..], ty, noexcl, I);
        KidShape(t, t, c, Get(t.kids[c].cache, path[1..], ty, noexcl, I).c);
      } else {
        var a := TopGet(t.(state := s), c, ty, noexcl);
        TopGetShape(t.(state := s), c, ty, noexcl);
        ShapePath(t.kids[c].cache, a.c.kids[c].cache, path[1..]);
        GetShape(a.c.kids[c].cache, path[1..], ty, noexcl, a.grant);
        KidShape(t, a.c, c, Get(a.c.kids[c].cache, path[1..], ty, noexcl, a.grant).c);
      }
    }
  }

  lemma {:induction false} ShapeTrans(a: Cache, b: Cache, c: Cache)
    requires SameShape(a, b) && SameShape(b, c)
    ensures SameShape(a, c)
  {
    forall i | 0 <= i < |a.kids|
      ensures SameShape(a.kids[i].cache, c.kids[i].cache)
    {
      ShapeTrans(a.kids[i].cache, b.kids[i].cache, c.kids[i].cache);
    }
  }

  lemma KidShape(t: Cache, u: Cache, c: nat, k: Cache)
    requires SameShape(t, u) && c < |u.kids| && SameShape(u.kids[c].cache, k)
    ensures SameShape(t, SetKid(u, c, k))
  {
    ShapeTrans(t.kids[c].cache, u.kids[c].cache, k);
  }

  lemma {:induction false} BelowSame(t: Cache, r: Cache, p: seq<nat>, q: seq<nat>)
    requires OnPath(t, p) && OnPath(r, p) && At(t, p).kids == At(r, p).kids && q != []
    requires OnPath(t, p + q) && OnPath(r, p + q)
    ensures At(t, p + q) == At(r, p + q)
    decreases |p|
  {
    if p != [] {
      assert (p + q)[1..] == p[1..] + q;
      BelowSame(t.kids[p[0]].cache, r.kids[p[0]].cache, p[1..], q);
    } else {
      assert p + q == q;
    }
  }

  lemma DropsAt(t: Cache, p: seq<nat>, q: seq<nat>)
    requires Coherent(t) && OnPath(t, p) && OnPath(t, q) && !(q <= p)
    ensures var r := Step(t, Drop(p)).c; OnPath(r, q) && At(r, q).state == if p <= q then I else At(t, q).state
  {
    if p <= q {
      StepCorrect(t, Drop(p));
      EvictShape(t, p);
      ShapePath(t, Evict(t, p).c, q);
      assert q == p + q[|p|..];
      EmptyBelow(Evict(t, p).c, p, q[|p|..]);
    } else {
      EvictsAt(t, p, q);
    }
  }

  lemma {:induction false} EmptyBelow(r: Cache, p: seq<nat>, q: seq<nat>)
    requires OnPath(r, p) && AllInvalid(At(r, p)) && OnPath(r, p + q)
    ensures At(r, p + q).state == I
    decreases |p|
  {
    if p != [] {
      assert (p + q)[1..] == p[1..] + q;
      EmptyBelow(r.kids[p[0]].cache, p[1..], q);
    } else {
      assert p + q == q;
      AllInvalidAt(r, q);
    }
  }

  lemma {:induction false} EvictShape(t: Cache, path: seq<nat>)
    requires OnPath(t, path)
    ensures SameShape(t, Evict(t, path).c)
    decreases |path|
  {
    ShapeRefl(t);
    if path == [] {
      InvalidateShape(t, INV);
    } else {
      var c := path[0];
      var kid := t.kids[c].cache;
      if |path| == 1 {
        InvalidateShape(kid, INV);
      } else {
        EvictShape(kid, path[1..]);
        KidShape(t, t, c, Evict(kid, path[1..]).c);
      }
    }
  }

  // ---------------------------------------------------------------- where dirty data comes from

  lemma CleanKids(t: Cache, i: nat)
    requires !HasDirty(t) && i < |t.kids|
    ensures !HasDirty(t.kids[i].cache)
  {
  }

  /** Clean children and a state other than M make a clean cache. */
  lemma CleanFrom(t: Cache)
    requires t.state != M && forall i :: 0 <= i < |t.kids| ==> !HasDirty(t.kids[i].cache)
    ensures !HasDirty(t)
  {
  }

  lemma TopGetsClean(t: Cache, c: nat, noexcl: bool)
    requires Coherent(t) && t.state != I && c < |t.kids| && t.kids[c].cache.state == I && !HasDirty(t)
    ensures var a := TopGets(t, c, noexcl);
      !a.wb && a.c.state == t.state && forall i :: 0 <= i < |a.c.kids| ==> !HasDirty(a.c.kids[i].cache)
  {
    var a := TopGets(t, c, noexcl);
    TopGetsCorrect(t, c, noexcl);
    if !(t.num == 0 && Owner(t.state) && !noexcl) && IsExclusive(t) {
      SomeSharer(t);
      SendCorrect(t, INVX);
      forall i | 0 <= i < |a.c.kids|
        ensures !HasDirty(a.c.kids[i].cache)
      {
        NoOwnerNoDirty(a.c.kids[i].cache);
      }
    }
  }

  /** A load creates no dirty data. */
  lemma {:induction false} GetsClean(t: Cache, path: seq<nat>, noexcl: bool, grant: MesiState)
    requires Coherent(t) && OnPath(t, path) && !HasDirty(t)
    requires Climbs(t, path, GETS) ==> Grantable(GETS, grant)
    ensures var r := Get(t, path, GETS, noexcl, grant); !HasDirty(r.c) && !r.wb
    decreases |path|
  {
    if path != [] {
      var c := path[0];
      var kid := t.kids[c].cache;
      CoherentKid(t, c);
      if !Climbs(kid, path[1..], GETS) {
        GetsClean(kid, path[1..], noexcl, I);
      } else {
        var t1 := t.(state := Serve(t.state, GETS, grant));
        ReadyToAnswer(t, c, noexcl, grant);
        CleanFrom(t1);
        TopGetsClean(t1, c, noexcl);
        GetsClean(kid, path[1..], noexcl, TopGets(t1, c, noexcl).grant);
      }
    }
  }

  lemma PurgeClean(t: Cache)
    requires Coherent(t)
    ensures HasDirty(Purge(t).c) <==> HasDirty(t)
  {
    PurgeCorrect(t);
    var r := Purge(t).c;
    forall i | 0 <= i < |r.kids|
      ensures !HasDirty(r.kids[i].cache)
    {
      assert AllInvalid(r.(state := I).kids[i].cache);
      AllInvalidNoOwner(r.kids[i].cache);
      NoOwnerNoDirty(r.kids[i].cache);
    }
  }

  /** An eviction creates none either. */
  lemma {:induction false} EvictClean(t: Cache, path: seq<nat>)
    requires Coherent(t) && OnPath(t, path) && !HasDirty(t)
    ensures var r := Evict(t, path); !HasDirty(r.c) && !r.wb
    decreases |path|
  {
    if path == [] {
      PurgeClean(t);
      EvictCorrect(t, []);
    } else {
      var kid := t.kids[path[0]].cache;
      CoherentKid(t, path[0]);
      if |path| == 1 { PurgeClean(kid); PurgeCorrect(kid); } else { EvictClean(kid, path[1..]); }
    }
  }

  /** Dirty data comes from stores alone, and leaves by writebacks to memory alone: any other
      transaction has some, in a cache or on its way to memory, exactly when there was some. */
  lemma DirtyIffBefore(t: Cache, op: Op)
    requires Coherent(t) && OnPath(t, op.path) && !op.Store?
    ensures var r := Step(t, op); HasDirty(r.c) || (op.Drop? && r.wb) <==> HasDirty(t)
  {
    StepCorrect(t, op);
    if !HasDirty(t) {
      match op
      case Load(p, noexcl) => GetsClean(t, p, noexcl, MemoryGrant(GETS, noexcl));
      case Drop(p) => EvictClean(t, p);
    }
  }

  /** In a run from a tree without dirty data nothing is written to memory before the first store. */
  lemma {:induction false} NoWritebackBeforeStore(trace: seq<Cache>, ops: seq<Op>, k: nat)
    requires IsRun(trace, ops) && Coherent(trace[0]) && !HasDirty(trace[0]) && k < |trace|
    requires forall i :: 0 <= i < k ==> !ops[i].Store?
    ensures Coherent(trace[k]) && !HasDirty(trace[k]) && !WroteBack(trace, ops, 0, k)
    ensures k < |ops| && ops[k].Drop? ==> !Step(trace[k], ops[k]).wb
  {
    if k > 0 {
      NoWritebackBeforeStore(trace, ops, k - 1);
      StepCorrect(trace[k - 1], ops[k - 1]);
      DirtyIffBefore(trace[k - 1], ops[k - 1]);
    }
    if k < |ops| && ops[k].Drop? { DirtyIffBefore(trace[k], ops[k]); }
  }
}
