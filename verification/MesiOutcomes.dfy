/** What the events of MesiConcurrent.dfy do to each cache of the tree, whoever else is waiting. */
module MesiOutcomes {
  import opened Option
  import opened Mesi
  import opened MesiTree
  import opened MesiEffects
  import Races = MesiRaces
  import opened MesiConcurrent

  /** Where an event works. */
  function Place(e: Event): seq<nat> {
    match e
    case Request(p, _, _) => p
    case Vacate(p) => p
    case TakeUp(p, _) => p
    case Memory => []
  }

  /** Nothing changes outside the subtree of the cache that works. */
  lemma NothingElsewhere(s: State, e: Event, q: seq<nat>)
    requires WellFormed(s) && Enabled(s, e) && OnPath(s.tree, q) && !(Place(e) <= q)
    ensures var t := Next(s, e).s.tree; OnPath(t, q) && At(t, q).state == At(s.tree, q).state
  {
    match e
    case Request(p, ty, noexcl) => ReplaceOutside(s.tree, p, Get(At(s.tree, p), [], ty, noexcl, I).c, q);
    case Vacate(p) => ReplaceOutside(s.tree, p, Purge(At(s.tree, p)).c, q);
    case TakeUp(p, c) =>
      AtStep(s.tree, p, c);
      ReplaceOutside(s.tree, p, Races.ServeChild(View(s, p, c), c).sys.top, q);
  }

  /** The work of a GETS or GETX that is taken up and served at `p`, for the cache at the end of the
      chain: what it leaves at every other cache of the subtree. A GETS downgrades the exclusive
      copies off its way and takes none; a GETX takes all copies but those below its requester. */
  lemma TakeUpGetAt(s: State, p: seq<nat>, c: nat, q: seq<nat>)
    requires Ok(s) && WellFormed(s) && Enabled(s, TakeUp(p, c)) && IsGet(s.pend[p + [c]].ty)
    requires !NeedsUp(At(s.tree, p).state, s.pend[p + [c]].ty)
    requires OnPath(s.tree, p + q) && !(q <= [c] + s.pend[p + [c]].path)
    ensures var r := s.pend[p + [c]];
      var t := Next(s, TakeUp(p, c)).s.tree;
      && OnPath(t, p + q)
      && At(t, p + q).state ==
           if r.ty == GETS then Demoted(INVX, At(s.tree, p + q).state)
           else if [c] + r.path <= q then At(s.tree, p + q).state
           else I
  {
    var k, r := At(s.tree, p), s.pend[p + [c]];
    var path := [c] + r.path;
    TakeUpIsGet(s, p, c);
    CoherentAt(s.tree, p);
    AtSplit(s.tree, p, q);
    if r.ty == GETS {
      AtStep(s.tree, p, c);
      ClimbsFromInvalid(k.kids[c].cache, r.path);
      assert At(k, path).state == I by { assert path[1..] == r.path; }
      GetsAt(k, path, r.noexcl, I, q);
    } else {
      GetxAt(k, path, r.noexcl, I, q);
    }
    ReplaceInside(s.tree, p, Get(k, path, r.ty, r.noexcl, I).c, q);
  }

  lemma GetxAt(k: Cache, path: seq<nat>, noexcl: bool, grant: MesiState, q: seq<nat>)
    requires Coherent(k) && OnPath(k, path) && OnPath(k, q) && !(q <= path) && (Owner(k.state) || grant == M)
    ensures var u := Get(k, path, GETX, noexcl, grant).c;
      OnPath(u, q) && At(u, q).state == if path <= q then At(k, q).state else I
  {
    var u := Get(k, path, GETX, noexcl, grant).c;
    GetCorrect(k, path, GETX, noexcl, grant);
    GetShape(k, path, GETX, noexcl, grant);
    ShapePath(k, u, q);
    if path <= q {
      GetLeavesBelow(k, path, GETX, noexcl, grant);
      assert q == path + q[|path|..];
      BelowSame(k, u, path, q[|path|..]);
    } else {
      SingleWriter(u, path, q);
    }
  }

  /** A reader whose GETS is served at `p` gets the line exclusively if and only if it did not
      decline that and nobody in the subtree but exclusive caches on the way holds the line. */
  lemma TakeUpExclusiveIff(s: State, p: seq<nat>, c: nat)
    requires Ok(s) && WellFormed(s) && Enabled(s, TakeUp(p, c)) && s.pend[p + [c]].ty == GETS
    requires At(s.tree, p).state != I
    ensures var r := s.pend[p + [c]];
      var t, full := Next(s, TakeUp(p, c)).s.tree, p + ([c] + r.path);
      && OnPath(t, full)
      && (Owner(At(t, full).state) <==> !r.noexcl && HeldAbove(At(s.tree, p), [c] + r.path))
  {
    var k, r := At(s.tree, p), s.pend[p + [c]];
    var path := [c] + r.path;
    TakeUpIsGet(s, p, c);
    CoherentAt(s.tree, p);
    AtStep(s.tree, p, c);
    ClimbsFromInvalid(k.kids[c].cache, r.path);
    assert At(k, path).state == I by { assert path[1..] == r.path; }
    GetsExclusiveIff(k, path, r.noexcl, I);
    ReplaceInside(s.tree, p, Get(k, path, GETS, r.noexcl, I).c, path);
  }

  /** Memory's answer to a GETS: exclusive exactly if not declined, all the way down the chain. */
  lemma MemoryExclusiveIff(s: State)
    requires Ok(s) && WellFormed(s) && Enabled(s, Memory) && s.pend[[]].ty == GETS
    ensures var r := s.pend[[]];
      var t := Next(s, Memory).s.tree;
      OnPath(t, r.path) && (Owner(At(t, r.path).state) <==> !r.noexcl)
  {
    var r := s.pend[[]];
    assert SenderOk(At(s.tree, []), r);
    ChainClimbs(s, []);
    ClimbsFromInvalid(s.tree, r.path);
    NothingHeld(s.tree, r.path);
    GetsExclusiveIff(s.tree, r.path, r.noexcl, MemoryGrant(GETS, r.noexcl));
  }

  /** What memory's answer leaves at every cache off the chain it answers. */
  lemma MemoryAt(s: State, q: seq<nat>)
    requires Ok(s) && WellFormed(s) && Enabled(s, Memory) && OnPath(s.tree, q) && !(q <= s.pend[[]].path)
    ensures var r := s.pend[[]];
      var t := Next(s, Memory).s.tree;
      && OnPath(t, q)
      && At(t, q).state == if r.ty == GETX && !(r.path <= q) then I else At(s.tree, q).state
  {
    var r := s.pend[[]];
    assert SenderOk(At(s.tree, []), r);
    ChainClimbs(s, []);
    if r.ty == GETS {
      ClimbsFromInvalid(s.tree, r.path);
      GetsAt(s.tree, r.path, r.noexcl, MemoryGrant(GETS, r.noexcl), q);
      InvalidHoldsNothing(s.tree, q);
    } else if r.ty == GETX {
      GetxAt(s.tree, r.path, r.noexcl, M, q);
    }
  }

  /** A cache's own request changes nothing but the cache itself, and that only when a store hits. */
  lemma RequestAt(s: State, p: seq<nat>, ty: AccessType, noexcl: bool, q: seq<nat>)
    requires Ok(s) && WellFormed(s) && Enabled(s, Request(p, ty, noexcl)) && OnPath(s.tree, p + q)
    ensures var t := Next(s, Request(p, ty, noexcl)).s.tree;
      && OnPath(t, p + q)
      && At(t, p + q).state ==
           if q == [] && ty == GETX && Owner(At(s.tree, p).state) then M else At(s.tree, p + q).state
  {
    var k := At(s.tree, p);
    AtSplit(s.tree, p, q);
    if !NeedsUp(k.state, ty) {
      ReplaceInside(s.tree, p, Get(k, [], ty, noexcl, I).c, q);
    }
    if q == [] { assert p + q == p; }
  }

  /** A writeback that is taken up takes its sender's copy, turns the parent to M exactly if that copy
      was dirty, and changes nothing else. */
  lemma TakeUpPutAt(s: State, p: seq<nat>, c: nat, q: seq<nat>)
    requires Ok(s) && WellFormed(s) && Enabled(s, TakeUp(p, c)) && !IsGet(s.pend[p + [c]].ty)
    requires OnPath(s.tree, p + q)
    ensures var t := Next(s, TakeUp(p, c)).s.tree;
      && OnPath(t, p + q)
      && At(t, p + q).state ==
           if q == [c] then I
           else if q == [] && At(s.tree, p + [c]).state == M then M
           else At(s.tree, p + q).state
  {
    ViewOk(s, p, c);
    var v := View(s, p, c);
    var u := Races.ServeChild(v, c).sys.top;
    AtStep(s.tree, p, c);
    AtSplit(s.tree, p, q);
    if q == [] { assert p + q == p; }
    CoherentKid(v.top, c);
    PutAt(v, c, q);
    TakeUpPutTree(s, p, c);
    ReplaceInside(s.tree, p, u, q);
  }

  lemma TakeUpPutTree(s: State, p: seq<nat>, c: nat)
    requires Ok(s) && WellFormed(s) && Enabled(s, TakeUp(p, c)) && !IsGet(s.pend[p + [c]].ty)
    ensures Races.Enabled(View(s, p, c), Races.Serve(c))
    ensures Next(s, TakeUp(p, c)).s.tree == ReplaceAt(s.tree, p, Races.ServeChild(View(s, p, c), c).sys.top)
  {
    TakeUpPutWork(s, p, c);
  }

  lemma PutAt(v: Races.Sys, c: nat, q: seq<nat>)
    requires Races.WellFormed(v) && Races.Enabled(v, Races.Serve(c)) && !IsGet(v.pend[c].value.ty) && OnPath(v.top, q)
    requires LinkOk(v.top, v.top.kids[c]) && Races.PendOk(v.top.kids[c].cache, v.pend[c].value)
    ensures var u := Races.ServeChild(v, c).sys.top;
      && OnPath(u, q)
      && At(u, q).state ==
           if q == [c] then I
           else if q == [] && v.top.kids[c].cache.state == M then M
           else At(v.top, q).state
  {
    var k := v.top.kids[c].cache;
    if q != [] && q[0] == c {
      assert q == [c] + q[1..];
      if q[1..] != [] { SameBelow(k, Races.ServeChild(v, c).sys.top.kids[c].cache, q[1..]); }
    }
  }

  lemma SameBelow(k: Cache, k': Cache, q: seq<nat>)
    requires k'.kids == k.kids && q != [] && OnPath(k, q)
    ensures OnPath(k', q) && At(k', q) == At(k, q)
  {
  }

  /** An eviction takes every copy below; the cache itself turns to M exactly to take in dirty data. */
  lemma VacateAt(s: State, p: seq<nat>, q: seq<nat>)
    requires Ok(s) && WellFormed(s) && Enabled(s, Vacate(p)) && OnPath(s.tree, p + q)
    ensures var t := Next(s, Vacate(p)).s.tree;
      && OnPath(t, p + q)
      && At(t, p + q).state ==
           if q != [] then I else if HasDirty(At(s.tree, p)) then M else At(s.tree, p).state
  {
    var k := At(s.tree, p);
    CoherentAt(s.tree, p);
    AtSplit(s.tree, p, q);
    PurgeCorrect(k);
    InvalidateShape(k, INV);
    ShapePath(k, Purge(k).c, q);
    if q != [] { AllInvalidAt(Purge(k).c.kids[q[0]].cache, q[1..]); } else { assert p + q == p; }
    if q != [] { assert AllInvalid(Purge(k).c.(state := I).kids[q[0]].cache); }
    ReplaceInside(s.tree, p, Purge(k).c, q);
  }
}
