/** Where dirty data comes from when requests are in flight: nothing but a store creates any, and
    nothing is written back that was not stored. */
module MesiClean {
  import opened Option
  import opened Mesi
  import opened MesiTree
  import opened MesiEffects
  import Races = MesiRaces
  import Whole = MesiConcurrent
  import Runs = MesiProgress

  lemma CleanSetKid(t: Cache, c: nat, k: Cache)
    requires !HasDirty(t) && c < |t.kids| && !HasDirty(k)
    ensures !HasDirty(SetKid(t, c, k))
  {
    var u := SetKid(t, c, k);
    forall i | 0 <= i < |u.kids|
      ensures !HasDirty(u.kids[i].cache)
    {
      if i != c { assert u.kids[i] == t.kids[i]; }
    }
  }

  /** A cache that hands in its line is clean below. */
  lemma HandedIn(k: Cache)
    requires Races.Purged(k)
    ensures !HasDirty(k.(state := I)) && (k.state != M ==> !HasDirty(k))
  {
    AllInvalidNoOwner(k.(state := I));
    NoOwnerNoDirty(k.(state := I));
    if k.state != M && HasDirty(k) { Races.PurgedDirty(k); }
  }

  lemma InvalidateClean(t: Cache, inv: InvType)
    requires Invalidatable(t, inv)
    ensures !HasDirty(Invalidate(t, inv).c)
  {
    InvalidateCorrect(t, inv);
    if inv == INV { AllInvalidNoOwner(Invalidate(t, inv).c); }
    NoOwnerNoDirty(Invalidate(t, inv).c);
  }

  // ---------------------------------------------------------------- one parent and its children

  /** The steps that carry out a store. */
  predicate Stores(s: Races.Sys, step: Races.Step)
    requires Races.WellFormed(s) && Races.Enabled(s, step)
  {
    match step
    case Inner(_, op) => op.Store?
    case Serve(c) => s.pend[c].value.ty == GETX
    case Granted(_) => s.pend[s.up.value.c].value.ty == GETX
    case _ => false
  }

  /** Finishing a GETS creates no dirty data. */
  lemma FinishClean(s: Races.Sys, c: nat)
    requires |s.pend| == |s.top.kids| && c < |s.pend| && s.pend[c].Some? && Coherent(s.top) && !HasDirty(s.top)
    requires s.pend[c].value.ty == GETS && s.top.state != I && Races.PendOk(s.top.kids[c].cache, s.pend[c].value)
    ensures !HasDirty(Races.Finish(s, c).sys.top)
  {
    var r := s.pend[c].value;
    CoherentKid(s.top, c);
    TopGetsClean(s.top, c, r.noexcl);
    AnswerFits(s.top, c, GETS, r.noexcl);
    var a := TopGets(s.top, c, r.noexcl);
    CleanFrom(a.c);
    GetsClean(s.top.kids[c].cache, r.path, r.noexcl, a.grant);
    CleanSetKid(a.c, c, Get(s.top.kids[c].cache, r.path, GETS, r.noexcl, a.grant).c);
  }

  lemma ServeClean(s: Races.Sys, c: nat)
    requires Races.SysOk(s) && Races.Enabled(s, Races.Serve(c)) && !HasDirty(s.top) && s.pend[c].value.ty != GETX
    ensures var o := Races.ServeChild(s, c); !HasDirty(o.sys.top) && !o.out
  {
    var r, k := s.pend[c].value, s.top.kids[c].cache;
    assert Races.PendOk(k, r);
    CoherentKid(s.top, c);
    if r.ty == GETS {
      if s.top.state != I { FinishClean(s, c); }
    } else {
      HandedIn(k);
      var race := Races.CheckForMesiRace(r.ty, k.state, r.init);
      if !race.skip { PutClean(s.top, c, k); }
    }
  }

  lemma PutClean(t: Cache, c: nat, k: Cache)
    requires !HasDirty(t) && c < |t.kids| && !HasDirty(k.(state := I))
    ensures !HasDirty(SetKid(TopPut(t, c, PUTS).c, c, k.(state := I)))
  {
    var u := SetKid(TopPut(t, c, PUTS).c, c, k.(state := I));
    forall i | 0 <= i < |u.kids|
      ensures !HasDirty(u.kids[i].cache)
    {
      if i != c { assert u.kids[i] == t.kids[i]; }
    }
  }

  /** No step of any interleaving but one that carries out a store makes anything dirty, and none
      hands dirty data up when there is none. */
  lemma StepClean(s: Races.Sys, step: Races.Step)
    requires Races.SysOk(s) && Races.Enabled(s, step) && !HasDirty(s.top) && !Stores(s, step)
    ensures var o := Races.Next(s, step); !HasDirty(o.sys.top) && !o.out
  {
    match step
    case IssueGet(_, _, _, _) =>
    case IssuePut(c) =>
      CoherentKid(s.top, c);
      PurgeClean(s.top.kids[c].cache);
      CleanSetKid(s.top, c, Purge(s.top.kids[c].cache).c);
    case Inner(c, op) =>
      CoherentKid(s.top, c);
      DirtyIffBefore(s.top.kids[c].cache, op);
      CleanSetKid(s.top, c, MesiTree.Step(s.top.kids[c].cache, op).c);
    case Serve(c) => ServeClean(s, c);
    case Granted(g) => GrantedClean(s, g);
    case AboveInval(inv) =>
      Races.AboveInvalCorrect(s, inv);
      InvalidateClean(s.top, inv);
    case TopEvict => PurgeClean(s.top);
    case TopEvictDone => HandedIn(s.top);
  }

  lemma GrantedClean(s: Races.Sys, g: MesiState)
    requires Races.SysOk(s) && Races.Enabled(s, Races.Granted(g)) && !HasDirty(s.top) && !Stores(s, Races.Granted(g))
    ensures var o := Races.Next(s, Races.Granted(g)); !HasDirty(o.sys.top) && !o.out
  {
    var c := s.up.value.c;
    assert Races.PendOk(s.top.kids[c].cache, s.pend[c].value);
    ServedCoherent(s.top, g);
    CleanFrom(s.top.(state := g));
    FinishClean(s.(top := s.top.(state := g)), c);
  }

  /** In a run without dirty data at first, none is handed up before a store is carried out. */
  lemma {:induction false} NoneHandedUpBeforeStore(trace: seq<Races.Sys>, steps: seq<Races.Step>, k: nat)
    requires Races.IsRun(trace, steps) && Races.SysOk(trace[0]) && !HasDirty(trace[0].top) && k < |trace|
    requires forall i :: 0 <= i < k ==> !Stores(trace[i], steps[i])
    ensures Races.SysOk(trace[k]) && !HasDirty(trace[k].top) && !Races.HandedUp(trace, steps, 0, k)
  {
    if k > 0 {
      NoneHandedUpBeforeStore(trace, steps, k - 1);
      Races.StepCorrect(trace[k - 1], steps[k - 1]);
      StepClean(trace[k - 1], steps[k - 1]);
    }
  }

  // ---------------------------------------------------------------- requests at every level

  /** Memory never invalidates, so the root is still in the state it sent its request in. */
  predicate RootStill(s: Whole.State) {
    [] in s.pend ==> s.tree.state == s.pend[[]].init
  }

  lemma RootStaysStill(s: Whole.State, e: Whole.Event)
    requires Whole.WellFormed(s) && Whole.Enabled(s, e) && RootStill(s)
    ensures RootStill(Whole.Next(s, e).s)
  {
  }

  lemma {:induction false} CleanAt(t: Cache, p: seq<nat>)
    requires OnPath(t, p) && !HasDirty(t)
    ensures !HasDirty(At(t, p))
    decreases |p|
  {
    if p != [] { CleanAt(t.kids[p[0]].cache, p[1..]); }
  }

  lemma {:induction false} ReplaceClean(t: Cache, p: seq<nat>, k: Cache)
    requires OnPath(t, p) && !HasDirty(t) && !HasDirty(k)
    ensures !HasDirty(Whole.ReplaceAt(t, p, k))
    decreases |p|
  {
    if p != [] {
      ReplaceClean(t.kids[p[0]].cache, p[1..], k);
      CleanSetKid(t, p[0], Whole.ReplaceAt(t.kids[p[0]].cache, p[1..], k));
    }
  }

  /** The events that carry out a store. */
  predicate StoresHere(s: Whole.State, e: Whole.Event)
    requires Whole.Enabled(s, e)
  {
    match e
    case Request(_, ty, _) => ty == GETX
    case TakeUp(p, c) => s.pend[p + [c]].ty == GETX
    case Memory => s.pend[[]].ty == GETX
    case Vacate(_) => false
  }

  lemma TakeUpClean(s: Whole.State, p: seq<nat>, c: nat)
    requires Whole.Ok(s) && Whole.WellFormed(s) && Whole.Enabled(s, Whole.TakeUp(p, c)) && !HasDirty(s.tree)
    requires s.pend[p + [c]].ty != GETX
    ensures !HasDirty(Whole.Next(s, Whole.TakeUp(p, c)).s.tree)
  {
    Whole.ViewOk(s, p, c);
    CleanAt(s.tree, p);
    ServeClean(Whole.View(s, p, c), c);
    ReplaceClean(s.tree, p, Races.ServeChild(Whole.View(s, p, c), c).sys.top);
  }

  lemma MemoryClean(s: Whole.State)
    requires Whole.Ok(s) && Whole.WellFormed(s) && Whole.Enabled(s, Whole.Memory) && !HasDirty(s.tree)
    requires RootStill(s) && s.pend[[]].ty != GETX
    ensures var o := Whole.Next(s, Whole.Memory); !HasDirty(o.s.tree) && !o.out
  {
    var r := s.pend[[]];
    assert Whole.SenderOk(At(s.tree, []), r);
    if r.ty == GETS {
      Whole.ChainClimbs(s, []);
      GetsClean(s.tree, r.path, r.noexcl, MemoryGrant(GETS, r.noexcl));
    } else {
      HandedIn(s.tree);
    }
  }

  /** Nor does any event with requests under way at every level. */
  lemma EventClean(s: Whole.State, e: Whole.Event)
    requires Whole.Ok(s) && Whole.WellFormed(s) && Whole.Enabled(s, e) && RootStill(s)
    requires !HasDirty(s.tree) && !StoresHere(s, e)
    ensures var o := Whole.Next(s, e); !HasDirty(o.s.tree) && !o.out
  {
    match e
    case Request(p, ty, noexcl) => RequestClean(s, p, noexcl);
    case Vacate(p) =>
      CleanAt(s.tree, p);
      Whole.CoherentAt(s.tree, p);
      PurgeClean(At(s.tree, p));
      ReplaceClean(s.tree, p, Purge(At(s.tree, p)).c);
    case TakeUp(p, c) => TakeUpClean(s, p, c);
    case Memory => MemoryClean(s);
  }

  lemma RequestClean(s: Whole.State, p: seq<nat>, noexcl: bool)
    requires Whole.Ok(s) && Whole.WellFormed(s) && Whole.Enabled(s, Whole.Request(p, GETS, noexcl)) && !HasDirty(s.tree)
    ensures var o := Whole.Next(s, Whole.Request(p, GETS, noexcl)); !HasDirty(o.s.tree) && !o.out
  {
    if !NeedsUp(At(s.tree, p).state, GETS) {
      CleanAt(s.tree, p);
      ReplaceClean(s.tree, p, Get(At(s.tree, p), [], GETS, noexcl, I).c);
    }
  }

  lemma StepStaysClean(s: Whole.State, e: Whole.Event, s': Whole.State)
    requires Whole.Ok(s) && Runs.Steps(s, e, s') && RootStill(s) && !HasDirty(s.tree) && !StoresHere(s, e)
    ensures Whole.Ok(s') && RootStill(s') && !HasDirty(s'.tree) && !Whole.Next(s, e).out
  {
    Runs.RunStep(s, e, s');
    RootStaysStill(s, e);
    EventClean(s, e);
  }

  /** The events up to k carry out no store. */
  predicate NoStoreUpTo(trace: seq<Whole.State>, es: seq<Whole.Event>, k: nat)
    requires k <= |es| == |trace| - 1
  {
    forall i | 0 <= i < k :: Runs.StepAt(trace, es, i) && !StoresHere(trace[i], es[i])
  }

  /** In a run of the whole tree without dirty data at first, none goes to memory before a store is
      carried out, whatever requests are under way. */
  lemma NoneWrittenBeforeStore(trace: seq<Whole.State>, es: seq<Whole.Event>, k: nat)
    requires Runs.IsRun(trace, es) && Whole.Ok(trace[0]) && RootStill(trace[0]) && !HasDirty(trace[0].tree)
    requires k <= |es| && NoStoreUpTo(trace, es, k)
    ensures Whole.Ok(trace[k]) && !HasDirty(trace[k].tree)
    ensures forall i :: 0 <= i < k ==> !Runs.ToMemory(trace, es, i)
  {
    CleanUpTo(trace, es, k);
    forall i | 0 <= i < k
      ensures !Runs.ToMemory(trace, es, i)
    {
      CleanUpTo(trace, es, i);
      assert Runs.StepAt(trace, es, i) && !StoresHere(trace[i], es[i]);
      StepStaysClean(trace[i], es[i], trace[i + 1]);
    }
  }

  lemma CleanUpTo(trace: seq<Whole.State>, es: seq<Whole.Event>, k: nat)
    requires Runs.IsRun(trace, es) && Whole.Ok(trace[0]) && RootStill(trace[0]) && !HasDirty(trace[0].tree)
    requires k <= |es| && NoStoreUpTo(trace, es, k)
    ensures Whole.Ok(trace[k]) && RootStill(trace[k]) && !HasDirty(trace[k].tree)
  {
    var i := 0;
    while i < k
      invariant i <= k && Whole.Ok(trace[i]) && RootStill(trace[i]) && !HasDirty(trace[i].tree)
    {
      assert Runs.StepAt(trace, es, i) && !StoresHere(trace[i], es[i]);
      StepStaysClean(trace[i], es[i], trace[i + 1]);
      i := i + 1;
    }
  }
}
