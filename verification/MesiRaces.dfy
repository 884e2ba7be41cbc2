/** One cache and its children while requests are in flight. Child locks are dropped while a
    request climbs, so invalidations from above, and those caused by other children, may hit a
    cache between the moment it issues a request and the moment the parent serves it. The
    parent's own request to the level above is open to the same races. Children are whole
    subtrees, and each has at most one request pending. */
module MesiRaces {
  import opened Option
  import opened Mesi
  import opened MesiTree

  /** A request as sent: its type, the sender's state at that moment, and, for a GET, the
      cache in the sender's subtree it is made for. */
  datatype Req = Req(ty: AccessType, init: MesiState, path: seq<nat>, noexcl: bool)

  /** What the parent itself is waiting for from above: permission for child `c`'s request, or
      the completion of its own writeback. The type and snapshot are those it sent. */
  datatype Up = UpGet(c: nat, init: MesiState) | UpPut(ty: AccessType, init: MesiState)

  datatype Sys = Sys(top: Cache, pend: seq<Option<Req>>, up: Option<Up>)

  datatype Step =
    | IssueGet(c: nat, ty: AccessType, path: seq<nat>, noexcl: bool)
    | IssuePut(c: nat)
    | Inner(c: nat, op: Op)
    | Serve(c: nat)
    | Granted(g: MesiState)
    | AboveInval(inv: InvType)
    | TopEvict
    | TopEvictDone

  /** The system after a step, whether dirty data left for the level above, and whether every
      assertion held. */
  datatype Outcome = Outcome(sys: Sys, out: bool, ok: bool)

  // ---------------------------------------------------------------- the race check

  datatype Race = Race(skip: bool, ty: AccessType, ok: bool)

  /** The only code that deals with races: compares the sender's state with its snapshot. */
  function CheckForMesiRace(ty: AccessType, state: MesiState, init: MesiState): Race {
    if state == init then Race(false, ty, true)
    else if ty == PUTS || ty == PUTX then
      if state == I then Race(true, ty, true) else Race(false, PUTS, state == S)
    else if ty == GETX then Race(false, ty, init == S && state == I)
    else Race(false, ty, false)
  }

  // ---------------------------------------------------------------- steps

  predicate WellFormed(s: Sys) {
    && |s.pend| == |s.top.kids|
    && (s.up.Some? && s.up.value.UpGet? ==>
          var c := s.up.value.c;
          c < |s.pend| && s.pend[c].Some? && OnPath(s.top.kids[c].cache, s.pend[c].value.path))
  }

  predicate Enabled(s: Sys, step: Step)
    requires WellFormed(s)
  {
    match step
    case IssueGet(c, ty, path, _) =>
      && c < |s.pend| && s.pend[c].None? && (ty == GETS || ty == GETX)
      && OnPath(s.top.kids[c].cache, path) && Climbs(s.top.kids[c].cache, path, ty)
    case IssuePut(c) => c < |s.pend| && s.pend[c].None?
    case Inner(c, op) =>
      && c < |s.pend| && s.pend[c].None? && OnPath(s.top.kids[c].cache, op.path)
      && (op.Drop? ==> op.path != [])
      && (op.Load? ==> !Climbs(s.top.kids[c].cache, op.path, GETS))
      && (op.Store? ==> !Climbs(s.top.kids[c].cache, op.path, GETX))
    case Serve(c) =>
      && c < |s.pend| && s.pend[c].Some? && s.up.None?
      && OnPath(s.top.kids[c].cache, s.pend[c].value.path)
    case Granted(g) => s.up.Some? && s.up.value.UpGet? && Grantable(s.pend[s.up.value.c].value.ty, g)
    case AboveInval(inv) => s.top.state != I && (inv == INVX ==> Owner(s.top.state))
    case TopEvict => s.up.None?
    case TopEvictDone => s.up.Some? && s.up.value.UpPut?
  }

  /** The last part of a GET, with the parent's own state already `s.top.state`: the top
      controller answers, and the answer lets the child finish on behalf of `path`. */
  function Finish(s: Sys, c: nat): Outcome
    requires |s.pend| == |s.top.kids| && c < |s.pend| && s.pend[c].Some?
    requires OnPath(s.top.kids[c].cache, s.pend[c].value.path)
  {
    var r := s.pend[c].value;
    var a := TopGet(s.top, c, r.ty, r.noexcl);
    TopGetShape(s.top, c, r.ty, r.noexcl);
    ShapePath(s.top.kids[c].cache, a.c.kids[c].cache, r.path);
    var u := if a.wb then a.c.(state := M) else a.c;
    var k := Get(u.kids[c].cache, r.path, r.ty, r.noexcl, a.grant);
    Outcome(Sys(SetKid(u, c, k.c), s.pend[c := None], None), false, a.ok && k.ok && (a.wb ==> Owner(s.top.state)))
  }

  /** The parent takes up child `c`'s request. */
  function ServeChild(s: Sys, c: nat): Outcome
    requires WellFormed(s) && Enabled(s, Serve(c))
  {
    var r := s.pend[c].value;
    var k := s.top.kids[c].cache;
    var race := CheckForMesiRace(r.ty, k.state, r.init);
    if race.skip then Outcome(s.(pend := s.pend[c := None]), false, race.ok && k.state == I)
    else if race.ty == PUTS || race.ty == PUTX then
      var a := TopPut(s.top, c, race.ty);
      var u := SetKid(a.c.(state := MesiTree.Serve(s.top.state, race.ty, I)), c, k.(state := a.grant));
      Outcome(s.(top := u, pend := s.pend[c := None]), false,
              race.ok && ServeOk(s.top.state, race.ty, I) && a.ok)
    else if NeedsUp(s.top.state, race.ty) then
      Outcome(s.(up := Some(UpGet(c, s.top.state))), false, race.ok)
    else
      var f := Finish(s.(top := s.top.(state := MesiTree.Serve(s.top.state, race.ty, I))), c);
      f.(ok := f.ok && race.ok && ServeOk(s.top.state, race.ty, I))
  }

  function Next(s: Sys, step: Step): Outcome
    requires WellFormed(s) && Enabled(s, step)
  {
    match step
    case IssueGet(c, ty, path, noexcl) =>
      Outcome(s.(pend := s.pend[c := Some(Req(ty, s.top.kids[c].cache.state, path, noexcl))]), false, true)
    case IssuePut(c) =>
      var r := Purge(s.top.kids[c].cache);
      var ty := if r.c.state == M then PUTX else PUTS;
      var p := if r.c.state == I then None else Some(Req(ty, r.c.state, [], false));
      Outcome(s.(top := SetKid(s.top, c, r.c), pend := s.pend[c := p]), false, r.ok)
    case Inner(c, op) =>
      var r := MesiTree.Step(s.top.kids[c].cache, op);
      Outcome(s.(top := SetKid(s.top, c, r.c)), false, r.ok)
    case Serve(c) => ServeChild(s, c)
    case Granted(g) =>
      var c := s.up.value.c;
      var race := CheckForMesiRace(s.pend[c].value.ty, s.top.state, s.up.value.init);
      var f := Finish(s.(top := s.top.(state := g)), c);
      f.(ok := f.ok && race.ok && !race.skip && ServeOk(s.top.state, s.pend[c].value.ty, g))
    case AboveInval(inv) =>
      var r := Invalidate(s.top, inv);
      InvalidateShape(s.top, inv);
      Outcome(s.(top := r.c), r.wb, r.ok)
    case TopEvict =>
      var r := Purge(s.top);
      var ty := if r.c.state == M then PUTX else PUTS;
      Outcome(s.(top := r.c, up := if r.c.state == I then None else Some(UpPut(ty, r.c.state))), false, r.ok)
    case TopEvictDone =>
      var race := CheckForMesiRace(s.up.value.ty, s.top.state, s.up.value.init);
      Outcome(s.(top := s.top.(state := I), up := None), !race.skip && race.ty == PUTX,
              race.ok && (race.skip ==> s.top.state == I) && (race.ty == PUTX && !race.skip ==> s.top.state == M))
  }

  // ---------------------------------------------------------------- what holds in every state

  /** A cache whose subtree was cleared for an eviction. */
  predicate Purged(k: Cache) {
    k.num == 0 && Coherent(k.(state := I)) && AllInvalid(k.(state := I))
  }

  /** The states a sender can be in while its request is pending. */
  predicate Drift(ty: AccessType, init: MesiState, now: MesiState) {
    match ty
    case GETS => init == I && now == I
    case GETX => (init == I || init == S) && (now == init || now == I)
    case PUTS => (init == S || init == E) && (now == init || now == S || now == I)
    case PUTX => init == M && (now == M || now == S || now == I)
  }

  predicate PendOk(k: Cache, r: Req) {
    && Drift(r.ty, r.init, k.state)
    && OnPath(k, r.path)
    && (if r.ty == GETS || r.ty == GETX then Climbs(k, r.path, r.ty) else Purged(k))
  }

  ghost predicate UpOk(s: Sys)
    requires WellFormed(s)
  {
    s.up.Some? ==>
      match s.up.value
      case UpGet(c, init) =>
        var ty := s.pend[c].value.ty;
        (ty == GETS || ty == GETX) && Drift(ty, init, s.top.state)
      case UpPut(ty, init) => (ty == PUTS || ty == PUTX) && Drift(ty, init, s.top.state) && Purged(s.top)
  }

  ghost predicate SysOk(s: Sys) {
    && WellFormed(s)
    && Coherent(s.top)
    && (forall c :: 0 <= c < |s.pend| && s.pend[c].Some? ==> PendOk(s.top.kids[c].cache, s.pend[c].value))
    && UpOk(s)
  }

  // ---------------------------------------------------------------- what others do to a sender

  /** A bystander is either left alone or hit by one legal invalidation. */
  ghost predicate Hit(k: Cache, k': Cache) {
    k' == k || exists inv :: Invalidatable(k, inv) && k' == Invalidate(k, inv).c
  }

  lemma {:induction false} ClimbsWhenInvalid(t: Cache, path: seq<nat>, ty: AccessType)
    requires AllInvalid(t) && OnPath(t, path) && (ty == GETS || ty == GETX)
    ensures Climbs(t, path, ty)
    decreases |path|
  {
    if path != [] { ClimbsWhenInvalid(t.kids[path[0]].cache, path[1..], ty); }
  }

  /** A pending request survives every hit on its sender: the sender's state drifts only in
      the ways the race check knows, and a GET still needs to climb. */
  lemma PendSurvives(k: Cache, k': Cache, r: Req)
    requires PendOk(k, r) && Hit(k, k')
    ensures PendOk(k', r)
  {
    if k' != k {
      var inv :| Invalidatable(k, inv) && k' == Invalidate(k, inv).c;
      InvalidateCorrect(k, inv);
      InvalidateShape(k, inv);
      ShapePath(k, k', r.path);
      if r.ty == GETS || r.ty == GETX {
        ClimbsWhenInvalid(k', r.path, r.ty);
      } else {
        assert k' == k.(state := k'.state);
        assert k'.(state := I) == k.(state := I);
      }
    }
  }

  /** The fan-out of an invalidation hits the children it reaches and leaves the rest alone. */
  lemma SendHits(t: Cache, inv: InvType, i: nat)
    requires Coherent(t) && i < |t.kids|
    ensures Hit(t.kids[i].cache, SendInvalidates(t, inv).c.kids[i].cache)
  {
    assert LinkOk(t, t.kids[i]) && Coherent(t.kids[i].cache);
    if !((inv == INVX && !IsExclusive(t)) || t.num == 0) {
      assert SendInvalidates(t, inv).c.kids[i].cache == InvalLink(t.kids[i], inv).c;
      if t.kids[i].shared { assert Invalidatable(t.kids[i].cache, inv); }
    }
  }

  lemma GetHits(t: Cache, c: nat, ty: AccessType, noexcl: bool, i: nat)
    requires Coherent(t) && c < |t.kids| && i < |t.kids| && i != c
    ensures Hit(t.kids[i].cache, TopGet(t, c, ty, noexcl).c.kids[i].cache)
  {
    if ty == GETX {
      var t1 := WithoutRequester(t, c);
      assert LinkOk(t, t.kids[i]) && Coherent(t.kids[i].cache);
      assert t1.kids[i] == t.kids[i];
      if t1.num != 0 {
        assert SendInvalidates(t1, INV).c.kids[i].cache == InvalLink(t1.kids[i], INV).c;
        if t.kids[i].shared { assert Invalidatable(t.kids[i].cache, INV); }
      }
    } else {
      SendHits(t, INVX, i);
    }
  }

  // ---------------------------------------------------------------- each step, proved

  ghost predicate StepDone(s: Sys, o: Outcome) {
    o.ok && SysOk(o.sys) && (HasDirty(s.top) ==> HasDirty(o.sys.top) || o.out)
  }

  lemma FinishCorrect(s: Sys, c: nat)
    requires |s.pend| == |s.top.kids| && c < |s.pend| && s.pend[c].Some? && Coherent(s.top)
    requires OnPath(s.top.kids[c].cache, s.pend[c].value.path)
    requires forall i :: 0 <= i < |s.pend| && s.pend[i].Some? ==> PendOk(s.top.kids[i].cache, s.pend[i].value)
    requires var ty := s.pend[c].value.ty;
      (ty == GETS && s.top.state != I) || (ty == GETX && s.top.state == M)
    ensures StepDone(s, Finish(s, c))
  {
    var r := s.pend[c].value;
    var k := s.top.kids[c].cache;
    assert PendOk(k, r);
    var a := TopGet(s.top, c, r.ty, r.noexcl);
    if r.ty == GETX { TopGetxCorrect(s.top, c); } else { TopGetsCorrect(s.top, c, r.noexcl); }
    var u := if a.wb then a.c.(state := M) else a.c;
    if a.wb { FitsDirty(a.c, c, a.grant); }
    GetCorrect(k, r.path, r.ty, r.noexcl, a.grant);
    var g := Get(k, r.path, r.ty, r.noexcl, a.grant);
    FitsCloses(u, c, a.grant, g.c);
    var f := Finish(s, c).sys;
    assert f.top == SetKid(u, c, g.c);
    forall i | 0 <= i < |f.pend| && f.pend[i].Some?
      ensures PendOk(f.top.kids[i].cache, f.pend[i].value)
    {
      GetHits(s.top, c, r.ty, r.noexcl, i);
      PendSurvives(s.top.kids[i].cache, f.top.kids[i].cache, f.pend[i].value);
    }
    if HasDirty(s.top) { assert f.top.state == M; }
  }

  lemma ServePutCorrect(s: Sys, c: nat)
    requires SysOk(s) && Enabled(s, Serve(c)) && (s.pend[c].value.ty == PUTS || s.pend[c].value.ty == PUTX)
    ensures StepDone(s, ServeChild(s, c))
  {
    var r := s.pend[c].value;
    var k := s.top.kids[c].cache;
    var race := CheckForMesiRace(r.ty, k.state, r.init);
    assert PendOk(k, r) && LinkOk(s.top, s.top.kids[c]);
    var o := ServeChild(s, c);
    if !race.skip {
      if HasDirty(k) && k.state != M { PurgedDirty(k); }
      PutCloses(s.top, c, k, MesiTree.Serve(s.top.state, race.ty, I));
      assert o.sys.top == Released(s.top, c, k, o.sys.top.state);
      assert Count(s.top.kids) > 0 by { CountZero(s.top.kids); }
    }
    forall i | 0 <= i < |o.sys.pend| && o.sys.pend[i].Some?
      ensures PendOk(o.sys.top.kids[i].cache, o.sys.pend[i].value)
    {
      assert i != c;
    }
  }

  lemma PurgedDirty(k: Cache)
    requires Purged(k) && HasDirty(k)
    ensures k.state == M
  {
    if k.state != M {
      var i :| 0 <= i < |k.kids| && HasDirty(k.kids[i].cache);
      AllInvalidNoOwner(k.kids[i].cache);
      NoOwnerNoDirty(k.kids[i].cache);
    }
  }

  lemma ServeGetCorrect(s: Sys, c: nat)
    requires SysOk(s) && Enabled(s, Serve(c)) && (s.pend[c].value.ty == GETS || s.pend[c].value.ty == GETX)
    ensures StepDone(s, ServeChild(s, c))
  {
    var ty := s.pend[c].value.ty;
    assert PendOk(s.top.kids[c].cache, s.pend[c].value);
    if !NeedsUp(s.top.state, ty) {
      var st := MesiTree.Serve(s.top.state, ty, I);
      ServedCoherent(s.top, st);
      DirtySame(s.top, st);
      FinishCorrect(s.(top := s.top.(state := st)), c);
    }
  }

  lemma GrantedCorrect(s: Sys, g: MesiState)
    requires SysOk(s) && Enabled(s, Granted(g))
    ensures StepDone(s, Next(s, Granted(g)))
  {
    ServedCoherent(s.top, g);
    if HasDirty(s.top) { Inclusion(s.top); NoOwnerNoDirty(s.top); }
    FinishCorrect(s.(top := s.top.(state := g)), s.up.value.c);
  }

  lemma AboveInvalCorrect(s: Sys, inv: InvType)
    requires SysOk(s) && Enabled(s, AboveInval(inv))
    ensures StepDone(s, Next(s, AboveInval(inv)))
    ensures Next(s, AboveInval(inv)).out <==> HasDirty(s.top)
  {
    InvalidateCorrect(s.top, inv);
    InvalidateShape(s.top, inv);
    var o := Next(s, AboveInval(inv)).sys;
    forall i | 0 <= i < |o.pend| && o.pend[i].Some?
      ensures PendOk(o.top.kids[i].cache, o.pend[i].value)
    {
      SendHits(s.top, inv, i);
      PendSurvives(s.top.kids[i].cache, o.top.kids[i].cache, o.pend[i].value);
    }
    if s.up.Some? && s.up.value.UpPut? {
      assert o.top.(state := I) == s.top.(state := I);
    }
  }

  lemma PurgeGivesPurged(k: Cache)
    requires Coherent(k)
    ensures Purged(Purge(k).c)
  {
    PurgeCorrect(k);
    SendCorrect(k, INV);
    CountZero(Purge(k).c.kids);
  }

  /** A child may empty what is below it without its parent noticing. */
  lemma PurgeInPlace(top: Cache, c: nat)
    requires Coherent(top) && c < |top.kids|
    ensures var r := Purge(top.kids[c].cache);
      && r.ok && Purged(r.c) && Coherent(SetKid(top, c, r.c))
      && (HasDirty(top) ==> HasDirty(SetKid(top, c, r.c)))
      && OnPath(r.c, [])
  {
    var k := top.kids[c].cache;
    PurgeCorrect(k);
    PurgeGivesPurged(k);
    SameClassCloses(top, c, Purge(k).c);
    DirtyKid(top, c, Purge(k).c);
  }

  lemma IssuePutCorrect(s: Sys, c: nat)
    requires SysOk(s) && Enabled(s, IssuePut(c))
    ensures StepDone(s, Next(s, IssuePut(c)))
  {
    PurgeInPlace(s.top, c);
    var o := Next(s, IssuePut(c)).sys;
    forall i | 0 <= i < |o.pend| && o.pend[i].Some?
      ensures PendOk(o.top.kids[i].cache, o.pend[i].value)
    {
      assert i != c ==> o.top.kids[i] == s.top.kids[i] && o.pend[i] == s.pend[i];
    }
  }

  lemma InnerCorrect(s: Sys, c: nat, op: Op)
    requires SysOk(s) && Enabled(s, Inner(c, op))
    ensures StepDone(s, Next(s, Inner(c, op)))
  {
    var k := s.top.kids[c].cache;
    assert Coherent(k);
    InnerKeepsClass(k, op);
    var r := MesiTree.Step(k, op);
    SameClassCloses(s.top, c, r.c);
    DirtyKid(s.top, c, r.c);
    if Purged(s.top) { PurgedKid(s.top, c, r.c); }
    var o := Next(s, Inner(c, op)).sys;
    forall i | 0 <= i < |o.pend| && o.pend[i].Some?
      ensures PendOk(o.top.kids[i].cache, o.pend[i].value)
    {
      assert i != c;
    }
  }

  lemma PurgedKid(t: Cache, c: nat, k: Cache)
    requires Purged(t) && c < |t.kids| && Coherent(k)
    requires k.state == t.kids[c].cache.state || (t.kids[c].cache.state == E && k.state == M)
    ensures Purged(SetKid(t, c, k))
  {
    assert t.(state := I).kids[c].cache.state == I;
    Inclusion(k);
    SameClassCloses(t.(state := I), c, k);
    assert SetKid(t, c, k).(state := I) == SetKid(t.(state := I), c, k);
  }

  /** A transaction that is served inside a subtree leaves its root in the same permission
      class. */
  lemma InnerKeepsClass(k: Cache, op: Op)
    requires Coherent(k) && OnPath(k, op.path)
    requires op.Drop? ==> op.path != []
    requires op.Load? ==> !Climbs(k, op.path, GETS)
    requires op.Store? ==> !Climbs(k, op.path, GETX)
    ensures var r := MesiTree.Step(k, op);
      && r.ok && Coherent(r.c) && (HasDirty(k) ==> HasDirty(r.c))
      && (r.c.state == k.state || (k.state == E && r.c.state == M))
  {
    match op
    case Load(p, noexcl) => GetCorrect(k, p, GETS, noexcl, MemoryGrant(GETS, noexcl));
    case Store(p) => GetCorrect(k, p, GETX, false, M);
    case Drop(p) => EvictCorrect(k, p);
  }

  lemma TopEvictCorrect(s: Sys)
    requires SysOk(s) && Enabled(s, TopEvict)
    ensures StepDone(s, Next(s, TopEvict))
  {
    PurgeCorrect(s.top);
    PurgeGivesPurged(s.top);
    var o := Next(s, TopEvict).sys;
    forall i | 0 <= i < |o.pend| && o.pend[i].Some?
      ensures PendOk(o.top.kids[i].cache, o.pend[i].value)
    {
      SendHits(s.top, INV, i);
      PendSurvives(s.top.kids[i].cache, o.top.kids[i].cache, o.pend[i].value);
    }
  }

  lemma TopEvictDoneCorrect(s: Sys)
    requires SysOk(s) && Enabled(s, TopEvictDone)
    ensures StepDone(s, Next(s, TopEvictDone))
  {
    if HasDirty(s.top) { PurgedDirty(s.top); }
  }

  /** Every step from a good state, in any interleaving, trips no assertion in the race check or
      in either controller, leaves a good state, and loses no dirty data. */
  lemma StepCorrect(s: Sys, step: Step)
    requires SysOk(s) && Enabled(s, step)
    ensures StepDone(s, Next(s, step))
  {
    match step
    case IssueGet(c, ty, path, noexcl) =>
    case IssuePut(c) => IssuePutCorrect(s, c);
    case Inner(c, op) => InnerCorrect(s, c, op);
    case Serve(c) =>
      var ty := s.pend[c].value.ty;
      if ty == GETS || ty == GETX { ServeGetCorrect(s, c); } else { ServePutCorrect(s, c); }
    case Granted(g) => GrantedCorrect(s, g);
    case AboveInval(inv) => AboveInvalCorrect(s, inv);
    case TopEvict => TopEvictCorrect(s);
    case TopEvictDone => TopEvictDoneCorrect(s);
  }

  // ---------------------------------------------------------------- whole runs

  ghost predicate IsRun(trace: seq<Sys>, steps: seq<Step>) {
    && |trace| == |steps| + 1
    && (forall k :: 0 <= k < |trace| ==> WellFormed(trace[k]))
    && forall k :: 0 <= k < |steps| ==>
         Enabled(trace[k], steps[k]) && trace[k + 1] == Next(trace[k], steps[k]).sys
  }

  /** Dirty data was handed to the level above by one of the steps from j on, before k. */
  ghost predicate HandedUp(trace: seq<Sys>, steps: seq<Step>, j: nat, k: nat)
    requires IsRun(trace, steps) && j <= k <= |steps|
  {
    exists i :: j <= i < k && Next(trace[i], steps[i]).out
  }

  /** Every interleaving of any length trips no assertion and keeps the invariant, and data that
      is dirty at any moment j is at any later moment k still dirty in some cache, unless a step
      between has handed dirty data to the level above. */
  lemma {:induction false} EveryInterleavingSafe(trace: seq<Sys>, steps: seq<Step>, j: nat, k: nat)
    requires IsRun(trace, steps) && SysOk(trace[0]) && j <= k < |trace|
    ensures SysOk(trace[j]) && SysOk(trace[k])
    ensures k < |steps| ==> Next(trace[k], steps[k]).ok
    ensures HasDirty(trace[j].top) ==> HasDirty(trace[k].top) || HandedUp(trace, steps, j, k)
    decreases k
  {
    if k > 0 {
      EveryInterleavingSafe(trace, steps, if j < k then j else k - 1, k - 1);
      StepCorrect(trace[k - 1], steps[k - 1]);
      assert j < k && Next(trace[k - 1], steps[k - 1]).out ==> HandedUp(trace, steps, j, k);
    }
    if k < |steps| { StepCorrect(trace[k], steps[k]); }
  }

  lemma QuiescentIsOk(top: Cache)
    requires Coherent(top)
    ensures SysOk(Sys(top, seq(|top.kids|, i => None), None))
  {
  }

  // ---------------------------------------------------------------- the race check, on its own

  /** Whenever the parent takes a request up, the race check either drops a writeback of a line
      that is already gone, or leaves a request that is legal as if there had been no race: a
      dirty writeback comes from the exclusive sharer, a clean one from a sharer, a GETS from a
      cache without the line and a GETX from one without exclusive permission. */
  lemma RaceCheckLegalises(s: Sys, c: nat)
    requires SysOk(s) && Enabled(s, Serve(c))
    ensures var r := s.pend[c].value;
      var k := s.top.kids[c].cache;
      var race := CheckForMesiRace(r.ty, k.state, r.init);
      && race.ok
      && (race.skip ==> (r.ty == PUTS || r.ty == PUTX) && k.state == I)
      && (!race.skip ==>
            && (race.ty == PUTX ==> IsExclusive(s.top) && k.state == M && Owner(s.top.state))
            && (race.ty == PUTS ==> s.top.kids[c].shared && !HasDirty(k))
            && (race.ty == GETS ==> k.state == I)
            && (race.ty == GETX ==> k.state == I || k.state == S))
  {
    var r := s.pend[c].value;
    var k := s.top.kids[c].cache;
    assert PendOk(k, r) && LinkOk(s.top, s.top.kids[c]);
    if HasDirty(k) && Purged(k) { PurgedDirty(k); }
  }
}
