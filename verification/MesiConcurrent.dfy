/** The whole cache tree with requests in flight at every level. A request waits at its sender
    until the parent takes it up; if the parent must ask in turn, both wait, and so on up. The
    locks keep a cache that waits from serving anything else, but not from being invalidated, so
    every waiting cache is exposed to the races of MesiRaces.dfy, whose parent step is lifted here
    to any place in the tree. Once the top of such a chain has its permission, each cache below it
    relocks before the one above lets go, so the whole chain finishes in one step. */
module MesiConcurrent {
  import opened Option
  import opened Mesi
  import opened MesiTree
  import opened MesiRaces

  /** `pend` gives for each waiting cache, named by its path, the request it has sent; the path in
      the request leads on to the cache it is made for. */
  datatype State = State(tree: Cache, pend: map<seq<nat>, Req>)

  datatype Event =
    | Request(p: seq<nat>, ty: AccessType, noexcl: bool)
    | Vacate(p: seq<nat>)
    | TakeUp(p: seq<nat>, c: nat)
    | Memory

  /** `out` says whether dirty data went to memory, `ok` whether every assertion held. */
  datatype Effect = Effect(s: State, out: bool, ok: bool)

  // ---------------------------------------------------------------- working at one place

  function ReplaceAt(t: Cache, p: seq<nat>, k: Cache): Cache
    requires OnPath(t, p)
    decreases |p|
  {
    if p == [] then k else SetKid(t, p[0], ReplaceAt(t.kids[p[0]].cache, p[1..], k))
  }

  /** The requests left once the one that waits along `full`, from `p` down, is served. */
  function Served(pend: map<seq<nat>, Req>, p: seq<nat>, full: seq<nat>): map<seq<nat>, Req> {
    map q | q in pend && !(p <= q <= full) :: pend[q]
  }

  predicate WellFormed(s: State) {
    forall p :: p in s.pend ==> OnPath(s.tree, p) && OnPath(At(s.tree, p), s.pend[p].path)
  }

  predicate Enabled(s: State, e: Event) {
    match e
    case Request(p, ty, _) => p !in s.pend && OnPath(s.tree, p) && (ty == GETS || ty == GETX)
    case Vacate(p) => p !in s.pend && OnPath(s.tree, p)
    case TakeUp(p, c) => p !in s.pend && p + [c] in s.pend && OnPath(s.tree, p) && c < |At(s.tree, p).kids|
    case Memory => [] in s.pend
  }

  /** What the cache at `p` sees: its own subtree, and the request of child `c`. */
  function View(s: State, p: seq<nat>, c: nat): Sys
    requires OnPath(s.tree, p) && p + [c] in s.pend
  {
    Sys(At(s.tree, p), seq(|At(s.tree, p).kids|, i => if i == c then Some(s.pend[p + [c]]) else None), None)
  }

  lemma {:induction false} AtStep(t: Cache, p: seq<nat>, c: nat)
    requires OnPath(t, p) && c < |At(t, p).kids|
    ensures OnPath(t, p + [c]) && At(t, p + [c]) == At(t, p).kids[c].cache
    decreases |p|
  {
    if p != [] {
      AtStep(t.kids[p[0]].cache, p[1..], c);
      assert (p + [c])[1..] == p[1..] + [c];
    }
  }

  /** What the parent's step at `p` means for the tree: it waits in turn, or child `c`'s request is
      served, and with it those further down that it was made for. */
  function Absorb(s: State, p: seq<nat>, c: nat, o: Outcome): Effect
    requires OnPath(s.tree, p) && p + [c] in s.pend
  {
    var r := s.pend[p + [c]];
    if o.sys.up.Some? then
      Effect(s.(pend := s.pend[p := Req(r.ty, At(s.tree, p).state, [c] + r.path, r.noexcl)]), false, o.ok)
    else
      Effect(State(ReplaceAt(s.tree, p, o.sys.top), Served(s.pend, p, p + ([c] + r.path))), false, o.ok)
  }

  function Next(s: State, e: Event): Effect
    requires WellFormed(s) && Enabled(s, e)
  {
    match e
    case Request(p, ty, noexcl) =>
      // a hit is served on the spot
      var k := At(s.tree, p);
      if NeedsUp(k.state, ty) then Effect(s.(pend := s.pend[p := Req(ty, k.state, [], noexcl)]), false, true)
      else
        var r := Get(k, [], ty, noexcl, I);
        Effect(s.(tree := ReplaceAt(s.tree, p, r.c)), false, r.ok)
    case Vacate(p) =>
      var r := Purge(At(s.tree, p));
      var ty := if r.c.state == M then PUTX else PUTS;
      var pend := if r.c.state == I then s.pend else s.pend[p := Req(ty, r.c.state, [], false)];
      Effect(State(ReplaceAt(s.tree, p, r.c), pend), false, r.ok)
    case TakeUp(p, c) =>
      AtStep(s.tree, p, c);
      Absorb(s, p, c, ServeChild(View(s, p, c), c))
    case Memory =>
      var r := s.pend[[]];
      if r.ty == PUTS || r.ty == PUTX then
        Effect(State(s.tree.(state := I), Served(s.pend, [], [])), r.ty == PUTX, true)
      else
        var g := Get(s.tree, r.path, r.ty, r.noexcl, MemoryGrant(r.ty, r.noexcl));
        Effect(State(g.c, Served(s.pend, [], r.path)), false, g.ok)
  }

  // ---------------------------------------------------------------- what holds in every state

  predicate IsGet(ty: AccessType) { ty == GETS || ty == GETX }

  /** A cache that waits on behalf of a child waits for the very request the child is waiting with. */
  predicate LinkedOn(pend: map<seq<nat>, Req>, p: seq<nat>)
    requires p in pend
  {
    var r := pend[p];
    r.path != [] ==>
      var q := p + [r.path[0]];
      IsGet(r.ty) && q in pend && pend[q].ty == r.ty && pend[q].noexcl == r.noexcl && pend[q].path == r.path[1..]
  }

  predicate SenderOk(k: Cache, r: Req) {
    Drift(r.ty, r.init, k.state) && (!IsGet(r.ty) ==> r.path == [] && Purged(k))
  }

  ghost predicate Ok(s: State) {
    && Coherent(s.tree)
    && (forall p :: p in s.pend ==> OnPath(s.tree, p))
    && (forall p :: p in s.pend ==> SenderOk(At(s.tree, p), s.pend[p]))
    && (forall p {:trigger LinkedOn(s.pend, p)} :: p in s.pend ==> LinkedOn(s.pend, p))
  }

  // ---------------------------------------------------------------- places in the tree

  lemma {:induction false} CoherentAt(t: Cache, p: seq<nat>)
    requires OnPath(t, p) && Coherent(t)
    ensures Coherent(At(t, p))
    decreases |p|
  {
    if p != [] { CoherentAt(t.kids[p[0]].cache, p[1..]); }
  }

  lemma {:induction false} AtSplit(t: Cache, p: seq<nat>, q: seq<nat>)
    requires OnPath(t, p)
    ensures OnPath(t, p + q) <==> OnPath(At(t, p), q)
    ensures OnPath(t, p + q) ==> At(t, p + q) == At(At(t, p), q)
    decreases |p|
  {
    if p == [] {
      assert p + q == q;
    } else {
      assert (p + q)[1..] == p[1..] + q;
      AtSplit(t.kids[p[0]].cache, p[1..], q);
    }
  }

  /** A subtree may be swapped for one whose root has the same permission. */
  lemma {:induction false} ReplaceKeeps(t: Cache, p: seq<nat>, k: Cache)
    requires OnPath(t, p) && Coherent(t) && Coherent(k)
    requires k.state == At(t, p).state || (At(t, p).state == E && k.state == M)
    requires HasDirty(At(t, p)) ==> HasDirty(k)
    ensures var t' := ReplaceAt(t, p, k);
      && Coherent(t') && (HasDirty(t) ==> HasDirty(t'))
      && (t'.state == t.state || (t.state == E && t'.state == M))
    decreases |p|
  {
    if p != [] {
      var kid := t.kids[p[0]].cache;
      ReplaceKeeps(kid, p[1..], k);
      SameClassCloses(t, p[0], ReplaceAt(kid, p[1..], k));
      DirtyKid(t, p[0], ReplaceAt(kid, p[1..], k));
    }
  }

  lemma {:induction false} ReplaceInside(t: Cache, p: seq<nat>, k: Cache, q: seq<nat>)
    requires OnPath(t, p) && OnPath(k, q)
    ensures var t' := ReplaceAt(t, p, k); OnPath(t', p + q) && At(t', p + q) == At(k, q)
    decreases |p|
  {
    if p == [] {
      assert p + q == q;
    } else {
      assert (p + q)[1..] == p[1..] + q;
      ReplaceInside(t.kids[p[0]].cache, p[1..], k, q);
    }
  }

  lemma {:induction false} ReplaceOutside(t: Cache, p: seq<nat>, k: Cache, q: seq<nat>)
    requires OnPath(t, p) && OnPath(t, q) && !(p <= q)
    ensures var t' := ReplaceAt(t, p, k);
      && OnPath(t', q) && At(t', q).state == At(t, q).state
      && (!(q <= p) ==> At(t', q) == At(t, q))
    decreases |p|
  {
    if q != [] && p[0] == q[0] { ReplaceOutside(t.kids[p[0]].cache, p[1..], k, q[1..]); }
  }

  // ---------------------------------------------------------------- who is hit

  /** Whoever is below a cache that is hit is hit, or left alone. */
  lemma {:induction false} HitAt(k: Cache, k': Cache, q: seq<nat>)
    requires Coherent(k) && Hit(k, k') && OnPath(k, q)
    ensures OnPath(k', q) && Hit(At(k, q), At(k', q))
    decreases |q|
  {
    if q != [] && k' != k {
      var inv :| Invalidatable(k, inv) && k' == Invalidate(k, inv).c;
      SendHits(k, inv, q[0]);
      assert k'.kids == SendInvalidates(k, inv).c.kids;
      HitAt(k.kids[q[0]].cache, k'.kids[q[0]].cache, q[1..]);
    }
  }

  /** Serving a request along `path` hits whoever is not on that path, or leaves it alone. */
  lemma {:induction false} GetHitsAt(t: Cache, path: seq<nat>, ty: AccessType, noexcl: bool, grant: MesiState,
      q: seq<nat>)
    requires OnPath(t, path) && Coherent(t) && IsGet(ty) && OnPath(t, q) && !(q <= path)
    requires path != [] ==> Climbs(t.kids[path[0]].cache, path[1..], ty)
    requires Climbs(t, path, ty) ==> Grantable(ty, grant)
    ensures var r := Get(t, path, ty, noexcl, grant); OnPath(r.c, q) && Hit(At(t, q), At(r.c, q))
    decreases |path|
  {
    if path != [] && q[0] == path[0] {
      var c := path[0];
      var t1 := t.(state := MesiTree.Serve(t.state, ty, grant));
      var a := TopGet(t1, c, ty, noexcl);
      AnswerHits(t, c, ty, noexcl, t1.state, q);
      GetHitsAt(t.kids[c].cache, path[1..], ty, noexcl, a.grant, q[1..]);
    } else if path != [] {
      GetHitsAside(t, path, ty, noexcl, grant, q);
    }
  }

  /** The same for a place q that leaves the request's path at t itself. */
  lemma GetHitsAside(t: Cache, path: seq<nat>, ty: AccessType, noexcl: bool, grant: MesiState, q: seq<nat>)
    requires OnPath(t, path) && Coherent(t) && IsGet(ty) && OnPath(t, q)
    requires path != [] && q != [] && q[0] != path[0]
    requires Climbs(t.kids[path[0]].cache, path[1..], ty)
    requires Climbs(t, path, ty) ==> Grantable(ty, grant)
    ensures var r := Get(t, path, ty, noexcl, grant); OnPath(r.c, q) && Hit(At(t, q), At(r.c, q))
  {
    AnswerHits(t, path[0], ty, noexcl, MesiTree.Serve(t.state, ty, grant), q);
  }

  /** The answer to child c leaves the child itself to what follows, and hits its siblings or
      leaves them alone. */
  lemma AnswerHits(t: Cache, c: nat, ty: AccessType, noexcl: bool, s: MesiState, q: seq<nat>)
    requires Coherent(t) && c < |t.kids| && IsGet(ty) && OnPath(t, q) && q != [] && NeedsUp(t.kids[c].cache.state, ty)
    requires if NeedsUp(t.state, ty) then Grantable(ty, s) else s == MesiTree.Serve(t.state, ty, I)
    ensures var a := TopGet(t.(state := s), c, ty, noexcl);
      && |a.c.kids| == |t.kids| && Grantable(ty, a.grant) && a.c.kids[c].cache == t.kids[c].cache
      && (q[0] != c ==> OnPath(a.c, q) && Hit(At(t, q), At(a.c, q)))
  {
    var t1 := t.(state := s);
    assert LinkOk(t, t.kids[c]);
    ServedCoherent(t, s);
    AnswerFits(t1, c, ty, noexcl);
    if q[0] != c {
      GetHits(t1, c, ty, noexcl, q[0]);
      HitAt(t.kids[q[0]].cache, TopGet(t1, c, ty, noexcl).c.kids[q[0]].cache, q[1..]);
    }
  }

  /** A sender stays ready for the race check when it is hit. */
  lemma SenderSurvives(k: Cache, k': Cache, r: Req)
    requires SenderOk(k, r) && Hit(k, k')
    ensures SenderOk(k', r)
  {
    PendSurvives(k, k', r.(path := []));
  }

  // ---------------------------------------------------------------- chains of waiting caches

  /** Every cache on the way from a waiting cache to the one its request is made for waits too, and
      has to ask its parent. */
  lemma {:induction false} ChainClimbs(s: State, p: seq<nat>)
    requires Ok(s) && p in s.pend
    ensures OnPath(At(s.tree, p), s.pend[p].path)
    ensures IsGet(s.pend[p].ty) ==> Climbs(At(s.tree, p), s.pend[p].path, s.pend[p].ty)
    decreases |s.pend[p].path|
  {
    var r := s.pend[p];
    assert SenderOk(At(s.tree, p), r) && LinkedOn(s.pend, p);
    if r.path != [] {
      var q := p + [r.path[0]];
      AtSplit(s.tree, p, [r.path[0]]);
      assert [r.path[0]][1..] == [];
      ChainClimbs(s, q);
    }
  }

  lemma OkIsWellFormed(s: State)
    requires Ok(s)
    ensures WellFormed(s)
  {
    forall p | p in s.pend
      ensures OnPath(At(s.tree, p), s.pend[p].path)
    {
      ChainClimbs(s, p);
    }
  }

  /** The links between the requests that stay survive when those of one chain are served. */
  lemma ServedLinks(s: State, p: seq<nat>, full: seq<nat>)
    requires Ok(s) && (p == [] || p !in s.pend)
    ensures forall q :: q in Served(s.pend, p, full) ==> LinkedOn(Served(s.pend, p, full), q)
  {
    var pend' := Served(s.pend, p, full);
    forall q | q in pend'
      ensures LinkedOn(pend', q)
    {
      assert LinkedOn(s.pend, q);
      if s.pend[q].path != [] { OneLonger(p, q, s.pend[q].path[0], full); }
    }
  }

  lemma OneLonger(p: seq<nat>, q: seq<nat>, x: nat, full: seq<nat>)
    ensures p <= q + [x] <= full ==> p == q + [x] || p <= q <= full
  {
  }

  // ---------------------------------------------------------------- the senders elsewhere

  lemma {:induction false} ReplaceSelf(t: Cache, p: seq<nat>)
    requires OnPath(t, p)
    ensures ReplaceAt(t, p, At(t, p)) == t
    decreases |p|
  {
    if p != [] { ReplaceSelf(t.kids[p[0]].cache, p[1..]); }
  }

  /** Work at `p` leaves a sender above `p` or beside it ready. An evicting cache above `p` has
      nothing left below it to work on. */
  lemma SenderOutside(s: State, p: seq<nat>, k: Cache, q: seq<nat>)
    requires Ok(s) && OnPath(s.tree, p) && q in s.pend && !(p <= q)
    requires At(s.tree, p).state == I ==> k == At(s.tree, p)
    ensures var t := ReplaceAt(s.tree, p, k); OnPath(t, q) && SenderOk(At(t, q), s.pend[q])
  {
    var r := s.pend[q];
    assert SenderOk(At(s.tree, q), r);
    ReplaceOutside(s.tree, p, k, q);
    if q <= p && !IsGet(r.ty) {
      BelowPurged(s.tree, q, p);
      ReplaceSelf(s.tree, p);
    }
  }

  lemma BelowPurged(t: Cache, q: seq<nat>, p: seq<nat>)
    requires OnPath(t, p) && OnPath(t, q) && q <= p && q != p && Purged(At(t, q))
    ensures At(t, p).state == I
  {
    var rest := p[|q|..];
    assert p == q + rest;
    AtSplit(t, q, rest);
    var k := At(t, q);
    AllInvalidAt(k.(state := I).kids[rest[0]].cache, rest[1..]);
  }

  /** A sender below `p` stays ready if it is hit or left alone. */
  lemma SenderInside(s: State, p: seq<nat>, k: Cache, q: seq<nat>)
    requires Ok(s) && OnPath(s.tree, p) && p + q in s.pend && OnPath(At(s.tree, p), q)
    requires OnPath(k, q) && Hit(At(At(s.tree, p), q), At(k, q))
    ensures var t := ReplaceAt(s.tree, p, k); OnPath(t, p + q) && SenderOk(At(t, p + q), s.pend[p + q])
  {
    AtSplit(s.tree, p, q);
    ReplaceInside(s.tree, p, k, q);
    SenderSurvives(At(At(s.tree, p), q), At(k, q), s.pend[p + q]);
  }

  /** Whoever is at `q` in a subtree is hit or left alone when `k'` takes its place. */
  ghost predicate HitsBelow(k: Cache, k': Cache, q: seq<nat>) {
    OnPath(k, q) ==> OnPath(k', q) && Hit(At(k, q), At(k', q))
  }

  ghost predicate Bystander(s: State, p: seq<nat>, k: Cache, q: seq<nat>)
    requires OnPath(s.tree, p)
  {
    p <= q ==> HitsBelow(At(s.tree, p), k, q[|p|..])
  }

  /** What every piece of work at a place must show for the whole tree to stay in order. */
  lemma WorkKeeps(s: State, p: seq<nat>, k: Cache, pend': map<seq<nat>, Req>)
    requires Ok(s) && OnPath(s.tree, p) && Coherent(k)
    requires k.state == At(s.tree, p).state || (At(s.tree, p).state == E && k.state == M)
    requires HasDirty(At(s.tree, p)) ==> HasDirty(k)
    requires At(s.tree, p).state == I ==> k == At(s.tree, p)
    requires forall q :: q in pend' && q != p ==> q in s.pend && pend'[q] == s.pend[q] && Bystander(s, p, k, q)
    requires p in pend' ==> SenderOk(k, pend'[p])
    requires forall q :: q in pend' ==> LinkedOn(pend', q)
    ensures Ok(State(ReplaceAt(s.tree, p, k), pend'))
    ensures HasDirty(s.tree) ==> HasDirty(ReplaceAt(s.tree, p, k))
  {
    var t := ReplaceAt(s.tree, p, k);
    ReplaceKeeps(s.tree, p, k);
    forall q | q in pend'
      ensures OnPath(t, q) && SenderOk(At(t, q), pend'[q])
    {
      if q == p {
        ReplaceInside(s.tree, p, k, []);
        assert p + [] == p;
      } else if p <= q {
        var rest := q[|p|..];
        assert q == p + rest;
        AtSplit(s.tree, p, rest);
        assert Bystander(s, p, k, q);
        SenderInside(s, p, k, rest);
      } else {
        SenderOutside(s, p, k, q);
      }
    }
  }

  // ---------------------------------------------------------------- each event, proved

  ghost predicate EffectOk(s: State, o: Effect) {
    o.ok && Ok(o.s) && (HasDirty(s.tree) ==> HasDirty(o.s.tree) || o.out)
  }

  lemma NewLinks(s: State, p: seq<nat>, r: Req, pend': map<seq<nat>, Req>)
    requires Ok(s) && p !in s.pend && r.path == [] && pend' == s.pend[p := r]
    ensures forall q :: q in pend' ==> LinkedOn(pend', q)
  {
    forall q | q in pend'
      ensures LinkedOn(pend', q)
    {
      if q != p { assert LinkedOn(s.pend, q); }
    }
  }

  /** Changing the root of a subtree alone leaves everyone below it alone. */
  lemma RootOnly(k: Cache, k': Cache, q: seq<nat>)
    requires k'.kids == k.kids && q != []
    ensures HitsBelow(k, k', q)
  {
    if OnPath(k, q) { assert At(k', q) == At(k, q); }
  }

  lemma RequestKeeps(s: State, p: seq<nat>, ty: AccessType, noexcl: bool)
    requires Ok(s) && WellFormed(s) && Enabled(s, Request(p, ty, noexcl))
    ensures EffectOk(s, Next(s, Request(p, ty, noexcl)))
  {
    var k := At(s.tree, p);
    if NeedsUp(k.state, ty) {
      WaitKeeps(s, p, Req(ty, k.state, [], noexcl));
    } else {
      HitKeeps(s, p, MesiTree.Serve(k.state, ty, I));
    }
  }

  lemma WaitKeeps(s: State, p: seq<nat>, r: Req)
    requires Ok(s) && OnPath(s.tree, p) && p !in s.pend && r.path == [] && SenderOk(At(s.tree, p), r)
    ensures Ok(s.(pend := s.pend[p := r]))
  {
    var pend' := s.pend[p := r];
    NewLinks(s, p, r, pend');
    forall q | q in pend'
      ensures OnPath(s.tree, q) && SenderOk(At(s.tree, q), pend'[q])
    {
      if q != p { assert SenderOk(At(s.tree, q), s.pend[q]); }
    }
  }

  lemma HitKeeps(s: State, p: seq<nat>, st: MesiState)
    requires Ok(s) && OnPath(s.tree, p) && p !in s.pend
    requires st == At(s.tree, p).state || (At(s.tree, p).state == E && st == M)
    ensures Ok(s.(tree := ReplaceAt(s.tree, p, At(s.tree, p).(state := st))))
    ensures HasDirty(s.tree) ==> HasDirty(ReplaceAt(s.tree, p, At(s.tree, p).(state := st)))
  {
    var k := At(s.tree, p);
    CoherentAt(s.tree, p);
    ServedCoherent(k, st);
    DirtySame(k, st);
    forall q | q in s.pend
      ensures Bystander(s, p, k.(state := st), q)
    {
      if p <= q {
        assert |q| == |p| ==> q == p;
        RootOnly(k, k.(state := st), q[|p|..]);
      }
    }
    WorkKeeps(s, p, k.(state := st), s.pend);
  }

  lemma PurgeHits(k: Cache, q: seq<nat>)
    requires Coherent(k) && q != []
    ensures HitsBelow(k, Purge(k).c, q)
  {
    if OnPath(k, q) {
      SendHits(k, INV, q[0]);
      HitAt(k.kids[q[0]].cache, Purge(k).c.kids[q[0]].cache, q[1..]);
    }
  }

  lemma VacateKeeps(s: State, p: seq<nat>)
    requires Ok(s) && WellFormed(s) && Enabled(s, Vacate(p))
    ensures EffectOk(s, Next(s, Vacate(p)))
  {
    var k := At(s.tree, p);
    CoherentAt(s.tree, p);
    PurgeCorrect(k);
    PurgeGivesPurged(k);
    if k.state == I { InvalidHasNoSharers(k); }
    var k' := Purge(k).c;
    forall q | q in s.pend
      ensures Bystander(s, p, k', q)
    {
      if p <= q && q != p { PurgeHits(k, q[|p|..]); }
    }
    var r := Req(if k'.state == M then PUTX else PUTS, k'.state, [], false);
    NewLinks(s, p, r, s.pend[p := r]);
    WorkKeeps(s, p, k', Next(s, Vacate(p)).s.pend);
  }

  /** What the parent sees at `p` meets the invariant of its own model. */
  lemma ViewOk(s: State, p: seq<nat>, c: nat)
    requires Ok(s) && Enabled(s, TakeUp(p, c))
    ensures OnPath(At(s.tree, p).kids[c].cache, s.pend[p + [c]].path)
    ensures SysOk(View(s, p, c)) && MesiRaces.Enabled(View(s, p, c), Serve(c))
  {
    AtStep(s.tree, p, c);
    CoherentAt(s.tree, p);
    ChainClimbs(s, p + [c]);
    assert SenderOk(At(s.tree, p + [c]), s.pend[p + [c]]);
    assert PendOk(At(s.tree, p + [c]), s.pend[p + [c]]);
  }

  /** A writeback leaves everyone but its sender alone. */
  lemma PutHits(v: Sys, c: nat, q: seq<nat>)
    requires SysOk(v) && MesiRaces.Enabled(v, Serve(c)) && !IsGet(v.pend[c].value.ty) && q != [] && q != [c]
    ensures HitsBelow(v.top, ServeChild(v, c).sys.top, q)
  {
    if OnPath(v.top, q) && q[0] == c {
      assert q == [c] + q[1..];
      RootOnly(v.top.kids[c].cache, ServeChild(v, c).sys.top.kids[c].cache, q[1..]);
    }
  }

  lemma TakeUpPutKeeps(s: State, p: seq<nat>, c: nat)
    requires Ok(s) && WellFormed(s) && Enabled(s, TakeUp(p, c)) && !IsGet(s.pend[p + [c]].ty)
    ensures EffectOk(s, Next(s, TakeUp(p, c)))
  {
    var k, r := At(s.tree, p), s.pend[p + [c]];
    ViewOk(s, p, c);
    AtStep(s.tree, p, c);
    assert SenderOk(k.kids[c].cache, r) && [c] + r.path == [c];
    TakeUpPutWork(s, p, c);
    WorkKeeps(s, p, ServeChild(View(s, p, c), c).sys.top, Served(s.pend, p, p + [c]));
  }

  lemma TakeUpPutWork(s: State, p: seq<nat>, c: nat)
    requires Ok(s) && Enabled(s, TakeUp(p, c)) && !IsGet(s.pend[p + [c]].ty)
    ensures MesiRaces.Enabled(View(s, p, c), Serve(c))
    ensures var o := ServeChild(View(s, p, c), c);
      var k := At(s.tree, p);
      && o.ok && o.sys.up.None? && !o.out && Coherent(o.sys.top) && (HasDirty(k) ==> HasDirty(o.sys.top))
      && (o.sys.top.state == k.state || (k.state == E && o.sys.top.state == M))
      && (k.state == I ==> o.sys.top == k)
      && (forall q :: q in Served(s.pend, p, p + [c]) ==> Bystander(s, p, o.sys.top, q))
    ensures forall q :: q in Served(s.pend, p, p + [c]) ==> LinkedOn(Served(s.pend, p, p + [c]), q)
  {
    var v := View(s, p, c);
    ViewOk(s, p, c);
    ServePutCorrect(v, c);
    assert LinkOk(v.top, v.top.kids[c]) && PendOk(v.top.kids[c].cache, v.pend[c].value);
    ServedLinks(s, p, p + [c]);
    forall q | q in Served(s.pend, p, p + [c])
      ensures Bystander(s, p, ServeChild(v, c).sys.top, q)
    {
      if p <= q {
        assert q == p + q[|p|..];
        PutHits(v, c, q[|p|..]);
      }
    }
  }

  /** A GET that needs no help from above is served as one access along its chain. */
  lemma TakeUpIsGet(s: State, p: seq<nat>, c: nat)
    requires Ok(s) && Enabled(s, TakeUp(p, c)) && IsGet(s.pend[p + [c]].ty)
    requires !NeedsUp(At(s.tree, p).state, s.pend[p + [c]].ty)
    ensures OnPath(At(s.tree, p), [c] + s.pend[p + [c]].path)
    ensures var r := s.pend[p + [c]];
      && Climbs(At(s.tree, p).kids[c].cache, r.path, r.ty)
      && MesiRaces.Enabled(View(s, p, c), Serve(c))
      && var o := ServeChild(View(s, p, c), c);
      && o.sys.up.None? && o.sys.top == Get(At(s.tree, p), [c] + r.path, r.ty, r.noexcl, I).c
  {
    var r := s.pend[p + [c]];
    ViewOk(s, p, c);
    AtStep(s.tree, p, c);
    ChainClimbs(s, p + [c]);
    assert SenderOk(At(s.tree, p + [c]), r);
    assert ([c] + r.path)[1..] == r.path;
  }

  lemma TakeUpGetKeeps(s: State, p: seq<nat>, c: nat)
    requires Ok(s) && WellFormed(s) && Enabled(s, TakeUp(p, c)) && IsGet(s.pend[p + [c]].ty)
    requires !NeedsUp(At(s.tree, p).state, s.pend[p + [c]].ty)
    ensures EffectOk(s, Next(s, TakeUp(p, c)))
  {
    var r := s.pend[p + [c]];
    TakeUpGetWork(s, p, c);
    TakeUpIsGet(s, p, c);
    var k' := Get(At(s.tree, p), [c] + r.path, r.ty, r.noexcl, I).c;
    AbsorbServed(s, p, c, ServeChild(View(s, p, c), c), k');
  }

  lemma AbsorbServed(s: State, p: seq<nat>, c: nat, o: Outcome, k: Cache)
    requires Ok(s) && OnPath(s.tree, p) && p + [c] in s.pend && p !in s.pend && o.sys.up.None? && o.sys.top == k && o.ok
    requires Coherent(k) && (HasDirty(At(s.tree, p)) ==> HasDirty(k)) && At(s.tree, p).state != I
    requires k.state == At(s.tree, p).state || (At(s.tree, p).state == E && k.state == M)
    requires var pend' := Served(s.pend, p, p + ([c] + s.pend[p + [c]].path));
      forall q :: q in pend' ==> Bystander(s, p, k, q) && LinkedOn(pend', q)
    ensures EffectOk(s, Absorb(s, p, c, o))
  {
    var r := s.pend[p + [c]];
    WorkKeeps(s, p, k, Served(s.pend, p, p + ([c] + r.path)));
  }

  lemma TakeUpGetWork(s: State, p: seq<nat>, c: nat)
    requires Ok(s) && Enabled(s, TakeUp(p, c)) && IsGet(s.pend[p + [c]].ty)
    requires !NeedsUp(At(s.tree, p).state, s.pend[p + [c]].ty)
    ensures OnPath(At(s.tree, p), [c] + s.pend[p + [c]].path)
    ensures MesiRaces.Enabled(View(s, p, c), Serve(c)) && ServeChild(View(s, p, c), c).ok
    ensures var k, r := At(s.tree, p), s.pend[p + [c]];
      var path := [c] + r.path;
      var k' := Get(k, path, r.ty, r.noexcl, I).c;
      && Coherent(k') && (HasDirty(k) ==> HasDirty(k')) && k.state != I
      && (k'.state == k.state || (k.state == E && k'.state == M))
      && (forall q :: q in Served(s.pend, p, p + path) ==>
          Bystander(s, p, k', q) && LinkedOn(Served(s.pend, p, p + path), q))
  {
    var k, r := At(s.tree, p), s.pend[p + [c]];
    var path := [c] + r.path;
    ViewOk(s, p, c);
    TakeUpIsGet(s, p, c);
    ServeGetCorrect(View(s, p, c), c);
    CoherentAt(s.tree, p);
    GetCorrect(k, path, r.ty, r.noexcl, I);
    ServedLinks(s, p, p + path);
    forall q | q in Served(s.pend, p, p + path)
      ensures Bystander(s, p, Get(k, path, r.ty, r.noexcl, I).c, q)
    {
      ServedBystander(s, p, path, r.ty, r.noexcl, I, q);
    }
  }

  /** Whoever still waits is not on the path that was served. */
  lemma ServedBystander(s: State, p: seq<nat>, path: seq<nat>, ty: AccessType, noexcl: bool, grant: MesiState,
      q: seq<nat>)
    requires OnPath(s.tree, p) && Coherent(At(s.tree, p)) && OnPath(At(s.tree, p), path) && IsGet(ty)
    requires path != [] ==> Climbs(At(s.tree, p).kids[path[0]].cache, path[1..], ty)
    requires Climbs(At(s.tree, p), path, ty) ==> Grantable(ty, grant)
    requires q in Served(s.pend, p, p + path)
    ensures Bystander(s, p, Get(At(s.tree, p), path, ty, noexcl, grant).c, q)
  {
    if p <= q && OnPath(At(s.tree, p), q[|p|..]) {
      assert q == p + q[|p|..];
      Along(p, q[|p|..], path);
      GetHitsAt(At(s.tree, p), path, ty, noexcl, grant, q[|p|..]);
    }
  }

  lemma Along(p: seq<nat>, q: seq<nat>, path: seq<nat>)
    ensures q <= path ==> p <= p + q <= p + path
  {
  }

  /** A GET that needs help from above makes its parent wait as well. */
  lemma TakeUpWaits(s: State, p: seq<nat>, c: nat)
    requires Ok(s) && WellFormed(s) && Enabled(s, TakeUp(p, c)) && IsGet(s.pend[p + [c]].ty)
    requires NeedsUp(At(s.tree, p).state, s.pend[p + [c]].ty)
    ensures EffectOk(s, Next(s, TakeUp(p, c)))
  {
    var r := s.pend[p + [c]];
    ViewOk(s, p, c);
    AtStep(s.tree, p, c);
    RaceCheckLegalises(View(s, p, c), c);
    WaitsInTurn(s, p, c);
    assert ServeChild(View(s, p, c), c).ok && ServeChild(View(s, p, c), c).sys.up.Some?;
  }

  lemma WaitsInTurn(s: State, p: seq<nat>, c: nat)
    requires Ok(s) && Enabled(s, TakeUp(p, c)) && IsGet(s.pend[p + [c]].ty)
    requires NeedsUp(At(s.tree, p).state, s.pend[p + [c]].ty)
    ensures var r := s.pend[p + [c]];
      Ok(s.(pend := s.pend[p := Req(r.ty, At(s.tree, p).state, [c] + r.path, r.noexcl)]))
  {
    var r := s.pend[p + [c]];
    var pend' := s.pend[p := Req(r.ty, At(s.tree, p).state, [c] + r.path, r.noexcl)];
    assert ([c] + r.path)[1..] == r.path;
    forall q | q in pend'
      ensures SenderOk(At(s.tree, q), pend'[q]) && LinkedOn(pend', q)
    {
      if q != p { assert SenderOk(At(s.tree, q), s.pend[q]) && LinkedOn(s.pend, q); }
    }
  }

  lemma MemoryKeeps(s: State)
    requires Ok(s) && WellFormed(s) && Enabled(s, Memory)
    ensures EffectOk(s, Next(s, Memory))
  {
    var r := s.pend[[]];
    assert SenderOk(At(s.tree, []), r);
    if IsGet(r.ty) { MemoryGetKeeps(s); } else { MemoryPutKeeps(s); }
  }

  lemma MemoryPutKeeps(s: State)
    requires Ok(s) && WellFormed(s) && Enabled(s, Memory) && !IsGet(s.pend[[]].ty)
    ensures EffectOk(s, Next(s, Memory))
  {
    var t := s.tree.(state := I);
    var pend' := Served(s.pend, [], []);
    assert SenderOk(At(s.tree, []), s.pend[[]]);
    if HasDirty(s.tree) { PurgedDirty(s.tree); }
    ServedLinks(s, [], []);
    forall q | q in pend'
      ensures OnPath(t, q) && SenderOk(At(t, q), pend'[q])
    {
      assert SenderOk(At(s.tree, q), s.pend[q]);
      assert q != [] && At(t, q) == At(s.tree, q);
    }
  }

  lemma MemoryGetKeeps(s: State)
    requires Ok(s) && WellFormed(s) && Enabled(s, Memory) && IsGet(s.pend[[]].ty)
    ensures EffectOk(s, Next(s, Memory))
  {
    var r := s.pend[[]];
    var pend' := Served(s.pend, [], r.path);
    ChainClimbs(s, []);
    var g := Get(s.tree, r.path, r.ty, r.noexcl, MemoryGrant(r.ty, r.noexcl));
    GetCorrect(s.tree, r.path, r.ty, r.noexcl, MemoryGrant(r.ty, r.noexcl));
    ServedLinks(s, [], r.path);
    forall q | q in pend'
      ensures OnPath(g.c, q) && SenderOk(At(g.c, q), pend'[q])
    {
      assert SenderOk(At(s.tree, q), s.pend[q]);
      GetHitsAt(s.tree, r.path, r.ty, r.noexcl, MemoryGrant(r.ty, r.noexcl), q);
      SenderSurvives(At(s.tree, q), At(g.c, q), s.pend[q]);
    }
  }

  /** Every event, anywhere in the tree and whoever else is waiting, trips no assertion in any
      controller, keeps the tree coherent and every waiting request legal, and loses no dirty
      data. */
  lemma StepKeeps(s: State, e: Event)
    requires Ok(s) && WellFormed(s) && Enabled(s, e)
    ensures EffectOk(s, Next(s, e))
  {
    match e
    case Request(p, ty, noexcl) => RequestKeeps(s, p, ty, noexcl);
    case Vacate(p) => VacateKeeps(s, p);
    case TakeUp(p, c) =>
      if !IsGet(s.pend[p + [c]].ty) { TakeUpPutKeeps(s, p, c); }
      else if NeedsUp(At(s.tree, p).state, s.pend[p + [c]].ty) { TakeUpWaits(s, p, c); }
      else { TakeUpGetKeeps(s, p, c); }
    case Memory => MemoryKeeps(s);
  }
}
