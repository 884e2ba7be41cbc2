/** Whole transactions on the cache tree: an access climbs from a cache towards memory as far
    as it needs permissions, an eviction writes back to the parent. Each runs atomically here;
    MesiRaces.dfy lets them interleave. A path lists child numbers from the root. */
module MesiTree {
  import opened Mesi

  // ---------------------------------------------------------------- the controllers' routines

  /** The bottom controller must ask the level above before it can serve the request. */
  predicate NeedsUp(s: MesiState, ty: AccessType) {
    (ty == GETS && s == I) || (ty == GETX && (s == I || s == S))
  }

  /** The bottom controller's state once it may serve the request; `grant` is what the level
      above wrote into it, if it had to be asked. */
  function Serve(s: MesiState, ty: AccessType, grant: MesiState): MesiState {
    if NeedsUp(s, ty) then grant
    else if ty == GETX || ty == PUTX then M
    else s
  }

  /** The assertions around that step. */
  predicate ServeOk(s: MesiState, ty: AccessType, grant: MesiState) {
    match ty
    case GETS => NeedsUp(s, ty) ==> grant == S || grant == E
    case GETX => Serve(s, ty, grant) == M
    case PUTS => s != I
    case PUTX => Owner(s)
  }

  /** What the top controller answers to child `c`: the cache after it, and the child's state. */
  datatype Answer = Answer(c: Cache, grant: MesiState, wb: bool, ok: bool)

  function SetShared(t: Cache, c: nat, b: bool): Cache
    requires c < |t.kids|
  {
    t.(kids := t.kids[c := t.kids[c].(shared := b)])
  }

  function TopGets(t: Cache, c: nat, noexcl: bool): (a: Answer)
    requires c < |t.kids|
    ensures |a.c.kids| == |t.kids|
  {
    if t.num == 0 && Owner(t.state) && !noexcl then
      Answer(SetShared(t, c, true).(excl := true, num := 1), E, false, true)
    else
      var r := if IsExclusive(t) then SendInvalidates(t, INVX) else Result(t, false, true);
      Answer(SetShared(r.c, c, true).(num := r.c.num + 1, excl := false), S, r.wb,
             !t.kids[c].shared && r.ok && !IsExclusive(r.c))
  }

  /** An upgrading requester is first taken out of the sharer set. */
  function WithoutRequester(t: Cache, c: nat): Cache
    requires c < |t.kids|
  {
    if t.kids[c].shared then SetShared(t, c, false).(num := if t.num > 0 then t.num - 1 else 0) else t
  }

  function TopGetx(t: Cache, c: nat): (a: Answer)
    requires c < |t.kids|
    ensures |a.c.kids| == |t.kids|
  {
    var r := SendInvalidates(WithoutRequester(t, c), INV);
    Answer(SetShared(r.c, c, true).(num := r.c.num + 1, excl := true), M, r.wb,
           Owner(t.state) && (t.kids[c].shared ==> !IsExclusive(t)) && r.ok && r.c.num == 0)
  }

  /** A writeback from child `c`: the child loses the line. */
  function TopPut(t: Cache, c: nat, ty: AccessType): Answer
    requires c < |t.kids|
  {
    Answer(SetShared(t, c, false).(num := if t.num > 0 then t.num - 1 else 0), I, false,
           t.kids[c].shared && (ty == PUTX ==> IsExclusive(t)))
  }

  function TopGet(t: Cache, c: nat, ty: AccessType, noexcl: bool): (a: Answer)
    requires c < |t.kids|
    ensures |a.c.kids| == |t.kids|
  {
    if ty == GETX then TopGetx(t, c) else TopGets(t, c, noexcl)
  }

  function SetKid(t: Cache, c: nat, k: Cache): Cache
    requires c < |t.kids|
  {
    t.(kids := t.kids[c := t.kids[c].(cache := k)])
  }

  /** Only the caches behind the links matter for the shape. */
  ghost predicate SameCaches(a: Cache, b: Cache) {
    |a.kids| == |b.kids| && forall i :: 0 <= i < |a.kids| ==> a.kids[i].cache == b.kids[i].cache
  }

  lemma ShapeOfCaches(a: Cache, a1: Cache, b1: Cache, b: Cache)
    requires SameCaches(a, a1) && SameShape(a1, b1) && SameCaches(b1, b)
    ensures SameShape(a, b)
  {
  }

  lemma TopGetShape(t: Cache, c: nat, ty: AccessType, noexcl: bool)
    requires c < |t.kids|
    ensures SameShape(t, TopGet(t, c, ty, noexcl).c)
  {
    if ty == GETX { TopGetxShape(t, c); } else { TopGetsShape(t, c, noexcl); }
  }

  lemma TopGetxShape(t: Cache, c: nat)
    requires c < |t.kids|
    ensures SameShape(t, TopGetx(t, c).c)
  {
    var t1 := WithoutRequester(t, c);
    InvalidateShape(t1, INV);
    assert SameCaches(t, t1);
    ShapeOfCaches(t, t1, SendInvalidates(t1, INV).c, TopGetx(t, c).c);
  }

  lemma SharedKeepsCaches(t: Cache, c: nat, b: bool)
    requires c < |t.kids|
    ensures SameCaches(t, SetShared(t, c, b))
  {
  }

  lemma TopGetsShape(t: Cache, c: nat, noexcl: bool)
    requires c < |t.kids|
    ensures SameShape(t, TopGets(t, c, noexcl).c)
  {
    ShapeRefl(t);
    InvalidateShape(t, INVX);
    var from := if IsExclusive(t) then SendInvalidates(t, INVX).c else t;
    SharedKeepsCaches(from, c, true);
    assert TopGets(t, c, noexcl).c.kids == SetShared(from, c, true).kids;
    ShapeOfCaches(t, t, from, TopGets(t, c, noexcl).c);
  }

  lemma {:induction false} ShapePath(a: Cache, b: Cache, path: seq<nat>)
    requires SameShape(a, b) && OnPath(a, path)
    ensures OnPath(b, path)
    decreases |path|
  {
    if path != [] { ShapePath(a.kids[path[0]].cache, b.kids[path[0]].cache, path[1..]); }
  }

  // ---------------------------------------------------------------- accesses

  predicate OnPath(t: Cache, path: seq<nat>) {
    path == [] || (path[0] < |t.kids| && OnPath(t.kids[path[0]].cache, path[1..]))
  }

  /** The request made at `path` reaches this cache and makes it ask the level above. */
  predicate Climbs(t: Cache, path: seq<nat>, ty: AccessType)
    requires OnPath(t, path)
    decreases |path|
  {
    NeedsUp(t.state, ty) && (path == [] || Climbs(t.kids[path[0]].cache, path[1..], ty))
  }

  /** Serves a GETS or GETX made at `path`, given the state `grant` that the level above this
      cache answers with if it is asked. The request is handled at the cache on the path that
      is closest to the requester and has the permission; below it each cache is granted its
      state in turn. */
  function Get(t: Cache, path: seq<nat>, ty: AccessType, noexcl: bool, grant: MesiState): Result
    requires OnPath(t, path)
    decreases |path|
  {
    var s := Serve(t.state, ty, grant);
    if path == [] then Result(t.(state := s), false, ServeOk(t.state, ty, grant))
    else
      var c := path[0];
      if !Climbs(t.kids[c].cache, path[1..], ty) then
        var k := Get(t.kids[c].cache, path[1..], ty, noexcl, I);
        Result(SetKid(t, c, k.c), false, k.ok)
      else
        var a := TopGet(t.(state := s), c, ty, noexcl);
        TopGetShape(t.(state := s), c, ty, noexcl);
        var u := if a.wb then a.c.(state := M) else a.c;
        ShapePath(t.kids[c].cache, u.kids[c].cache, path[1..]);
        var k := Get(u.kids[c].cache, path[1..], ty, noexcl, a.grant);
        Result(SetKid(u, c, k.c), a.wb, ServeOk(t.state, ty, grant) && a.ok && (a.wb ==> Owner(a.c.state)) && k.ok)
  }

  /** Main memory above the root grants every request. */
  function MemoryGrant(ty: AccessType, noexcl: bool): MesiState {
    if ty == GETX then M else if noexcl then S else E
  }

  function Access(t: Cache, path: seq<nat>, ty: AccessType, noexcl: bool): Result
    requires OnPath(t, path)
  {
    Get(t, path, ty, noexcl, MemoryGrant(ty, noexcl))
  }

  // ---------------------------------------------------------------- evictions

  /** First half of an eviction: invalidate everything below; a writeback from below turns the
      cache dirty. The second component is the writeback type, if any is needed. */
  function Purge(t: Cache): Result {
    var r := SendInvalidates(t, INV);
    Result(if r.wb then r.c.(state := M) else r.c, r.wb, r.ok && (r.wb ==> Owner(t.state)))
  }

  /** Evicts the line at `path`. `wb` of the result tells whether a dirty writeback left this
      tree for memory, which only an eviction at the root can do. */
  function Evict(t: Cache, path: seq<nat>): Result
    requires OnPath(t, path)
    decreases |path|
  {
    if path == [] then
      var r := Purge(t);
      Result(r.c.(state := I), r.c.state == M, r.ok)
    else if |path| == 1 then
      var c := path[0];
      var r := Purge(t.kids[c].cache);
      if r.c.state == I then Result(SetKid(t, c, r.c), false, r.ok)
      else
        var ty := if r.c.state == M then PUTX else PUTS;
        var a := TopPut(SetKid(t, c, r.c), c, ty);
        Result(SetKid(a.c.(state := Serve(t.state, ty, I)), c, r.c.(state := a.grant)), false,
               r.ok && ServeOk(t.state, ty, I) && a.ok)
    else
      var k := Evict(t.kids[path[0]].cache, path[1..]);
      Result(SetKid(t, path[0], k.c), k.wb, k.ok)
  }

  // ---------------------------------------------------------------- one controller, proved

  /** A cache whose children are coherent and whose directory fits them, except that child `c`
      is about to be written. */
  ghost predicate Fits(t: Cache, c: nat, grant: MesiState)
    requires c < |t.kids|
  {
    && t.num == Count(t.kids) && (t.excl ==> t.num <= 1)
    && (forall i :: 0 <= i < |t.kids| ==> Coherent(t.kids[i].cache))
    && (forall i :: 0 <= i < |t.kids| && i != c ==> LinkOk(t, t.kids[i]))
    && t.kids[c].shared && t.state != I
    && grant != I && (IsExclusive(t) <==> Owner(grant)) && (Owner(grant) ==> Owner(t.state))
  }

  lemma FitsCloses(t: Cache, c: nat, grant: MesiState, k: Cache)
    requires c < |t.kids| && Fits(t, c, grant) && Coherent(k)
    requires k.state == grant
    ensures Coherent(SetKid(t, c, k))
  {
    var u := SetKid(t, c, k);
    CountSame(u.kids, t.kids);
    forall i | 0 <= i < |u.kids|
      ensures LinkOk(u, u.kids[i]) && Coherent(u.kids[i].cache)
    {
      if i != c { assert u.kids[i] == t.kids[i] && LinkOk(t, t.kids[i]); }
    }
  }

  /** Swapping in a child that kept its permission class keeps the cache coherent. */
  lemma SameClassCloses(t: Cache, c: nat, k: Cache)
    requires c < |t.kids| && Coherent(t) && Coherent(k)
    requires k.state == t.kids[c].cache.state || (t.kids[c].cache.state == E && k.state == M)
    ensures Coherent(SetKid(t, c, k))
  {
    var u := SetKid(t, c, k);
    CountSame(u.kids, t.kids);
    forall i | 0 <= i < |u.kids|
      ensures LinkOk(u, u.kids[i]) && Coherent(u.kids[i].cache)
    {
      assert LinkOk(t, t.kids[i]);
    }
  }

  lemma ServedCoherent(t: Cache, s: MesiState)
    requires Coherent(t) && (t.state != I ==> s != I) && (Owner(t.state) ==> Owner(s))
    ensures Coherent(t.(state := s))
  {
    var u := t.(state := s);
    forall i | 0 <= i < |u.kids|
      ensures LinkOk(u, u.kids[i]) && Coherent(u.kids[i].cache)
    {
      assert LinkOk(t, t.kids[i]);
    }
  }

  /** What the top controller's answer to a requester must achieve. */
  ghost predicate AnswerDone(t: Cache, c: nat, a: Answer)
    requires c < |t.kids|
  {
    && a.ok && |a.c.kids| == |t.kids| && a.c.kids[c].cache == t.kids[c].cache
    && a.c.state == t.state && (a.wb ==> Owner(t.state))
    && Fits(a.c, c, a.grant)
  }

  /** The requester's own subtree is untouched by the answer, and a dirty copy elsewhere is
      either this cache's own or reported. */
  lemma TopGetsCorrect(t: Cache, c: nat, noexcl: bool)
    requires Coherent(t) && t.state != I && c < |t.kids| && t.kids[c].cache.state == I
    ensures AnswerDone(t, c, TopGets(t, c, noexcl))
    ensures HasDirty(t) ==> t.state == M || TopGets(t, c, noexcl).wb
  {
    assert LinkOk(t, t.kids[c]);
    if t.num == 0 && Owner(t.state) && !noexcl {
      GetsAlone(t, c);
    } else if IsExclusive(t) {
      GetsDowngrades(t, c, noexcl);
    } else {
      GetsJoins(t, c, noexcl);
    }
    if HasDirty(t) && t.state != M {
      var i :| 0 <= i < |t.kids| && HasDirty(t.kids[i].cache);
      DirtyBelowIsExclusive(t, i);
      SendCorrect(t, INVX);
    }
  }

  lemma GetsAlone(t: Cache, c: nat)
    requires Coherent(t) && Owner(t.state) && t.num == 0 && c < |t.kids| && t.kids[c].cache.state == I
    ensures AnswerDone(t, c, TopGets(t, c, false))
  {
    CountZero(t.kids);
    CountUpdate(t.kids, c, t.kids[c].(shared := true));
    forall i | 0 <= i < |t.kids|
      ensures LinkOk(t, t.kids[i]) && Coherent(t.kids[i].cache)
    {
    }
  }

  lemma GetsDowngrades(t: Cache, c: nat, noexcl: bool)
    requires Coherent(t) && IsExclusive(t) && c < |t.kids| && t.kids[c].cache.state == I
    ensures Owner(t.state)
    ensures AnswerDone(t, c, TopGets(t, c, noexcl))
  {
    SomeSharer(t);
    SendCorrect(t, INVX);
    var r := SendInvalidates(t, INVX);
    assert LinkOk(t, t.kids[c]);
    CountUpdate(r.c.kids, c, r.c.kids[c].(shared := true));
    DowngradeFits(t, c, r);
  }

  /** Once the exclusive copy has been downgraded, another sharer may join. */
  lemma DowngradeFits(t: Cache, c: nat, r: Result)
    requires Coherent(t) && Owner(t.state) && c < |t.kids| && !t.kids[c].shared && SendDone(t, INVX, r)
    requires Count(r.c.kids[c := r.c.kids[c].(shared := true)]) == r.c.num + 1
    ensures Fits(SetShared(r.c, c, true).(num := r.c.num + 1, excl := false), c, S)
  {
    var u := SetShared(r.c, c, true).(num := r.c.num + 1, excl := false);
    forall i | 0 <= i < |u.kids| && i != c
      ensures LinkOk(u, u.kids[i])
    {
      assert u.kids[i] == r.c.kids[i] && LinkOk(t, t.kids[i]);
    }
    forall i | 0 <= i < |u.kids|
      ensures Coherent(u.kids[i].cache)
    {
      assert u.kids[i].cache == r.c.kids[i].cache;
    }
  }

  lemma GetsJoins(t: Cache, c: nat, noexcl: bool)
    requires Coherent(t) && t.state != I && !IsExclusive(t) && c < |t.kids| && t.kids[c].cache.state == I
    requires t.num != 0 || !Owner(t.state) || noexcl
    ensures AnswerDone(t, c, TopGets(t, c, noexcl))
  {
    assert LinkOk(t, t.kids[c]);
    CountUpdate(t.kids, c, t.kids[c].(shared := true));
    var u := SetShared(t, c, true).(num := t.num + 1, excl := false);
    forall i | 0 <= i < |u.kids|
      ensures Coherent(u.kids[i].cache)
      ensures i != c ==> LinkOk(u, u.kids[i])
    {
      assert LinkOk(t, t.kids[i]) && Coherent(t.kids[i].cache);
    }
    assert Fits(u, c, S);
  }

  lemma SomeSharer(t: Cache)
    requires Coherent(t) && IsExclusive(t)
    ensures Owner(t.state)
  {
    CountZero(t.kids);
    var i :| 0 <= i < |t.kids| && t.kids[i].shared;
    assert LinkOk(t, t.kids[i]);
  }

  lemma TopGetxCorrect(t: Cache, c: nat)
    requires Coherent(t) && Owner(t.state) && c < |t.kids| && !Owner(t.kids[c].cache.state)
    ensures AnswerDone(t, c, TopGetx(t, c))
  {
    assert LinkOk(t, t.kids[c]);
    GetxFansOut(t, c);
    ClearedFits(t, c, SendInvalidates(WithoutRequester(t, c), INV));
  }

  /** Once every other copy is gone, the requester may become the one exclusive sharer. */
  lemma ClearedFits(t: Cache, c: nat, r: Result)
    requires Owner(t.state) && c < |t.kids| == |r.c.kids| && GetxFannedOut(t, c, r)
    ensures Fits(SetShared(r.c, c, true).(num := r.c.num + 1, excl := true), c, M)
  {
    var u := SetShared(r.c, c, true).(num := r.c.num + 1, excl := true);
    CountZero(r.c.kids);
    CountUpdate(r.c.kids, c, r.c.kids[c].(shared := true));
    forall i | 0 <= i < |u.kids|
      ensures Coherent(u.kids[i].cache)
      ensures i != c ==> LinkOk(u, u.kids[i])
    {
      assert u.kids[i].cache == r.c.kids[i].cache;
    }
  }

  /** After the requester has been taken out of the sharer set, the fan-out clears every other
      copy and leaves the requester's subtree alone. */
  lemma GetxFansOut(t: Cache, c: nat)
    requires Coherent(t) && c < |t.kids|
    ensures GetxFannedOut(t, c, SendInvalidates(WithoutRequester(t, c), INV))
  {
    var t1 := WithoutRequester(t, c);
    CountZero(t.kids);
    CountUpdate(t.kids, c, t.kids[c].(shared := false));
    assert t1.kids == t.kids[c := t.kids[c].(shared := false)];
    CountZero(t1.kids);
    forall i | 0 <= i < |t.kids|
      ensures GetxLinkDone(t, c, i)
    {
      GetxLink(t, c, i);
    }
    GetxAssemble(t, c);
  }

  ghost predicate GetxFannedOut(t: Cache, c: nat, r: Result)
    requires c < |t.kids| && |r.c.kids| == |t.kids|
  {
    && r.ok && r.c.state == t.state && r.c.num == 0
    && r.c.kids[c] == Link(false, t.kids[c].cache)
    && (r.wb ==> Owner(t.state))
    && (forall i :: 0 <= i < |t.kids| ==> Coherent(r.c.kids[i].cache) && !r.c.kids[i].shared)
    && (forall i :: 0 <= i < |t.kids| && i != c ==> AllInvalid(r.c.kids[i].cache))
  }

  lemma GetxAssemble(t: Cache, c: nat)
    requires c < |t.kids|
    requires forall i :: 0 <= i < |t.kids| ==> GetxLinkDone(t, c, i)
    requires var t1 := WithoutRequester(t, c);
      && t1.num == Count(t1.kids) && !t1.kids[c].shared && t1.state == t.state
      && (t1.num == 0 ==> forall i :: 0 <= i < |t1.kids| ==> !t1.kids[i].shared)
    ensures GetxFannedOut(t, c, SendInvalidates(WithoutRequester(t, c), INV))
  {
    var t1 := WithoutRequester(t, c);
    var r := SendInvalidates(t1, INV);
    forall i | 0 <= i < |t.kids|
      ensures r.c.kids[i] == Link(false, InvalLink(t1.kids[i], INV).c)
      ensures GetxLinkDone(t, c, i)
    {
    }
  }

  /** One link under that fan-out. */
  ghost predicate GetxLinkDone(t: Cache, c: nat, i: nat)
    requires c < |t.kids| && i < |t.kids|
  {
    var r := InvalLink(WithoutRequester(t, c).kids[i], INV);
    && r.ok && Coherent(r.c) && (i != c ==> AllInvalid(r.c)) && (i == c ==> r.c == t.kids[i].cache)
    && (r.wb ==> Owner(t.state))
    && (!WithoutRequester(t, c).kids[i].shared ==> r.c == t.kids[i].cache)
  }

  lemma GetxLink(t: Cache, c: nat, i: nat)
    requires Coherent(t) && c < |t.kids| && i < |t.kids|
    ensures GetxLinkDone(t, c, i)
  {
    assert LinkOk(t, t.kids[i]) && Coherent(t.kids[i].cache);
    Inclusion(t.kids[i].cache);
    if WithoutRequester(t, c).kids[i].shared {
      InvalidateCorrect(t.kids[i].cache, INV);
      if HasDirty(t.kids[i].cache) { DirtyBelowIsExclusive(t, i); }
    }
  }

  // ---------------------------------------------------------------- accesses, proved

  /** The states the level above may answer with. */
  predicate Grantable(ty: AccessType, grant: MesiState) {
    (ty == GETS && (grant == S || grant == E)) || (ty == GETX && grant == M)
  }

  /** What an access guarantees for the subtree at `t`. */
  ghost predicate GetDone(t: Cache, path: seq<nat>, ty: AccessType, grant: MesiState, r: Result)
    requires OnPath(t, path)
  {
    && r.ok && Coherent(r.c)
    && (if Climbs(t, path, ty) then r.c.state == grant
        else r.c.state == t.state || (t.state == E && r.c.state == M))
    && (HasDirty(t) ==> HasDirty(r.c))
    && OnPath(r.c, path)
    && (ty == GETS ==> At(r.c, path).state != I)
    && (ty == GETX ==> At(r.c, path).state == M)
  }

  function At(t: Cache, path: seq<nat>): Cache
    requires OnPath(t, path)
    decreases |path|
  {
    if path == [] then t else At(t.kids[path[0]].cache, path[1..])
  }

  lemma {:induction false} GetCorrect(t: Cache, path: seq<nat>, ty: AccessType, noexcl: bool, grant: MesiState)
    requires OnPath(t, path) && Coherent(t) && (ty == GETS || ty == GETX)
    requires Climbs(t, path, ty) ==> Grantable(ty, grant)
    ensures GetDone(t, path, ty, grant, Get(t, path, ty, noexcl, grant))
    decreases |path|
  {
    if path == [] {
      ServedCoherent(t, Serve(t.state, ty, grant));
      DirtySame(t, Serve(t.state, ty, grant));
    } else {
      var c := path[0];
      var kid := t.kids[c].cache;
      assert Coherent(kid) && LinkOk(t, t.kids[c]);
      if !Climbs(kid, path[1..], ty) {
        GetCorrect(kid, path[1..], ty, noexcl, I);
        var k := Get(kid, path[1..], ty, noexcl, I);
        SameClassCloses(t, c, k.c);
        DirtyKid(t, c, k.c);
      } else {
        GetThroughHere(t, path, ty, noexcl, grant);
      }
    }
  }

  /** The answer to a GET, with any induced writeback recorded. */
  lemma AnswerFits(t: Cache, c: nat, ty: AccessType, noexcl: bool)
    requires Coherent(t) && c < |t.kids|
    requires if ty == GETX then Owner(t.state) && !Owner(t.kids[c].cache.state)
             else ty == GETS && t.state != I && t.kids[c].cache.state == I
    ensures var a := TopGet(t, c, ty, noexcl);
      var u := if a.wb then a.c.(state := M) else a.c;
      && AnswerDone(t, c, a) && Fits(u, c, a.grant) && Grantable(ty, a.grant)
      && (ty == GETS && HasDirty(t) ==> u.state == M)
  {
    if ty == GETX { TopGetxCorrect(t, c); } else { TopGetsCorrect(t, c, noexcl); }
    var a := TopGet(t, c, ty, noexcl);
    if a.wb { FitsDirty(a.c, c, a.grant); }
  }

  /** A request that climbs through here: this cache's answer, and what the requester's side
      makes of it. */
  lemma GetThroughHere(t: Cache, path: seq<nat>, ty: AccessType, noexcl: bool, grant: MesiState)
    requires path != [] && OnPath(t, path) && Coherent(t) && (ty == GETS || ty == GETX)
    requires Climbs(t.kids[path[0]].cache, path[1..], ty)
    requires Climbs(t, path, ty) ==> Grantable(ty, grant)
    ensures GetDone(t, path, ty, grant, Get(t, path, ty, noexcl, grant))
    decreases |path|, 0
  {
    var c := path[0];
    var s := Serve(t.state, ty, grant);
    assert LinkOk(t, t.kids[c]);
    ServedCoherent(t, s);
    AnswerFits(t.(state := s), c, ty, noexcl);
    var a := TopGet(t.(state := s), c, ty, noexcl);
    GetCorrect(t.kids[c].cache, path[1..], ty, noexcl, a.grant);
    GetAssembles(t, path, ty, noexcl, grant, a, Get(t.kids[c].cache, path[1..], ty, noexcl, a.grant));
  }

  /** Putting the two together. */
  lemma GetAssembles(t: Cache, path: seq<nat>, ty: AccessType, noexcl: bool, grant: MesiState, a: Answer, k: Result)
    requires path != [] && OnPath(t, path) && Coherent(t) && (ty == GETS || ty == GETX)
    requires Climbs(t.kids[path[0]].cache, path[1..], ty)
    requires Climbs(t, path, ty) ==> Grantable(ty, grant)
    requires var t1 := t.(state := Serve(t.state, ty, grant));
      && a == TopGet(t1, path[0], ty, noexcl) && AnswerDone(t1, path[0], a) && Grantable(ty, a.grant)
      && var u := if a.wb then a.c.(state := M) else a.c;
      && Fits(u, path[0], a.grant) && (ty == GETS && HasDirty(t1) ==> u.state == M)
    requires k == Get(t.kids[path[0]].cache, path[1..], ty, noexcl, a.grant)
    requires GetDone(t.kids[path[0]].cache, path[1..], ty, a.grant, k)
    ensures GetDone(t, path, ty, grant, Get(t, path, ty, noexcl, grant))
  {
    var u := if a.wb then a.c.(state := M) else a.c;
    FitsCloses(u, path[0], a.grant, k.c);
    var r := Get(t, path, ty, noexcl, grant);
    assert r.c == SetKid(u, path[0], k.c);
    if t.state == I { InvalidHasNoSharers(t); }
    GetKeepsDirty(t, path, ty, noexcl, grant, r, u, k.c);
  }

  lemma InvalidHasNoSharers(t: Cache)
    requires Coherent(t) && t.state == I
    ensures t.num == 0
  {
    CountZero(t.kids);
    forall i | 0 <= i < |t.kids|
      ensures !t.kids[i].shared
    {
      assert LinkOk(t, t.kids[i]);
    }
  }

  lemma FitsDirty(t: Cache, c: nat, grant: MesiState)
    requires c < |t.kids| && Fits(t, c, grant) && Owner(t.state)
    ensures Fits(t.(state := M), c, grant)
  {
    var u := t.(state := M);
    forall i | 0 <= i < |u.kids| && i != c
      ensures LinkOk(u, u.kids[i])
    {
      assert LinkOk(t, t.kids[i]);
    }
  }

  lemma GetKeepsDirty(t: Cache, path: seq<nat>, ty: AccessType, noexcl: bool, grant: MesiState, r: Result, u: Cache,
      k: Cache)
    requires path != [] && OnPath(t, path) && Coherent(t) && path[0] < |u.kids| && OnPath(k, path[1..])
    requires r.c == SetKid(u, path[0], k)
    requires ty == GETX ==> At(k, path[1..]).state == M
    requires ty == GETS ==> (HasDirty(t) && t.state != I ==> u.state == M)
    ensures OnPath(r.c, path) && At(r.c, path) == At(k, path[1..])
    ensures ty == GETX || (ty == GETS && HasDirty(t)) ==> HasDirty(r.c)
  {
    assert r.c.kids[path[0]].cache == k;
    if ty == GETX {
      DirtyAt(r.c, path);
    } else if HasDirty(t) && t.state == I {
      Inclusion(t);
      AllInvalidNoOwner(t);
      NoOwnerNoDirty(t);
    }
  }

  lemma DirtySame(t: Cache, s: MesiState)
    requires t.state == M ==> s == M
    ensures HasDirty(t) ==> HasDirty(t.(state := s))
  {
    var u := t.(state := s);
    if HasDirty(t) && t.state != M {
      var i :| 0 <= i < |t.kids| && HasDirty(t.kids[i].cache);
      assert HasDirty(u.kids[i].cache);
    }
  }

  lemma DirtyKid(t: Cache, c: nat, k: Cache)
    requires c < |t.kids| && (HasDirty(t.kids[c].cache) ==> HasDirty(k))
    ensures HasDirty(t) ==> HasDirty(SetKid(t, c, k))
  {
    var u := SetKid(t, c, k);
    if HasDirty(t) && t.state != M {
      var i :| 0 <= i < |t.kids| && HasDirty(t.kids[i].cache);
      assert HasDirty(u.kids[i].cache);
    }
  }

  lemma {:induction false} DirtyAt(t: Cache, path: seq<nat>)
    requires OnPath(t, path) && At(t, path).state == M
    ensures HasDirty(t)
    decreases |path|
  {
    if path != [] {
      DirtyAt(t.kids[path[0]].cache, path[1..]);
      assert HasDirty(t.kids[path[0]].cache);
    }
  }

  // ---------------------------------------------------------------- evictions, proved

  lemma PurgeCorrect(t: Cache)
    requires Coherent(t)
    ensures var r := Purge(t);
      && r.ok && (r.c.state == M <==> HasDirty(t))
      && (r.c.state == t.state || (t.state == E && r.c.state == M))
      && Coherent(r.c) && Coherent(r.c.(state := I)) && AllInvalid(r.c.(state := I))
  {
    SendCorrect(t, INV);
    var r := SendInvalidates(t, INV);
    if r.wb {
      var i :| 0 <= i < |t.kids| && HasDirty(t.kids[i].cache);
      DirtyBelowIsExclusive(t, i);
    }
    EmptiedCloses(t, r, r.c.state);
    EmptiedCloses(t, r, M);
    EmptiedCloses(t, r, I);
  }

  /** Once nothing below holds the line, a cache may be in any state. */
  lemma EmptiedCloses(t: Cache, r: Result, s: MesiState)
    requires SendDone(t, INV, r)
    ensures Coherent(r.c.(state := s))
  {
    var u := r.c.(state := s);
    forall i | 0 <= i < |u.kids|
      ensures LinkOk(u, u.kids[i]) && Coherent(u.kids[i].cache)
    {
      assert !r.c.kids[i].shared && AllInvalid(u.kids[i].cache);
    }
  }

  ghost predicate EvictDone(t: Cache, path: seq<nat>, r: Result)
    requires OnPath(t, path)
  {
    && r.ok && Coherent(r.c)
    && (path != [] ==> r.c.state == t.state || (t.state == E && r.c.state == M))
    && (HasDirty(t) ==> HasDirty(r.c) || r.wb)
    && (r.wb <==> path == [] && HasDirty(t))
    && OnPath(r.c, path) && AllInvalid(At(r.c, path))
  }

  lemma {:induction false} EvictCorrect(t: Cache, path: seq<nat>)
    requires OnPath(t, path) && Coherent(t)
    ensures EvictDone(t, path, Evict(t, path))
    decreases |path|
  {
    if path == [] {
      PurgeCorrect(t);
    } else {
      var kid := t.kids[path[0]].cache;
      assert Coherent(kid) && LinkOk(t, t.kids[path[0]]);
      if |path| == 1 {
        EvictChild(t, path);
      } else {
        EvictCorrect(kid, path[1..]);
        var k := Evict(kid, path[1..]);
        SameClassCloses(t, path[0], k.c);
        DirtyKid(t, path[0], k.c);
      }
    }
  }

  lemma EvictChild(t: Cache, path: seq<nat>)
    requires |path| == 1 && OnPath(t, path) && Coherent(t)
    ensures EvictDone(t, path, Evict(t, path))
  {
    var c := path[0];
    var kid := t.kids[c].cache;
    assert LinkOk(t, t.kids[c]);
    PurgeCorrect(kid);
    var r := Purge(kid);
    var e := Evict(t, path);
    if r.c.state == I {
      SameClassCloses(t, c, r.c);
      DirtyKid(t, c, r.c);
    } else {
      PutCloses(t, c, r.c, Serve(t.state, if r.c.state == M then PUTX else PUTS, I));
      assert e.c.kids == t.kids[c := Link(false, r.c.(state := I))];
      assert e.c == Released(t, c, r.c, e.c.state);
    }
    assert At(e.c, path) == e.c.kids[c].cache by {
      assert path[1..] == [];
    }
  }

  /** The parent after child `c` gave the line up. */
  function Released(t: Cache, c: nat, k: Cache, s: MesiState): Cache
    requires c < |t.kids|
  {
    Cache(s, if t.num > 0 then t.num - 1 else 0, t.excl, t.kids[c := Link(false, k.(state := I))])
  }

  lemma PutCloses(t: Cache, c: nat, k: Cache, s: MesiState)
    requires c < |t.kids| && Coherent(t) && t.kids[c].shared && Coherent(k.(state := I))
    requires s == t.state || (t.state == E && s == M)
    requires k.state == M || !HasDirty(t.kids[c].cache)
    requires k.state == M ==> s == M
    ensures Coherent(Released(t, c, k, s))
    ensures HasDirty(t) ==> HasDirty(Released(t, c, k, s))
  {
    var u := Released(t, c, k, s);
    CountUpdate(t.kids, c, Link(false, k.(state := I)));
    CountZero(t.kids);
    forall i | 0 <= i < |u.kids|
      ensures LinkOk(u, u.kids[i]) && Coherent(u.kids[i].cache)
    {
      assert LinkOk(t, t.kids[i]);
      if i != c && t.excl { LoneSharer(t, i, c); }
    }
    if HasDirty(t) && u.state != M {
      var i :| 0 <= i < |t.kids| && HasDirty(t.kids[i].cache);
      assert i != c;
      assert HasDirty(u.kids[i].cache);
    }
  }

  /** An exclusive flag with two sharers would break the directory. */
  lemma LoneSharer(t: Cache, i: nat, j: nat)
    requires Local(t) && i < |t.kids| && j < |t.kids| && i != j && t.excl && t.kids[j].shared
    ensures !t.kids[i].shared
  {
    if t.kids[i].shared { CountOne(t.kids, i, j); }
  }

  // ---------------------------------------------------------------- whole runs

  datatype Op = Load(path: seq<nat>, noexcl: bool) | Store(path: seq<nat>) | Drop(path: seq<nat>)

  function Step(t: Cache, op: Op): Result
    requires OnPath(t, op.path)
  {
    match op
    case Load(p, noexcl) => Access(t, p, GETS, noexcl)
    case Store(p) => Access(t, p, GETX, false)
    case Drop(p) => Evict(t, p)
  }

  ghost predicate StepDone(t: Cache, op: Op, r: Result)
    requires OnPath(t, op.path)
  {
    && r.ok && Coherent(r.c) && OnPath(r.c, op.path)
    && (HasDirty(t) ==> HasDirty(r.c) || (op.Drop? && r.wb))
    && (op.Load? ==> At(r.c, op.path).state != I)
    && (op.Store? ==> At(r.c, op.path).state == M)
    && (op.Drop? ==> AllInvalid(At(r.c, op.path)) && (r.wb <==> op.path == [] && HasDirty(t)))
  }

  /** One transaction anywhere in the tree: no assertion fails, the tree stays coherent, the
      requester ends with the permission it asked for, and dirty data either stays in some
      cache or is written to memory. */
  lemma StepCorrect(t: Cache, op: Op)
    requires Coherent(t) && OnPath(t, op.path)
    ensures StepDone(t, op, Step(t, op))
  {
    match op
    case Load(p, noexcl) => GetCorrect(t, p, GETS, noexcl, MemoryGrant(GETS, noexcl));
    case Store(p) => GetCorrect(t, p, GETX, false, M);
    case Drop(p) => EvictCorrect(t, p);
  }

  ghost predicate IsRun(trace: seq<Cache>, ops: seq<Op>) {
    && |trace| == |ops| + 1
    && forall k :: 0 <= k < |ops| ==> OnPath(trace[k], ops[k].path) && trace[k + 1] == Step(trace[k], ops[k]).c
  }

  /** A writeback reached memory in one of the transactions from j on, before k. */
  ghost predicate WroteBack(trace: seq<Cache>, ops: seq<Op>, j: nat, k: nat)
    requires IsRun(trace, ops) && j <= k <= |ops|
  {
    exists i :: j <= i < k && ops[i].Drop? && ops[i].path == [] && Step(trace[i], ops[i]).wb
  }

  /** In every run of loads, stores and evictions from a coherent tree each transaction trips no
      assertion, keeps the tree coherent and gives its requester the permission, and data that is
      dirty at any moment j is at any later moment k still dirty in some cache or was written
      back to memory between the two. */
  lemma {:induction false} EveryRunCoherent(trace: seq<Cache>, ops: seq<Op>, j: nat, k: nat)
    requires IsRun(trace, ops) && Coherent(trace[0]) && j <= k < |trace|
    ensures Coherent(trace[j]) && Coherent(trace[k])
    ensures k < |ops| ==> StepDone(trace[k], ops[k], Step(trace[k], ops[k]))
    ensures HasDirty(trace[j]) ==> HasDirty(trace[k]) || WroteBack(trace, ops, j, k)
    decreases k
  {
    if k > 0 {
      EveryRunCoherent(trace, ops, if j < k then j else k - 1, k - 1);
      StepCorrect(trace[k - 1], ops[k - 1]);
      assert j < k && ops[k - 1].Drop? && Step(trace[k - 1], ops[k - 1]).wb ==> WroteBack(trace, ops, j, k);
    }
    if k < |ops| { StepCorrect(trace[k], ops[k]); }
  }

  /** A tree of empty caches, the state every simulation starts from. */
  ghost predicate Empty(t: Cache) {
    t.state == I && t.num == 0 && !t.excl && forall i :: 0 <= i < |t.kids| ==>
        !t.kids[i].shared && Empty(t.kids[i].cache)
  }

  lemma {:induction false} EmptyCoherent(t: Cache)
    requires Empty(t)
    ensures Coherent(t)
  {
    CountZero(t.kids);
    forall i | 0 <= i < |t.kids|
      ensures Coherent(t.kids[i].cache)
    {
      EmptyCoherent(t.kids[i].cache);
    }
  }

  // ---------------------------------------------------------------- single writer

  lemma {:induction false} AllInvalidAt(t: Cache, p: seq<nat>)
    requires AllInvalid(t) && OnPath(t, p)
    ensures At(t, p).state == I
    decreases |p|
  {
    if p != [] { AllInvalidAt(t.kids[p[0]].cache, p[1..]); }
  }

  lemma {:induction false} OwnerAbove(t: Cache, p: seq<nat>)
    requires Coherent(t) && OnPath(t, p) && Owner(At(t, p).state)
    ensures Owner(t.state)
    decreases |p|
  {
    if p != [] {
      OwnerAbove(t.kids[p[0]].cache, p[1..]);
      assert LinkOk(t, t.kids[p[0]]);
    }
  }

  /** Single writer: while the cache at `p` holds the line exclusively, every cache that is
      neither above nor below it is invalid. */
  lemma {:induction false} SingleWriter(t: Cache, p: seq<nat>, q: seq<nat>)
    requires Coherent(t) && OnPath(t, p) && OnPath(t, q)
    requires Owner(At(t, p).state) && !(p <= q) && !(q <= p)
    ensures At(t, q).state == I
    decreases |p|
  {
    var i, j := p[0], q[0];
    if i == j {
      SingleWriter(t.kids[i].cache, p[1..], q[1..]);
    } else {
      OwnerAbove(t.kids[i].cache, p[1..]);
      assert LinkOk(t, t.kids[i]) && LinkOk(t, t.kids[j]);
      LoneSharer(t, j, i);
      Inclusion(t.kids[j].cache);
      AllInvalidAt(t.kids[j].cache, q[1..]);
    }
  }

  /** Inclusion: a cache that holds the line has every cache above it hold the line, and one
      that holds it exclusively has them all hold it exclusively. */
  lemma {:induction false} InclusionOnPaths(t: Cache, p: seq<nat>, q: seq<nat>)
    requires Coherent(t) && OnPath(t, p) && q <= p
    ensures OnPath(t, q)
    ensures At(t, p).state != I ==> At(t, q).state != I
    ensures Owner(At(t, p).state) ==> Owner(At(t, q).state)
    decreases |p|
  {
    if q == [] {
      if t.state == I { Inclusion(t); AllInvalidAt(t, p); }
      if Owner(At(t, p).state) { OwnerAbove(t, p); }
    } else {
      InclusionOnPaths(t.kids[p[0]].cache, p[1..], q[1..]);
    }
  }
}
