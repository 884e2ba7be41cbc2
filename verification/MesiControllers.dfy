/** The coherence controllers as mutable objects: each cache node owns its state, its
    directory entry and its children, and invalidations recurse through the object tree. The
    methods are proved equal to the functions of Mesi.dfy and MesiTree.dfy; the source's
    assertions are discharged inside them. */
module MesiControllers {
  import opened Mesi
  import opened MesiTree

  /** The links after the fan-out loop has passed the first n of them. */
  function FannedOut(kids: seq<Link>, ty: InvType, n: nat): (r: seq<Link>)
    ensures |r| == |kids|
  {
    seq(|kids|, i requires 0 <= i < |kids| =>
      if i < n then Link(kids[i].shared && ty == INVX, InvalLink(kids[i], ty).c) else kids[i])
  }

  predicate SomeWrote(kids: seq<Link>, ty: InvType, n: nat)
    requires n <= |kids|
  {
    exists j | 0 <= j < n :: InvalLink(kids[j], ty).wb
  }

  lemma SendsAsFanOut(t: Cache, ty: InvType)
    requires t.num != 0 && (ty == INVX ==> IsExclusive(t))
    ensures var r := SendInvalidates(t, ty);
      && r.c.kids == FannedOut(t.kids, ty, |t.kids|)
      && (r.wb <==> SomeWrote(t.kids, ty, |t.kids|))
      && (r.ok <==> (forall i :: 0 <= i < |t.kids| ==> InvalLink(t.kids[i], ty).ok) && Count(t.kids) == t.num)
  {
    SendParts(t, ty);
  }

  lemma FansOutNext(kids: seq<Link>, ty: InvType, n: nat)
    requires n < |kids|
    ensures FannedOut(kids, ty, n)[n] == kids[n]
    ensures var r := InvalLink(kids[n], ty);
      && FannedOut(kids, ty, n + 1) == FannedOut(kids, ty, n)[n := Link(kids[n].shared && ty == INVX, r.c)]
      && (SomeWrote(kids, ty, n + 1) <==> SomeWrote(kids, ty, n) || r.wb)
    ensures Count(kids[..n + 1]) == Count(kids[..n]) + if kids[n].shared then 1 else 0
  {
    assert kids[..n + 1][..n] == kids[..n];
    assert forall j :: 0 <= j < n && InvalLink(kids[j], ty).wb ==> SomeWrote(kids, ty, n + 1);
  }

  class CacheNode {
    var state: MesiState
    var numSharers: nat
    var exclusive: bool
    const sharers: array<bool>
    const children: seq<CacheNode>
    ghost const Repr: set<object>

    /** The object tree: children and sharer bits are owned and never shared. It never changes. */
    ghost predicate Tree()
      decreases Repr
    {
      && this in Repr && sharers in Repr && sharers.Length == |children|
      && (forall i :: 0 <= i < |children| ==>
            && children[i].Repr < Repr && this !in children[i].Repr && sharers !in children[i].Repr
            && children[i].Tree())
      && forall i, j :: 0 <= i < j < |children| ==> children[i].Repr !! children[j].Repr
    }

    ghost function View(): (t: Cache)
      requires Tree()
      reads Repr
      ensures |t.kids| == |children|
      decreases Repr
    {
      Cache(state, numSharers, exclusive, Links())
    }

    ghost function Links(): (kids: seq<Link>)
      requires Tree()
      reads Repr
      ensures |kids| == |children|
      ensures forall i :: 0 <= i < |kids| ==> kids[i] == Link(sharers[i], children[i].View())
      decreases Repr, 0
    {
      seq(|children|, i requires 0 <= i < |children| reads Repr => Link(sharers[i], children[i].View()))
    }

    constructor Terminal()
      ensures Tree() && fresh(Repr) && View() == Cache(I, 0, false, [])
    {
      state, numSharers, exclusive := I, 0, false;
      children := [];
      var bits := new bool[0];
      sharers := bits;
      Repr := {this, bits};
    }

    /** A cache over existing subtrees that share nothing; `owned` is everything in them. */
    constructor Over(kids: seq<CacheNode>, ghost owned: set<object>)
      requires forall i :: 0 <= i < |kids| ==> kids[i].Tree() && kids[i].Repr <= owned
      requires forall i, j :: 0 <= i < j < |kids| ==> kids[i].Repr !! kids[j].Repr
      ensures Tree() && children == kids && fresh(Repr - owned)
      ensures state == I && numSharers == 0 && !exclusive
      ensures forall i :: 0 <= i < |kids| ==> !sharers[i] && kids[i].View() == old(kids[i].View())
    {
      state, numSharers, exclusive := I, 0, false;
      children := kids;
      var bits := new bool[|kids|](i => false);
      sharers := bits;
      Repr := {this, bits} + owned;
      new;
      assert this !in owned && sharers !in owned;
    }

    // -------------------------------------------------------------- bottom controller

    /** The cache's own reaction to an invalidation; the flag is only ever pulled up. */
    method BottomProcessInval(ty: InvType, reqWriteback: bool) returns (wb: bool)
      requires state != I && (ty == INVX ==> Owner(state))
      modifies this`state
      ensures var (s, w, ok) := BottomInval(old(state), ty); state == s && wb == (reqWriteback || w) && ok
    {
      wb := reqWriteback;
      match ty {
        case INVX =>
          assert state == E || state == M;
          if state == M { wb := true; }
          state := S;
        case INV =>
          if state == M { wb := true; }
          state := I;
      }
    }

    /** The cache's own reaction to an access. `grant` is what the level above would write into
        `state` if it were asked. */
    method BottomProcessAccess(ty: AccessType, grant: MesiState) returns (asked: bool)
      requires ServeOk(state, ty, grant)
      modifies this`state
      ensures state == Serve(old(state), ty, grant) && asked == NeedsUp(old(state), ty)
    {
      asked := false;
      match ty {
        case PUTS =>
          assert state != I;
        case PUTX =>
          assert state == M || state == E;
          if state == E { state := M; }
        case GETS =>
          if state == I {
            asked := true;
            state := grant;
            assert state == S || state == E;
          }
        case GETX =>
          if state == I || state == S {
            asked := true;
            state := grant;
          } else if state == E {
            state := M;
          }
          assert state == M;
      }
    }

    /** A writeback that an access induced below makes this cache dirty. */
    method BottomProcessWriteback()
      requires Owner(state)
      modifies this`state
      ensures state == M
    {
      if state == E { state := M; }
    }

    // -------------------------------------------------------------- top controller

    /** One turn of the fan-out loop. */
    method InvalidateChild(c: nat, ty: InvType, reqWriteback: bool) returns (wb: bool)
      requires Tree() && c < |children| && InvalLink(Links()[c], ty).ok
      modifies sharers, children[c].Repr
      ensures var l := old(Links())[c];
        && Links() == old(Links())[c := Link(l.shared && ty == INVX, InvalLink(l, ty).c)]
        && wb == (reqWriteback || InvalLink(l, ty).wb)
      decreases Repr, 0, 0
    {
      wb := reqWriteback;
      if sharers[c] {
        wb := children[c].Invalidate(ty, wb);
        if ty == INV { sharers[c] := false; }
      }
    }

    /** The fan-out loop: every sharer is told, and counted. */
    method FanOut(ty: InvType, reqWriteback: bool) returns (wb: bool, sentInvs: nat)
      requires Tree() && forall i :: 0 <= i < |children| ==> InvalLink(Links()[i], ty).ok
      modifies Repr
      ensures state == old(state) && numSharers == old(numSharers) && exclusive == old(exclusive)
      ensures Links() == FannedOut(old(Links()), ty, |children|)
      ensures wb == (reqWriteback || SomeWrote(old(Links()), ty, |children|))
      ensures sentInvs == Count(old(Links()))
      decreases Repr, 0, 1
    {
      ghost var kids := Links();
      wb, sentInvs := reqWriteback, 0;
      var c := 0;
      assert kids[..0] == [] && FannedOut(kids, ty, 0) == kids;
      while c < |children|
        invariant c <= |children|
        invariant state == old(state) && numSharers == old(numSharers) && exclusive == old(exclusive)
        invariant Links() == FannedOut(kids, ty, c)
        invariant sentInvs == Count(kids[..c])
        invariant wb == (reqWriteback || SomeWrote(kids, ty, c))
      {
        FansOutNext(kids, ty, c);
        if sharers[c] { sentInvs := sentInvs + 1; }
        wb := InvalidateChild(c, ty, wb);
        c := c + 1;
      }
      assert kids[..c] == kids;
    }

    /** Sends an invalidation or downgrade to every sharer and clears their bits on INV. */
    method SendInvalidates(ty: InvType, reqWriteback: bool) returns (wb: bool)
      requires Tree() && Mesi.SendInvalidates(View(), ty).ok
      modifies Repr
      ensures var r := Mesi.SendInvalidates(old(View()), ty); View() == r.c && wb == (reqWriteback || r.wb)
      decreases Repr, 0, 2
    {
      ghost var t := View();
      wb := reqWriteback;
      if ty == INVX && !(numSharers == 1 && exclusive) {
        return;
      }
      if numSharers != 0 {
        SendsAsFanOut(t, ty);
        var sentInvs;
        wb, sentInvs := FanOut(ty, wb);
        assert sentInvs == numSharers;
        if ty == INV {
          numSharers := 0;
        } else {
          assert exclusive && numSharers == 1;
          exclusive := false;
        }
      }
    }

    /** The whole invalidation of this cache: children first, then its own state. */
    method Invalidate(ty: InvType, reqWriteback: bool) returns (wb: bool)
      requires Tree() && Mesi.Invalidate(View(), ty).ok
      modifies Repr
      ensures var r := Mesi.Invalidate(old(View()), ty); View() == r.c && wb == (reqWriteback || r.wb)
      decreases Repr, 1
    {
      wb := SendInvalidates(ty, reqWriteback);
      wb := BottomProcessInval(ty, wb);
    }

    /** Writes child `c`'s sharer bit, and its state through the pointer in its request. */
    method WriteChild(c: nat, child: CacheNode, shared: bool, s: MesiState)
      requires Tree() && c < |children| && children[c] == child
      modifies sharers, child`state
      ensures Links() == old(Links())[c := Link(shared, old(child.View()).(state := s))]
    {
      sharers[c] := shared;
      child.state := s;
      assert child.Links() == old(child.Links());
    }

    /** Counts child `c` as a sharer and gives it state `s`. */
    method Grant(c: nat, excl: bool, s: MesiState)
      requires Tree() && c < |children|
      modifies Repr
      ensures var t := SetShared(old(View()), c, true).(num := old(numSharers) + 1, excl := excl);
        View() == SetKid(t, c, t.kids[c].cache.(state := s))
    {
      numSharers := numSharers + 1;
      exclusive := excl;
      WriteChild(c, children[c], true, s);
    }

    /** Answers child `c`'s GETS or GETX: downgrades or invalidates other copies, updates the
        directory and tells the child its new state. */
    method TopProcessGet(c: nat, ty: AccessType, noexcl: bool) returns (inducedWriteback: bool)
      requires Tree() && c < |children| && (ty == GETS || ty == GETX)
      requires sharers[c] ==> numSharers > 0
      requires TopGet(View(), c, ty, noexcl).ok
      modifies Repr
      ensures var a := TopGet(old(View()), c, ty, noexcl);
        && inducedWriteback == a.wb
        && View() == SetKid(a.c, c, a.c.kids[c].cache.(state := a.grant))
    {
      if ty == GETS {
        inducedWriteback := TopProcessGets(c, noexcl);
      } else {
        inducedWriteback := TopProcessGetx(c);
      }
    }

    method TopProcessGets(c: nat, noexcl: bool) returns (inducedWriteback: bool)
      requires Tree() && c < |children| && TopGets(View(), c, noexcl).ok
      modifies Repr
      ensures var a := TopGets(old(View()), c, noexcl);
        && inducedWriteback == a.wb
        && View() == SetKid(a.c, c, a.c.kids[c].cache.(state := a.grant))
    {
      inducedWriteback := false;
      if numSharers == 0 && Owner(state) && !noexcl {
        Grant(c, true, E);
      } else {
        assert !sharers[c];
        if numSharers == 1 && exclusive {
          inducedWriteback := SendInvalidates(INVX, false);
        }
        assert !(numSharers == 1 && exclusive);
        Grant(c, false, S);
      }
    }

    method TopProcessGetx(c: nat) returns (inducedWriteback: bool)
      requires Tree() && c < |children| && TopGetx(View(), c).ok
      requires sharers[c] ==> numSharers > 0
      modifies Repr
      ensures var a := TopGetx(old(View()), c);
        && inducedWriteback == a.wb
        && View() == SetKid(a.c, c, a.c.kids[c].cache.(state := a.grant))
    {
      ghost var t := View();
      assert Owner(state);
      if sharers[c] {
        assert !(numSharers == 1 && exclusive);
        WriteChild(c, children[c], false, children[c].state);
        numSharers := numSharers - 1;
      }
      assert View() == WithoutRequester(t, c);
      inducedWriteback := SendInvalidates(INV, false);
      assert numSharers == 0;
      Grant(c, true, M);
    }

    /** Takes a writeback from child `c`: the child gives the line up. */
    method TopProcessPut(c: nat, ty: AccessType)
      requires Tree() && c < |children| && numSharers > 0 && TopPut(View(), c, ty).ok
      modifies Repr
      ensures var a := TopPut(old(View()), c, ty);
        View() == SetKid(a.c, c, a.c.kids[c].cache.(state := a.grant))
    {
      assert ty == PUTX ==> numSharers == 1 && exclusive;
      assert sharers[c];
      numSharers := numSharers - 1;
      WriteChild(c, children[c], false, I);
    }
  }
}
