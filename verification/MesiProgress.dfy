/** What becomes of the requests of MesiConcurrent.dfy: each is answered with what it asked for,
    none is ever stuck, and all are answered after a bounded number of steps. */
module MesiProgress {
  import opened Option
  import opened Mesi
  import opened MesiTree
  import MesiRaces
  import opened MesiConcurrent

  // ---------------------------------------------------------------- answers

  type Pending = map<seq<nat>, MesiRaces.Req>

  ghost predicate Linked(pend: Pending) {
    forall p {:trigger LinkedOn(pend, p)} :: p in pend ==> LinkedOn(pend, p)
  }

  /** Along a chain each cache waits with what is left of the path. */
  lemma {:induction false} ChainPath(pend: Pending, p: seq<nat>, x: seq<nat>)
    requires Linked(pend) && p in pend && x <= pend[p].path
    ensures p + x in pend && pend[p + x].path == pend[p].path[|x|..] && pend[p + x].ty == pend[p].ty
    decreases |x|
  {
    if x == [] {
      assert p + x == p;
    } else {
      var path := pend[p].path;
      assert LinkedOn(pend, p);
      StepAlong(p, x, path);
      ChainPath(pend, p + [path[0]], x[1..]);
    }
  }

  lemma StepAlong(p: seq<nat>, x: seq<nat>, path: seq<nat>)
    requires x <= path && x != []
    ensures p + x == (p + [path[0]]) + x[1..] && x[1..] <= path[1..] && path[1..][|x| - 1..] == path[|x|..]
  {
  }

  lemma Between(p: seq<nat>, c: nat, path: seq<nat>, q: seq<nat>)
    ensures (p + [c]) + path == p + ([c] + path)
    ensures p <= q <= p + ([c] + path) && q != p ==> p + [c] <= q
  {
    if p <= q <= p + ([c] + path) && |q| > |p| { assert q[|p|] == (p + ([c] + path))[|p|]; }
  }

  /** The last of a chain is the one that waits for itself. */
  lemma LastOfChain(pend: Pending, p: seq<nat>, q: seq<nat>)
    requires Linked(pend) && p in pend && p <= q <= p + pend[p].path
    ensures q in pend && pend[q].ty == pend[p].ty && (pend[q].path == [] ==> q == p + pend[p].path)
    ensures p + pend[p].path in pend && pend[p + pend[p].path].path == []
  {
    var x := q[|p|..];
    assert q == p + x;
    assert x <= pend[p].path by { assert (p + pend[p].path)[|p|..] == pend[p].path; }
    ChainPath(pend, p, x);
    ChainPath(pend, p, pend[p].path);
  }

  /** The state a request is answered with. */
  predicate Answer(ty: AccessType, state: MesiState) {
    match ty
    case GETS => state != I
    case GETX => state == M
    case PUTS => state == I
    case PUTX => state == I
  }

  /** A request that is no longer under way has got what it asked for. */
  ghost predicate Answered(s: State, s': State) {
    forall q :: q in s.pend && q !in s'.pend && s.pend[q].path == [] ==>
      OnPath(s'.tree, q) && Answer(s.pend[q].ty, At(s'.tree, q).state)
  }

  /** What taking child c's request up does to the requests under way. */
  lemma TakeUpPends(s: State, p: seq<nat>, c: nat)
    requires Ok(s) && WellFormed(s) && Enabled(s, TakeUp(p, c))
    ensures var r := s.pend[p + [c]];
      Next(s, TakeUp(p, c)).s.pend ==
        if IsGet(r.ty) && NeedsUp(At(s.tree, p).state, r.ty)
        then s.pend[p := MesiRaces.Req(r.ty, At(s.tree, p).state, [c] + r.path, r.noexcl)]
        else Served(s.pend, p, p + ([c] + r.path))
  {
    ViewOk(s, p, c);
    MesiRaces.RaceCheckLegalises(View(s, p, c), c);
  }

  lemma TakeUpAnswers(s: State, p: seq<nat>, c: nat)
    requires Ok(s) && WellFormed(s) && Enabled(s, TakeUp(p, c))
    ensures Answered(s, Next(s, TakeUp(p, c)).s)
  {
    var r, s' := s.pend[p + [c]], Next(s, TakeUp(p, c)).s;
    TakeUpPends(s, p, c);
    if !(IsGet(r.ty) && NeedsUp(At(s.tree, p).state, r.ty)) {
      var full := p + ([c] + r.path);
      if IsGet(r.ty) { GetAnswers(s, p, c); } else { PutAnswers(s, p, c); }
      forall q | q in s.pend && q !in s'.pend && s.pend[q].path == []
        ensures q == full && s.pend[q].ty == r.ty
      {
        CauseOfChain(s, p, c, q);
      }
    }
  }

  lemma CauseOfChain(s: State, p: seq<nat>, c: nat, q: seq<nat>)
    requires Ok(s) && p !in s.pend && p + [c] in s.pend && q in s.pend && s.pend[q].path == []
    requires p <= q <= p + ([c] + s.pend[p + [c]].path)
    ensures q == p + ([c] + s.pend[p + [c]].path) && s.pend[q].ty == s.pend[p + [c]].ty
  {
    Between(p, c, s.pend[p + [c]].path, q);
    assert Linked(s.pend);
    LastOfChain(s.pend, p + [c], q);
  }

  lemma GetAnswers(s: State, p: seq<nat>, c: nat)
    requires Ok(s) && WellFormed(s) && Enabled(s, TakeUp(p, c)) && IsGet(s.pend[p + [c]].ty)
    requires !NeedsUp(At(s.tree, p).state, s.pend[p + [c]].ty)
    ensures var r := s.pend[p + [c]];
      var t := Next(s, TakeUp(p, c)).s.tree;
      OnPath(t, p + ([c] + r.path)) && Answer(r.ty, At(t, p + ([c] + r.path)).state)
  {
    var r := s.pend[p + [c]];
    var path := [c] + r.path;
    TakeUpIsGet(s, p, c);
    CoherentAt(s.tree, p);
    GetCorrect(At(s.tree, p), path, r.ty, r.noexcl, I);
    ReplaceInside(s.tree, p, Get(At(s.tree, p), path, r.ty, r.noexcl, I).c, path);
  }

  lemma PutAnswers(s: State, p: seq<nat>, c: nat)
    requires Ok(s) && WellFormed(s) && Enabled(s, TakeUp(p, c)) && !IsGet(s.pend[p + [c]].ty)
    ensures var t := Next(s, TakeUp(p, c)).s.tree;
      OnPath(t, p + ([c] + s.pend[p + [c]].path)) && At(t, p + ([c] + s.pend[p + [c]].path)).state == I
  {
    ViewOk(s, p, c);
    AtStep(s.tree, p, c);
    assert SenderOk(At(s.tree, p + [c]), s.pend[p + [c]]);
    assert [c] + s.pend[p + [c]].path == [c] && [c][1..] == [];
    ReplaceInside(s.tree, p, MesiRaces.ServeChild(View(s, p, c), c).sys.top, [c]);
  }

  lemma MemoryAnswers(s: State)
    requires Ok(s) && WellFormed(s) && Enabled(s, Memory)
    ensures Answered(s, Next(s, Memory).s)
  {
    var r := s.pend[[]];
    var t := Next(s, Memory).s.tree;
    MemoryGrants(s);
    assert SenderOk(At(s.tree, []), r);
    forall q | q in s.pend && [] <= q <= r.path && s.pend[q].path == []
      ensures q == r.path && s.pend[q].ty == r.ty
    {
      assert [] + r.path == r.path;
      LastOfChain(s.pend, [], q);
    }
  }

  lemma MemoryGrants(s: State)
    requires Ok(s) && WellFormed(s) && Enabled(s, Memory)
    ensures var t, r := Next(s, Memory).s.tree, s.pend[[]];
      OnPath(t, r.path) && Answer(r.ty, At(t, r.path).state)
  {
    var r := s.pend[[]];
    assert SenderOk(At(s.tree, []), r);
    if IsGet(r.ty) {
      ChainClimbs(s, []);
      GetCorrect(s.tree, r.path, r.ty, r.noexcl, MemoryGrant(r.ty, r.noexcl));
    }
  }

  /** Whatever event makes a request go away has answered it: a GETS leaves its sender with the
      line, a GETX with the line in M, a writeback without it. */
  lemma StepAnswers(s: State, e: Event)
    requires Ok(s) && WellFormed(s) && Enabled(s, e)
    ensures Answered(s, Next(s, e).s)
  {
    match e
    case Request(_, _, _) =>
    case Vacate(_) =>
    case TakeUp(p, c) => TakeUpAnswers(s, p, c);
    case Memory => MemoryAnswers(s);
  }

  // ---------------------------------------------------------------- nobody is stuck

  predicate Service(e: Event) { e.TakeUp? || e.Memory? }

  /** While anyone waits, some parent or memory can take a request up: the locks cannot lead to a
      deadlock. */
  lemma {:induction false} NeverStuck(s: State, q: seq<nat>) returns (e: Event)
    requires Ok(s) && q in s.pend
    ensures Service(e) && Enabled(s, e)
    decreases |q|
  {
    if q == [] {
      e := Memory;
    } else {
      var p, c := q[..|q| - 1], q[|q| - 1];
      assert q == p + [c];
      if p in s.pend {
        e := NeverStuck(s, p);
      } else {
        OnPathFront(s.tree, p, c);
        e := TakeUp(p, c);
      }
    }
  }

  lemma {:induction false} OnPathFront(t: Cache, p: seq<nat>, c: nat)
    requires OnPath(t, p + [c])
    ensures OnPath(t, p) && c < |At(t, p).kids|
    decreases |p|
  {
    if p != [] {
      assert (p + [c])[1..] == p[1..] + [c];
      OnPathFront(t.kids[p[0]].cache, p[1..], c);
    }
  }

  // ---------------------------------------------------------------- everyone is answered

  function Prefixes(q: seq<nat>): (r: set<seq<nat>>)
    ensures |r| <= |q| + 1
  {
    if q == [] then {[]} else Prefixes(q[..|q| - 1]) + {q}
  }

  lemma {:induction false} PrefixesAre(q: seq<nat>, x: seq<nat>)
    ensures x in Prefixes(q) <==> x <= q
    decreases |q|
  {
    if q != [] {
      PrefixesAre(q[..|q| - 1], x);
      assert x <= q && x != q ==> x <= q[..|q| - 1];
    }
  }

  /** The requests that are not made on behalf of another. */
  function Origins(pend: Pending): set<seq<nat>> {
    set q | q in pend && pend[q].path == []
  }

  /** The places they may have to wait at on their way up. */
  function Reach(pend: Pending): set<seq<nat>> {
    set q, x | q in Origins(pend) && x in Prefixes(q) :: x
  }

  predicate Within(pend: Pending, depth: nat) {
    forall q :: q in pend ==> |q| <= depth
  }

  /** A bound on the steps until everyone is answered. */
  function Effort(pend: Pending, depth: nat): nat {
    Times(|Origins(pend)|, depth + 2) + |Reach(pend) - pend.Keys|
  }

  function Times(n: nat, d: nat): nat {
    if n == 0 then 0 else d + Times(n - 1, d)
  }

  lemma SubsetSize<T>(a: set<T>, b: set<T>)
    requires a <= b
    ensures |a| <= |b|
  {
    assert b == a + (b - a);
  }

  lemma UnionSize<T>(a: set<T>, b: set<T>)
    ensures |a + b| <= |a| + |b|
  {
    assert a + b == a + (b - a);
    SubsetSize(b - a, b);
  }

  /** Serving a chain answers one request, and reopens no more places than the chain is long. */
  lemma ServedWorks(pend: Pending, p: seq<nat>, full: seq<nat>, depth: nat)
    requires full in Origins(pend) && p <= full && Within(pend, depth)
    ensures Within(Served(pend, p, full), depth)
    ensures Effort(Served(pend, p, full), depth) < Effort(pend, depth)
  {
    ServedOrigins(pend, p, full);
    ServedPlaces(pend, p, full);
    Fewer(depth + 2, |Origins(Served(pend, p, full))|, |Origins(pend)|);
  }

  lemma ServedOrigins(pend: Pending, p: seq<nat>, full: seq<nat>)
    requires full in Origins(pend) && p <= full
    ensures |Origins(Served(pend, p, full))| < |Origins(pend)|
  {
    SubsetSize(Origins(Served(pend, p, full)), Origins(pend) - {full});
  }

  lemma ServedPlaces(pend: Pending, p: seq<nat>, full: seq<nat>)
    ensures var pend' := Served(pend, p, full);
      |Reach(pend') - pend'.Keys| <= |Reach(pend) - pend.Keys| + |full| + 1
  {
    var pend' := Served(pend, p, full);
    ServedReach(pend, p, full);
    SubsetSize(Reach(pend') - pend'.Keys, (Reach(pend) - pend.Keys) + Prefixes(full));
    UnionSize(Reach(pend) - pend.Keys, Prefixes(full));
  }

  lemma {:induction false} Fewer(d: nat, a: nat, b: nat)
    requires a < b
    ensures Times(a, d) + d <= Times(b, d)
    decreases b
  {
    if a < b - 1 { Fewer(d, a, b - 1); }
  }

  lemma ServedReach(pend: Pending, p: seq<nat>, full: seq<nat>)
    ensures var pend' := Served(pend, p, full);
      Reach(pend') - pend'.Keys <= (Reach(pend) - pend.Keys) + Prefixes(full)
  {
    var pend' := Served(pend, p, full);
    forall x | x in Reach(pend') - pend'.Keys
      ensures x in (Reach(pend) - pend.Keys) + Prefixes(full)
    {
      PrefixesAre(full, x);
      var q :| q in Origins(pend') && x in Prefixes(q);
      assert q in Origins(pend);
    }
  }

  /** Making the parent wait as well takes one place up. */
  lemma WaitWorks(pend: Pending, p: seq<nat>, r: MesiRaces.Req, o: seq<nat>, depth: nat)
    requires p !in pend && r.path != [] && o in Origins(pend) && p <= o && Within(pend, depth) && |p| <= depth
    ensures Within(pend[p := r], depth) && Effort(pend[p := r], depth) < Effort(pend, depth)
  {
    var pend' := pend[p := r];
    assert Origins(pend') == Origins(pend);
    assert Reach(pend') == Reach(pend);
    PrefixesAre(o, p);
    assert p in Reach(pend) && Reach(pend') - pend'.Keys == (Reach(pend) - pend.Keys) - {p};
  }

  /** Each request taken up by a parent or by memory brings the end closer. */
  lemma ServiceWorks(s: State, e: Event, depth: nat)
    requires Ok(s) && WellFormed(s) && Enabled(s, e) && Service(e) && Within(s.pend, depth)
    ensures Within(Next(s, e).s.pend, depth) && Effort(Next(s, e).s.pend, depth) < Effort(s.pend, depth)
  {
    match e
    case TakeUp(p, c) =>
      var r := s.pend[p + [c]];
      TakeUpPends(s, p, c);
      TakeUpWorks(s.pend, p, c, MesiRaces.Req(r.ty, At(s.tree, p).state, [c] + r.path, r.noexcl), depth);
    case Memory =>
      var path := s.pend[[]].path;
      assert [] + path == path;
      LastOfChain(s.pend, [], path);
      assert SenderOk(At(s.tree, []), s.pend[[]]);
      ServedWorks(s.pend, [], path, depth);
  }

  lemma TakeUpWorks(pend: Pending, p: seq<nat>, c: nat, r: MesiRaces.Req, depth: nat)
    requires Linked(pend) && p !in pend && p + [c] in pend && r.path == [c] + pend[p + [c]].path && Within(pend, depth)
    ensures Within(Served(pend, p, p + r.path), depth)
        && Effort(Served(pend, p, p + r.path), depth) < Effort(pend, depth)
    ensures Within(pend[p := r], depth) && Effort(pend[p := r], depth) < Effort(pend, depth)
  {
    var full := p + r.path;
    Between(p, c, pend[p + [c]].path, p);
    LastOfChain(pend, p + [c], p + [c]);
    assert full in Origins(pend);
    ServedWorks(pend, p, full, depth);
    assert |p| < |p + [c]|;
    WaitWorks(pend, p, r, full, depth);
  }

  // ---------------------------------------------------------------- whole runs

  predicate Steps(s: State, e: Event, s': State) {
    WellFormed(s) && Enabled(s, e) && s' == Next(s, e).s
  }

  ghost predicate IsRun(trace: seq<State>, es: seq<Event>) {
    |trace| == |es| + 1 && forall k :: 0 <= k < |es| ==> StepAt(trace, es, k)
  }

  predicate StepAt(trace: seq<State>, es: seq<Event>, k: nat)
    requires k < |es| == |trace| - 1
  {
    Steps(trace[k], es[k], trace[k + 1])
  }

  /** Every assertion of the step holds, and requests that end are answered. */
  ghost predicate StepFine(s: State, e: Event, s': State) {
    Steps(s, e, s') && Next(s, e).ok && Answered(s, s')
  }

  lemma RunStep(s: State, e: Event, s': State)
    requires Ok(s) && Steps(s, e, s')
    ensures Ok(s') && StepFine(s, e, s')
    ensures HasDirty(s.tree) ==> HasDirty(s'.tree) || Next(s, e).out
  {
    StepKeeps(s, e);
    StepAnswers(s, e);
  }

  ghost predicate ToMemory(trace: seq<State>, es: seq<Event>, i: nat)
    requires IsRun(trace, es) && i < |es|
  {
    Steps(trace[i], es[i], trace[i + 1]) && Next(trace[i], es[i]).out
  }

  /** In every run, with requests under way at any number of levels: no assertion fails, the tree
      stays coherent, every request that ends is answered, and data dirty at moment j is still
      dirty in some cache at moment k or has gone to memory in between. */
  lemma EveryRunKeeps(trace: seq<State>, es: seq<Event>, j: nat, k: nat)
    requires IsRun(trace, es) && Ok(trace[0]) && j <= k < |trace|
    ensures Ok(trace[j]) && Ok(trace[k])
    ensures k < |es| ==> StepFine(trace[k], es[k], trace[k + 1])
    ensures HasDirty(trace[j].tree) ==> HasDirty(trace[k].tree) || exists i :: j <= i < k && ToMemory(trace, es, i)
  {
    RunOk(trace, es, j);
    forall i | j <= i < k
      ensures Carries(trace, es, i)
    {
      RunOk(trace, es, i);
      assert StepAt(trace, es, i);
      RunStep(trace[i], es[i], trace[i + 1]);
    }
    CarriedOn(trace, es, j, k);
    RunOk(trace, es, k);
    if k < |es| {
      assert StepAt(trace, es, k);
      RunStep(trace[k], es[k], trace[k + 1]);
    }
  }

  lemma RunOk(trace: seq<State>, es: seq<Event>, k: nat)
    requires IsRun(trace, es) && Ok(trace[0]) && k < |trace|
    ensures Ok(trace[k])
  {
    var i := 0;
    while i < k
      invariant i <= k && Ok(trace[i])
    {
      assert StepAt(trace, es, i);
      RunStep(trace[i], es[i], trace[i + 1]);
      i := i + 1;
    }
  }

  ghost predicate Carries(trace: seq<State>, es: seq<Event>, i: nat)
    requires IsRun(trace, es) && i < |es|
  {
    HasDirty(trace[i].tree) ==> HasDirty(trace[i + 1].tree) || ToMemory(trace, es, i)
  }

  lemma {:induction false} CarriedOn(trace: seq<State>, es: seq<Event>, j: nat, k: nat)
    requires IsRun(trace, es) && j <= k < |trace| && forall i :: j <= i < k ==> Carries(trace, es, i)
    ensures HasDirty(trace[j].tree) ==> HasDirty(trace[k].tree) || exists i :: j <= i < k && ToMemory(trace, es, i)
  {
    if j < k {
      CarriedOn(trace, es, j, k - 1);
      assert Carries(trace, es, k - 1);
    }
  }

  /** Every request is answered: however the parents and memory take requests up, they are done
      within `Effort` steps unless new requests come in; and until then one can be taken up. */
  lemma EveryoneAnswered(trace: seq<State>, es: seq<Event>, k: nat, depth: nat)
    requires IsRun(trace, es) && Ok(trace[0]) && k < |trace| && Within(trace[0].pend, depth)
    requires forall i :: 0 <= i < |es| ==> Service(es[i])
    ensures k + Effort(trace[k].pend, depth) <= Effort(trace[0].pend, depth)
    ensures trace[k].pend != map[] ==> CanServe(trace[k])
  {
    EffortsFall(trace, es, k, depth);
    ServiceRun(trace, es, k, depth);
    SomeoneServed(trace[k]);
  }

  function Efforts(trace: seq<State>, depth: nat): (r: seq<nat>)
    ensures |r| == |trace| && forall i :: 0 <= i < |trace| ==> r[i] == Effort(trace[i].pend, depth)
  {
    seq(|trace|, i requires 0 <= i < |trace| => Effort(trace[i].pend, depth))
  }

  lemma EffortsFall(trace: seq<State>, es: seq<Event>, k: nat, depth: nat)
    requires IsRun(trace, es) && Ok(trace[0]) && k < |trace| && Within(trace[0].pend, depth)
    requires forall i :: 0 <= i < |es| ==> Service(es[i])
    ensures k + Efforts(trace, depth)[k] <= Efforts(trace, depth)[0]
  {
    forall i | 0 <= i < k
      ensures Efforts(trace, depth)[i + 1] < Efforts(trace, depth)[i]
    {
      EffortFalls(trace, es, i, depth);
    }
    Descends(Efforts(trace, depth), k);
  }

  lemma {:induction false} Descends(efforts: seq<nat>, k: nat)
    requires k < |efforts| && forall i :: 0 <= i < k ==> efforts[i + 1] < efforts[i]
    ensures k + efforts[k] <= efforts[0]
  {
    if k > 0 { Descends(efforts, k - 1); }
  }

  lemma EffortFalls(trace: seq<State>, es: seq<Event>, i: nat, depth: nat)
    requires IsRun(trace, es) && Ok(trace[0]) && i < |es| && Within(trace[0].pend, depth)
    requires forall j :: 0 <= j < |es| ==> Service(es[j])
    ensures Effort(trace[i + 1].pend, depth) < Effort(trace[i].pend, depth)
  {
    ServiceRun(trace, es, i, depth);
    assert StepAt(trace, es, i);
    ServiceStep(trace[i], es[i], trace[i + 1], depth);
  }

  lemma ServiceRun(trace: seq<State>, es: seq<Event>, k: nat, depth: nat)
    requires IsRun(trace, es) && Ok(trace[0]) && k < |trace| && Within(trace[0].pend, depth)
    requires forall i :: 0 <= i < |es| ==> Service(es[i])
    ensures Ok(trace[k]) && Within(trace[k].pend, depth)
  {
    var i := 0;
    while i < k
      invariant i <= k && Ok(trace[i]) && Within(trace[i].pend, depth)
    {
      assert StepAt(trace, es, i);
      ServiceStep(trace[i], es[i], trace[i + 1], depth);
      i := i + 1;
    }
  }

  ghost predicate CanServe(s: State) {
    WellFormed(s) && exists e :: Service(e) && Enabled(s, e)
  }

  lemma SomeoneServed(s: State)
    requires Ok(s)
    ensures s.pend != map[] ==> CanServe(s)
  {
    if s.pend != map[] {
      OkIsWellFormed(s);
      var q :| q in s.pend;
      var e := NeverStuck(s, q);
    }
  }

  lemma ServiceStep(s: State, e: Event, s': State, depth: nat)
    requires Ok(s) && Steps(s, e, s') && Service(e) && Within(s.pend, depth)
    ensures Ok(s') && Within(s'.pend, depth) && Effort(s'.pend, depth) < Effort(s.pend, depth)
  {
    RunStep(s, e, s');
    ServiceWorks(s, e, depth);
  }

  /** A tree at rest, as the caches are to begin with. */
  lemma RestIsOk(t: Cache)
    requires Coherent(t)
    ensures Ok(State(t, map[]))
  {
  }
}
