/** One cache over many addresses: the zcache array says which line id an address has, the
    coherence controllers keep one entry per line id. A miss runs in phases, because the
    controllers give up their locks while an eviction climbs, and invalidations may arrive
    between any two of them. Whatever the array does with its positions, the cache behaves as
    a map from addresses to coherence entries, so that each address can be reasoned about by
    itself, as the coherence models do. */
module CacheSpec {
  import opened Option
  import Mesi
  import MesiTree
  import Z = ZCacheSpec

  /** A line's entries in the bottom and the top controller. */
  datatype Line = Line(state: Mesi.MesiState, num: nat, excl: bool, sharers: seq<bool>)

  /** What an eviction leaves, and what an access to an uncached address starts from. */
  predicate Clear(l: Line) {
    l.state == Mesi.I && l.num == 0 && forall i | 0 <= i < |l.sharers| :: !l.sharers[i]
  }

  /** How far a miss on `a` has come; `pick` is the policy's choice. */
  datatype Phase = Ready | Chosen(a: nat, pick: nat) | Emptied(a: nat, pick: nat) | Installed(a: nat)

  datatype State = State(z: Z.ZState, lines: seq<Line>, phase: Phase)

  /** The coherence controllers' work on a line is any function of its entry. */
  type Action = Line -> Line

  datatype Step =
    | Serve(a: nat, act: Action)
    | Choose(a: nat, pick: nat)
    | Collect(act: Action)
    | Empty(evict: Action)
    | Install
    | Invalidate(b: nat, act: Action)

  ghost predicate Inv(g: Z.Geometry, s: State) {
    && Z.Inv(g, s.z) && |s.lines| == g.Lines()
    && (forall id :: 0 <= id < |s.lines| && s.z.addr[id] == 0 ==> Clear(s.lines[id]))
    && (Evicting(s) ==> s.phase.a != 0 && Z.Find(g, s.z, s.phase.a) == None)
    && (s.phase.Emptied? ==> Clear(s.lines[VictimOf(g, s)]))
    && (s.phase.Installed? ==>
          s.phase.a != 0 && Z.Find(g, s.z, s.phase.a).Some? && Clear(s.lines[Z.Find(g, s.z, s.phase.a).value]))
  }

  predicate Evicting(s: State) { s.phase.Chosen? || s.phase.Emptied? }

  function VictimOf(g: Z.Geometry, s: State): (id: nat)
    requires Z.Inv(g, s.z) && Evicting(s)
    ensures id < g.Lines()
  {
    Z.Victim(g, s.z, s.phase.a, s.phase.pick)
  }

  /** The level above invalidates only what it believes to be here. */
  ghost predicate Holds(s: State, b: nat) {
    exists id :: 0 <= id < |s.z.addr| && id < |s.lines| && s.z.addr[id] == b && s.lines[id].state != Mesi.I
  }

  ghost predicate Enabled(g: Z.Geometry, s: State, step: Step)
    requires Inv(g, s)
  {
    match step
    case Serve(a, _) => (s.phase.Ready? || s.phase == Installed(a)) && a != 0 && Z.Find(g, s.z, a).Some?
    case Choose(a, _) => s.phase.Ready? && a != 0 && Z.Find(g, s.z, a).None?
    case Collect(act) => s.phase.Chosen? && forall l :: Clear(l) ==> Clear(act(l))
    case Empty(evict) => s.phase.Chosen? && forall l :: Clear(evict(l))
    case Install => s.phase.Emptied?
    case Invalidate(b, _) => b != 0 && Holds(s, b)
  }

  /** None if an invalidation does not find its line, which the source asserts. */
  function Next(g: Z.Geometry, s: State, step: Step): Option<State>
    requires Inv(g, s) && Enabled(g, s, step)
  {
    match step
    case Serve(a, act) =>
      var id := Z.Find(g, s.z, a).value;
      Some(s.(lines := s.lines[id := act(s.lines[id])], phase := Ready))
    case Choose(a, pick) => Some(s.(phase := Chosen(a, pick)))
    case Collect(act) =>
      var id := VictimOf(g, s);
      Some(s.(lines := s.lines[id := act(s.lines[id])]))
    case Empty(evict) =>
      var id := VictimOf(g, s);
      Some(s.(lines := s.lines[id := evict(s.lines[id])], phase := Emptied(s.phase.a, s.phase.pick)))
    case Install => Some(State(Z.Miss(g, s.z, s.phase.a, s.phase.pick), s.lines, Installed(s.phase.a)))
    case Invalidate(b, act) =>
      var found := Z.Find(g, s.z, b);
      if found.None? then None else Some(s.(lines := s.lines[found.value := act(s.lines[found.value])]))
  }

  // ---------------------------------------------------------------- the map it implements

  ghost predicate Implements(g: Z.Geometry, s: State, m: map<nat, Line>) {
    && Inv(g, s) && 0 !in m
    && forall b :: b != 0 ==> Entry(g, s, b) == if b in m then Some(m[b]) else None
  }

  function Entry(g: Z.Geometry, s: State, b: nat): Option<Line>
    requires Z.Inv(g, s.z) && |s.lines| == g.Lines()
  {
    var found := Z.Find(g, s.z, b);
    if found.None? then None else Some(s.lines[found.value])
  }

  /** The step on the map. `wb` is the address being evicted, 0 if the slot was empty, and
      `spare` the entry the slot was left with. */
  function OnMap(m: map<nat, Line>, step: Step, a: nat, wb: nat, spare: Line): map<nat, Line> {
    match step
    case Serve(b, act) => if b in m then m[b := act(m[b])] else m
    case Choose(_, _) => m
    case Collect(act) => if wb in m then m[wb := act(m[wb])] else m
    case Empty(evict) => if wb in m then m[wb := evict(m[wb])] else m
    case Install => (m - {wb})[a := spare]
    case Invalidate(b, act) => if b in m then m[b := act(m[b])] else m
  }

  function Evicted(g: Z.Geometry, s: State): nat
    requires Inv(g, s)
  {
    if Evicting(s) then s.z.addr[VictimOf(g, s)] else 0
  }

  function Spare(g: Z.Geometry, s: State): (l: Line)
    requires Inv(g, s)
    ensures s.phase.Emptied? ==> Clear(l)
  {
    if Evicting(s) then s.lines[VictimOf(g, s)] else Line(Mesi.I, 0, false, [])
  }

  function Abstract(g: Z.Geometry, s: State, m: map<nat, Line>, step: Step): map<nat, Line>
    requires Inv(g, s)
  {
    OnMap(m, step, if s.phase.Ready? then 0 else s.phase.a, Evicted(g, s), Spare(g, s))
  }

  // ---------------------------------------------------------------- proofs

  /** Changing the entry of one cached address leaves every other address alone. */
  lemma UpdateEntry(g: Z.Geometry, s: State, a: nat, id: nat, l: Line, b: nat)
    requires Z.Inv(g, s.z) && |s.lines| == g.Lines() && id < g.Lines() && s.z.addr[id] == a && b != 0
    ensures var s' := s.(lines := s.lines[id := l]);
      Entry(g, s', b) == if b == a then Some(l) else Entry(g, s, b)
  {
    if b == a { Z.FindIff(g, s.z, a, id); }
  }

  /** An address whose line is valid is found by lookup: the assertion in front of every
      invalidation. */
  lemma HeldIsFound(g: Z.Geometry, s: State, b: nat)
    requires Inv(g, s) && b != 0 && Holds(s, b)
    ensures Z.Find(g, s.z, b).Some? && s.lines[Z.Find(g, s.z, b).value].state != Mesi.I
  {
    var id :| 0 <= id < |s.z.addr| && s.z.addr[id] == b && s.lines[id].state != Mesi.I;
    Z.FindIff(g, s.z, b, id);
  }

  /** The entry being worked on between two phases: the victim's, or that of the line just
      installed. */
  ghost predicate KeptClear(g: Z.Geometry, s: State, id: nat)
    requires Inv(g, s)
  {
    (s.phase.Emptied? && id == VictimOf(g, s)) || (s.phase.Installed? && Some(id) == Z.Find(g, s.z, s.phase.a))
  }

  lemma UpdateInv(g: Z.Geometry, s: State, id: nat, l: Line)
    requires Inv(g, s) && id < g.Lines() && (s.z.addr[id] == 0 ==> Clear(l)) && !KeptClear(g, s, id)
    ensures Inv(g, s.(lines := s.lines[id := l]))
  {
  }

  lemma UpdateImplements(g: Z.Geometry, s: State, m: map<nat, Line>, a: nat, l: Line)
    requires Implements(g, s, m) && a != 0 && Z.Find(g, s.z, a).Some?
    requires !KeptClear(g, s, Z.Find(g, s.z, a).value)
    ensures a in m
    ensures Implements(g, s.(lines := s.lines[Z.Find(g, s.z, a).value := l]), m[a := l])
  {
    var id := Z.Find(g, s.z, a).value;
    assert Entry(g, s, a).Some?;
    UpdateInv(g, s, id, l);
    var s', m' := s.(lines := s.lines[id := l]), m[a := l];
    forall b | b != 0
      ensures Entry(g, s', b) == if b in m' then Some(m'[b]) else None
    {
      UpdateEntry(g, s, a, id, l, b);
      assert Entry(g, s, b) == if b in m then Some(m[b]) else None;
    }
  }

  /** Work on the victim's entry is work on the evicted address's entry; there is none if the slot
      was empty. */
  lemma VictimImplements(g: Z.Geometry, s: State, m: map<nat, Line>, act: Action)
    requires Implements(g, s, m) && s.phase.Chosen? && (Evicted(g, s) == 0 ==> Clear(act(s.lines[VictimOf(g, s)])))
    ensures var wb, id := Evicted(g, s), VictimOf(g, s);
      Implements(g, s.(lines := s.lines[id := act(s.lines[id])]), if wb in m then m[wb := act(m[wb])] else m)
  {
    var id := VictimOf(g, s);
    var wb := s.z.addr[id];
    if wb != 0 {
      Z.FindIff(g, s.z, wb, id);
      UpdateImplements(g, s, m, wb, act(s.lines[id]));
      assert Entry(g, s, wb) == Some(m[wb]);
    } else {
      UpdateInv(g, s, id, act(s.lines[id]));
      forall b | b != 0
        ensures Entry(g, s.(lines := s.lines[id := act(s.lines[id])]), b) == Entry(g, s, b)
      {
        UpdateEntry(g, s, 0, id, act(s.lines[id]), b);
      }
    }
  }

  lemma EmptyImplements(g: Z.Geometry, s: State, m: map<nat, Line>, evict: Action)
    requires Implements(g, s, m) && Enabled(g, s, Empty(evict))
    ensures Implements(g, Next(g, s, Empty(evict)).value, Abstract(g, s, m, Empty(evict)))
  {
    VictimImplements(g, s, m, evict);
    PhaseImplements(g, s.(lines := s.lines[VictimOf(g, s) := evict(s.lines[VictimOf(g, s)])]),
                    Abstract(g, s, m, Empty(evict)), Emptied(s.phase.a, s.phase.pick));
  }

  lemma PhaseImplements(g: Z.Geometry, s: State, m: map<nat, Line>, phase: Phase)
    requires Implements(g, s, m) && Inv(g, s.(phase := phase))
    ensures Implements(g, s.(phase := phase), m)
  {
    forall b | b != 0
      ensures Entry(g, s.(phase := phase), b) == if b in m then Some(m[b]) else None
    {
      assert Entry(g, s.(phase := phase), b) == Entry(g, s, b);
    }
  }

  lemma InstallInv(g: Z.Geometry, s: State)
    requires Inv(g, s) && Enabled(g, s, Install)
    ensures Inv(g, Next(g, s, Install).value)
    ensures Z.Find(g, Next(g, s, Install).value.z, s.phase.a) == Some(VictimOf(g, s))
  {
    Z.FindNone(g, s.z, s.phase.a);
    Z.InsertInv(g, s.z, s.phase.a, Z.SwapPath(g, s.z, s.phase.a, s.phase.pick), VictimOf(g, s));
    Z.InsertRefinesMap(g, s.z, s.phase.a, Z.SwapPath(g, s.z, s.phase.a, s.phase.pick), VictimOf(g, s), s.phase.a);
  }

  lemma InstallImplements(g: Z.Geometry, s: State, m: map<nat, Line>)
    requires Implements(g, s, m) && Enabled(g, s, Install)
    ensures Implements(g, Next(g, s, Install).value, Abstract(g, s, m, Install))
  {
    InstallInv(g, s);
    forall b | b != 0
      ensures var m' := Abstract(g, s, m, Install);
        Entry(g, Next(g, s, Install).value, b) == if b in m' then Some(m'[b]) else None
    {
      InstallAt(g, s, m, b);
    }
  }

  lemma InstallAt(g: Z.Geometry, s: State, m: map<nat, Line>, b: nat)
    requires Implements(g, s, m) && Enabled(g, s, Install) && b != 0
    ensures var s', m' := Next(g, s, Install).value, Abstract(g, s, m, Install);
      && Z.Inv(g, s'.z) && |s'.lines| == g.Lines()
      && Entry(g, s', b) == if b in m' then Some(m'[b]) else None
  {
    InstallEntry(g, s, b);
    assert Entry(g, s, b) == if b in m then Some(m[b]) else None;
  }

  lemma InstallEntry(g: Z.Geometry, s: State, b: nat)
    requires Inv(g, s) && Enabled(g, s, Install) && b != 0
    ensures var s' := Next(g, s, Install).value;
      && Z.Inv(g, s'.z) && |s'.lines| == g.Lines()
      && Entry(g, s', b) ==
           if b == s.phase.a then Some(Spare(g, s)) else if b == Evicted(g, s) then None else Entry(g, s, b)
  {
    InstallInv(g, s);
    Z.FindNone(g, s.z, s.phase.a);
    Z.InsertRefinesMap(g, s.z, s.phase.a, Z.SwapPath(g, s.z, s.phase.a, s.phase.pick), VictimOf(g, s), b);
  }

  lemma ServeImplements(g: Z.Geometry, s: State, m: map<nat, Line>, a: nat, act: Action)
    requires Implements(g, s, m) && Enabled(g, s, Serve(a, act))
    ensures a in m && (s.phase.Installed? ==> Clear(m[a]))
    ensures Implements(g, Next(g, s, Serve(a, act)).value, Abstract(g, s, m, Serve(a, act)))
  {
    var ready := s.(phase := Ready);
    PhaseImplements(g, s, m, Ready);
    assert Entry(g, s, a) == Some(m[a]);
    UpdateImplements(g, ready, m, a, act(s.lines[Z.Find(g, s.z, a).value]));
  }

  lemma InvalidateImplements(g: Z.Geometry, s: State, m: map<nat, Line>, b: nat, act: Action)
    requires Implements(g, s, m) && Enabled(g, s, Invalidate(b, act))
    ensures Next(g, s, Invalidate(b, act)).Some?
    ensures Implements(g, Next(g, s, Invalidate(b, act)).value, Abstract(g, s, m, Invalidate(b, act)))
  {
    HeldIsFound(g, s, b);
    UpdateImplements(g, s, m, b, act(s.lines[Z.Find(g, s.z, b).value]));
    assert Entry(g, s, b) == Some(m[b]);
  }

  /** Every step, a phase of an access or an invalidation between two phases, acts on the cache as
      on the map; the invalidation finds its line; and a miss is served from a clear entry,
      whatever was invalidated since it was installed. */
  lemma StepImplements(g: Z.Geometry, s: State, m: map<nat, Line>, step: Step)
    requires Implements(g, s, m) && Enabled(g, s, step)
    ensures Next(g, s, step).Some? && Implements(g, Next(g, s, step).value, Abstract(g, s, m, step))
    ensures step.Install? ==> Clear(Spare(g, s))
    ensures step.Serve? ==> step.a in m && (s.phase.Installed? ==> Clear(m[step.a]))
  {
    match step
    case Serve(a, act) => ServeImplements(g, s, m, a, act);
    case Choose(a, pick) => PhaseImplements(g, s, m, Chosen(a, pick));
    case Collect(act) => VictimImplements(g, s, m, act);
    case Empty(evict) => EmptyImplements(g, s, m, evict);
    case Install => InstallImplements(g, s, m);
    case Invalidate(b, act) => InvalidateImplements(g, s, m, b, act);
  }

  // ---------------------------------------------------------------- the coherence controllers

  /** The entries of one cache of a coherence tree. */
  function EntryOf(t: Mesi.Cache): Line {
    Line(t.state, t.num, t.excl, seq(|t.kids|, i requires 0 <= i < |t.kids| => t.kids[i].shared))
  }

  /** What `Clear` asks of an eviction is what the controllers do: the invalidations it sends keep
      a clear entry clear, and once it is through the entry is clear, whatever it was before. */
  lemma EvictionClears(t: Mesi.Cache)
    requires Mesi.Coherent(t)
    ensures Clear(EntryOf(MesiTree.Evict(t, []).c))
    ensures Clear(EntryOf(t)) ==> Clear(EntryOf(MesiTree.Purge(t).c))
    ensures t.state == Mesi.I <==> Clear(EntryOf(t))
  {
    MesiTree.EvictCorrect(t, []);
    MesiTree.PurgeCorrect(t);
    InvalidIsClear(MesiTree.Evict(t, []).c);
    InvalidIsClear(MesiTree.Purge(t).c);
    InvalidIsClear(t);
  }

  lemma InvalidIsClear(t: Mesi.Cache)
    requires Mesi.Coherent(t)
    ensures t.state == Mesi.I <==> Clear(EntryOf(t))
  {
    if t.state == Mesi.I {
      MesiTree.InvalidHasNoSharers(t);
      Mesi.CountZero(t.kids);
    }
  }

  // ---------------------------------------------------------------- whole runs

  /** The steps lead from one state to the other. */
  ghost predicate Takes(g: Z.Geometry, s: State, steps: seq<Step>, s': State)
    decreases |steps|
  {
    if steps == [] then s == s'
    else
      && Inv(g, s) && Enabled(g, s, steps[0])
      && var n := Next(g, s, steps[0]);
      n.Some? && Takes(g, n.value, steps[1..], s')
  }

  lemma TakesFirst(g: Z.Geometry, s: State, step: Step, n: State, rest: seq<Step>, s': State)
    requires Inv(g, s) && Enabled(g, s, step) && Next(g, s, step) == Some(n) && Takes(g, n, rest, s')
    ensures Takes(g, s, [step] + rest, s')
  {
    assert ([step] + rest)[1..] == rest;
  }

  /** Runs the steps, skipping those that are not enabled. */
  ghost predicate RunImplements(g: Z.Geometry, s: State, m: map<nat, Line>, steps: seq<Step>)
    decreases |steps|
  {
    && Implements(g, s, m)
    && (steps != [] ==>
          if !Enabled(g, s, steps[0]) then RunImplements(g, s, m, steps[1..])
          else
            && Next(g, s, steps[0]).Some?
            && RunImplements(g, Next(g, s, steps[0]).value, Abstract(g, s, m, steps[0]), steps[1..]))
  }

  lemma {:induction false} EveryRunImplementsMap(g: Z.Geometry, s: State, m: map<nat, Line>, steps: seq<Step>)
    requires Implements(g, s, m)
    ensures RunImplements(g, s, m, steps)
    decreases |steps|
  {
    if steps != [] {
      if Enabled(g, s, steps[0]) {
        StepImplements(g, s, m, steps[0]);
        EveryRunImplementsMap(g, Next(g, s, steps[0]).value, Abstract(g, s, m, steps[0]), steps[1..]);
      } else {
        EveryRunImplementsMap(g, s, m, steps[1..]);
      }
    }
  }
}
