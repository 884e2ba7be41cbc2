/** The cache as the simulator runs it: an array that finds and moves lines, and the coherence
    entries it indexes. An access that misses is split in two around the eviction, because the
    controllers give up their locks there; an invalidation may be processed in between. */
module CacheModel {
  import opened Option
  import opened CacheSpec
  import opened ZArrayModel
  import Z = ZCacheSpec
  import Mesi

  class CacheUnit {
    const tags: ZArray
    const lines: array<Line>
    ghost var phase: Phase

    ghost function View(): State
      reads this, tags.tagArray, tags.lookupArray, lines
    {
      State(tags.View(), lines[..], phase)
    }

    ghost predicate Valid()
      reads this, tags, tags.tagArray, tags.lookupArray, tags.swapArray, lines
    {
      && tags.Valid() && Inv(tags.g, View())
      && (Evicting(View()) ==> tags.Prepared(phase.a, phase.pick))
    }

    constructor (geo: Z.Geometry, sharers: nat)
      requires geo.Valid()
      ensures Valid() && tags.g == geo && phase.Ready? && Implements(geo, View(), map[])
      ensures fresh(tags) && fresh(lines) && fresh(tags.tagArray) && fresh(tags.lookupArray) && fresh(tags.swapArray)
    {
      var empty := Line(Mesi.I, 0, false, seq(sharers, _ => false));
      tags := new ZArray(geo);
      lines := new Line[geo.Lines()](i => empty);
      phase := Ready;
      new;
      forall b | b != 0
        ensures Entry(geo, View(), b) == None
      {
        Z.FindNone(geo, View().z, b);
      }
    }

    /** First phase of a miss: the array names the line to replace. */
    method ChooseVictim(a: nat, pick: nat) returns (lineId: nat, wbLineAddr: nat)
      requires Valid() && Enabled(tags.g, View(), Choose(a, pick))
      modifies this`phase, tags`swapArrayLen, tags`lastCandIdx, tags.swapArray
      ensures Valid() && Some(View()) == Next(tags.g, old(View()), Choose(a, pick))
      ensures lineId == VictimOf(tags.g, View()) && wbLineAddr == Evicted(tags.g, View())
    {
      lineId, wbLineAddr := tags.Preinsert(a, pick);
      phase := Chosen(a, pick);
    }

    /** Second phase: the controllers collect what the levels below hold of that line, ... */
    method CollectBelow(lineId: nat, act: Action)
      requires Valid() && Enabled(tags.g, View(), Collect(act)) && lineId == VictimOf(tags.g, View())
      modifies lines
      ensures Valid() && Some(View()) == Next(tags.g, old(View()), Collect(act))
    {
      UpdateInv(tags.g, View(), lineId, act(lines[lineId]));
      lines[lineId] := act(lines[lineId]);
    }

    /** ... and, once the level above has taken the writeback, empty its entry. */
    method ProcessEviction(lineId: nat, evict: Action)
      requires Valid() && Enabled(tags.g, View(), Empty(evict)) && lineId == VictimOf(tags.g, View())
      modifies this`phase, lines
      ensures Valid() && Some(View()) == Next(tags.g, old(View()), Empty(evict))
    {
      lines[lineId] := evict(lines[lineId]);
      phase := Emptied(phase.a, phase.pick);
    }

    /** Third phase: the array installs the address. */
    method InstallLine(a: nat, lineId: nat)
      requires Valid() && Enabled(tags.g, View(), Install) && phase.a == a && lineId == VictimOf(tags.g, View())
      modifies this`phase, tags.tagArray, tags.lookupArray
      ensures Valid() && Some(View()) == Next(tags.g, old(View()), Install)
      ensures Z.Find(tags.g, tags.View(), a) == Some(lineId)
    {
      InstallInv(tags.g, View());
      Z.FindNone(tags.g, tags.View(), a);
      tags.Postinsert(a, lineId, phase.pick);
      phase := Installed(a);
    }

    /** Last phase, and the whole of a hit: the controllers serve the access. */
    method ServeLine(a: nat, lineId: nat, act: Action)
      requires Valid() && Enabled(tags.g, View(), Serve(a, act)) && Z.Find(tags.g, tags.View(), a) == Some(lineId)
      modifies this`phase, lines
      ensures Valid() && Some(View()) == Next(tags.g, old(View()), Serve(a, act))
    {
      phase := Ready;
      UpdateInv(tags.g, View(), lineId, act(lines[lineId]));
      lines[lineId] := act(lines[lineId]);
    }

    /** A whole access, without interruption: a hit, or all phases of a miss. */
    method Access(a: nat, pick: nat, collect: Action, evict: Action, act: Action)
      requires Valid() && phase.Ready? && a != 0
      requires (forall l :: Clear(l) ==> Clear(collect(l))) && (forall l :: Clear(evict(l)))
      modifies this`phase, tags`swapArrayLen, tags`lastCandIdx, tags.swapArray, tags.tagArray, tags.lookupArray, lines
      ensures Valid() && phase.Ready?
      ensures Takes(tags.g, old(View()),
                    if Z.Find(tags.g, old(View()).z, a).Some? then [Serve(a, act)]
                    else [Choose(a, pick), Collect(collect), Empty(evict), Install, Serve(a, act)], View())
    {
      ghost var s0 := View();
      var found := tags.Lookup(a);
      if found.Some? {
        ServeLine(a, found.value, act);
        TakesFirst(tags.g, s0, Serve(a, act), View(), [], View());
      } else {
        ghost var s1 := AccessMissing(a, pick, collect, evict, act);
        TakesFirst(tags.g, s0, Choose(a, pick), s1, [Collect(collect), Empty(evict), Install, Serve(a, act)], View());
      }
    }

    method AccessMissing(a: nat, pick: nat, collect: Action, evict: Action, act: Action) returns (ghost s1: State)
      requires Valid() && Enabled(tags.g, View(), Choose(a, pick))
      requires (forall l :: Clear(l) ==> Clear(collect(l))) && (forall l :: Clear(evict(l)))
      modifies this`phase, tags`swapArrayLen, tags`lastCandIdx, tags.swapArray, tags.tagArray, tags.lookupArray, lines
      ensures Valid() && phase.Ready?
      ensures Next(tags.g, old(View()), Choose(a, pick)) == Some(s1)
      ensures Takes(tags.g, s1, [Collect(collect), Empty(evict), Install, Serve(a, act)], View())
    {
      var lineId, wbLineAddr := ChooseVictim(a, pick);
      s1 := View();
      CollectBelow(lineId, collect);
      ghost var s2 := View();
      ProcessEviction(lineId, evict);
      ghost var s3 := View();
      InstallAndServe(a, lineId, act);
      TakesFirst(tags.g, s2, Empty(evict), s3, [Install, Serve(a, act)], View());
      TakesFirst(tags.g, s1, Collect(collect), s2, [Empty(evict), Install, Serve(a, act)], View());
    }

    /** The last two phases. */
    method InstallAndServe(a: nat, lineId: nat, act: Action)
      requires Valid() && Enabled(tags.g, View(), Install) && phase.a == a && lineId == VictimOf(tags.g, View())
      modifies this`phase, tags.tagArray, tags.lookupArray, lines
      ensures Valid() && phase.Ready?
      ensures Takes(tags.g, old(View()), [Install, Serve(a, act)], View())
    {
      ghost var s3 := View();
      InstallLine(a, lineId);
      ghost var s4 := View();
      ServeLine(a, lineId, act);
      TakesFirst(tags.g, s4, Serve(a, act), View(), [], View());
      TakesFirst(tags.g, s3, Install, s4, [Serve(a, act)], View());
    }

    /** An invalidation, at any moment: lookup finds the line. */
    method FinishInvalidate(b: nat, act: Action)
      requires Valid() && Enabled(tags.g, View(), Invalidate(b, act))
      modifies lines
      ensures Valid() && Some(View()) == Next(tags.g, old(View()), Invalidate(b, act))
    {
      HeldIsFound(tags.g, View(), b);
      var found := tags.Lookup(b);
      assert found.Some?;
      UpdateInv(tags.g, View(), found.value, act(lines[found.value]));
      lines[found.value] := act(lines[found.value]);
    }
  }
}
