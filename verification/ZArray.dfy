/** The zcache array as the simulator keeps it: two mutable tables, and a swap array that
    carries the chosen path from the first phase of an insertion to the second. */
module ZArrayModel {
  import opened Option
  import opened ZCacheSpec
  import opened Arith

  class ZArray {
    const g: Geometry
    const tagArray: array<nat>        // line id -> address
    const lookupArray: array<nat>  // physical position -> line id
    const swapArray: array<nat>    // positions, chosen candidate first
    var swapArrayLen: nat
    var lastCandIdx: nat

    ghost predicate Valid()
      reads this, tagArray, lookupArray
    {
      && g.Valid()
      && tagArray.Length == lookupArray.Length == g.Lines()
      && swapArray.Length == Quotient(g.cands, g.ways) + 2
      && tagArray != lookupArray && tagArray != swapArray && lookupArray != swapArray
      && Inv(g, View())
    }

    ghost function View(): ZState
      reads tagArray, lookupArray
    {
      ZState(tagArray[..], lookupArray[..])
    }

    /** The first phase for `a` has been run with policy choice `pick` and nothing has
        changed since. */
    ghost predicate Prepared(a: nat, pick: nat)
      requires Valid()
      reads this, tagArray, lookupArray, swapArray
    {
      && swapArrayLen == |SwapPath(g, View(), a, pick)|
      && swapArray[..swapArrayLen] == SwapPath(g, View(), a, pick)
    }

    constructor (geo: Geometry)
      requires geo.Valid()
      ensures Valid() && g == geo
      ensures View() == Start0(geo)
      ensures fresh(tagArray) && fresh(lookupArray) && fresh(swapArray)
    {
      g := geo;
      var tags := new nat[geo.Lines()](i => 0);
      var table := new nat[geo.Lines()](i => i);
      tagArray := tags;
      lookupArray := table;
      RemainderIs(geo.cands, geo.ways);
      swapArray := new nat[geo.cands / geo.ways + 2](i => 0);
      swapArrayLen := 0;
      lastCandIdx := 0;
      new;
      assert tagArray[..] == Start0(geo).addr;
      assert lookupArray[..] == Start0(geo).look;
    }

    method Lookup(a: nat) returns (r: Option<nat>)
      requires Valid() && a != 0
      ensures r == Find(g, View(), a)
      ensures r.None? <==> a !in tagArray[..]
    {
      ghost var z := View();
      FindNone(g, z, a);
      var w := 0;
      while w < g.ways
        invariant w <= g.ways
        invariant FindFrom(g, z, a, w) == Find(g, z, a)
      {
        PosInRange(g, w, a);
        var lineId := lookupArray[g.Pos(w, a)];
        if tagArray[lineId] == a {
          return Some(lineId);
        }
        w := w + 1;
      }
      return None;
    }

    /** Looks at one way of the fringe line. The entry is always stored, as in the source, and
        kept only when it is not the fringe line itself. */
    method StoreChild(buf: array<Walk>, fringe: nat, fringeId: nat, w: nat, n: nat)
      returns (n': nat, childValid: bool)
      requires Shape(g, View()) && fringeId < g.Lines() && w < g.ways && n < buf.Length
      modifies buf
      ensures var e := Entry(g, View(), tagArray[fringeId], w, fringe);
        && childValid == (tagArray[e.id] != 0)
        && n' == (if e.id != fringeId then n + 1 else n)
        && buf[..n'] == old(buf[..n]) + if e.id != fringeId then [e] else []
    {
      var fringeAddr := tagArray[fringeId];
      PosInRange(g, w, fringeAddr);
      var pos := g.Pos(w, fringeAddr);
      var lineId := lookupArray[pos];
      ghost var before := buf[..n];
      buf[n] := Walk(pos, lineId, fringe);
      assert buf[..n] == before;
      childValid := tagArray[lineId] != 0;
      n' := if lineId != fringeId then n + 1 else n;
    }

    /** One expansion step of the walk. */
    method Expand(buf: array<Walk>, fringe: nat, numCands: nat, allValid: bool)
      returns (n: nat, valid: bool)
      requires Shape(g, View()) && buf.Length == g.cands + g.ways
      requires fringe < numCands < g.cands && buf[fringe].id < g.Lines()
      requires allValid == AllValid(View(), buf[..numCands])
      modifies buf
      ensures n <= buf.Length
      ensures buf[..n] == old(buf[..numCands]) + Children(g, View(), old(buf[fringe].id), fringe, g.ways)
      ensures valid == AllValid(View(), buf[..n])
    {
      ghost var z := View();
      ghost var c := buf[..numCands];
      var fringeId := buf[fringe].id;
      n, valid := numCands, allValid;
      var w := 0;
      while w < g.ways
        invariant w <= g.ways && numCands <= n <= numCands + w
        invariant buf[..n] == c + Children(g, z, fringeId, fringe, w)
        invariant valid == AllValid(z, buf[..n])
      {
        n, valid := ExpandWay(buf, fringe, fringeId, w, n, valid, c);
        w := w + 1;
      }
    }

    /** One turn of that loop; `c` are the candidates before the expansion. */
    method ExpandWay(buf: array<Walk>, fringe: nat, fringeId: nat, w: nat, n: nat, valid: bool, ghost c: seq<Walk>)
      returns (n': nat, valid': bool)
      requires Shape(g, View()) && w < g.ways && n < buf.Length && fringeId < g.Lines()
      requires fringe < |c| && c[fringe].id == fringeId
      requires buf[..n] == c + Children(g, View(), fringeId, fringe, w)
      requires valid == AllValid(View(), buf[..n])
      modifies buf
      ensures n <= n' <= n + 1
      ensures buf[..n'] == c + Children(g, View(), fringeId, fringe, w + 1)
      ensures valid' == AllValid(View(), buf[..n'])
    {
      var childValid;
      ChildValid(View(), c, fringeId, fringe, w);
      n', childValid := StoreChild(buf, fringe, fringeId, w, n);
      valid' := valid && childValid;
    }

    /** The source folds the validity of every stored entry into its flag, kept or not: a
        dropped entry is the fringe line, which the flag already covers. */
    lemma ChildValid(z: ZState, c: seq<Walk>, fringeId: nat, fringe: nat, w: nat)
      requires Shape(g, z) && fringeId < g.Lines() && w < g.ways
      requires fringe < |c| && c[fringe].id == fringeId
      ensures var e := Entry(g, z, z.addr[fringeId], w, fringe);
        var now := c + Children(g, z, fringeId, fringe, w);
        AllValid(z, c + Children(g, z, fringeId, fringe, w + 1)) <==> AllValid(z, now) && z.addr[e.id] != 0
    {
      var e := Entry(g, z, z.addr[fringeId], w, fringe);
      var now := c + Children(g, z, fringeId, fringe, w);
      if e.id != fringeId {
        AllValidAppend(z, now, e);
        assert c + Children(g, z, fringeId, fringe, w + 1) == now + [e];
      } else {
        assert now[fringe].id == fringeId;
      }
    }

    /** One turn of the walk loop. */
    method Step(buf: array<Walk>, fringe: nat, numCands: nat, ghost a: nat) returns (n: nat, valid: bool)
      requires Valid() && buf.Length == g.cands + g.ways && numCands < g.cands
      requires WalkInv(g, View(), a, buf[..numCands], fringe) && AllValid(View(), buf[..numCands])
      modifies buf
      ensures numCands < n < buf.Length && WalkInv(g, View(), a, buf[..n], fringe + 1)
      ensures valid == AllValid(View(), buf[..n])
      ensures Bfs(g, View(), a, buf[..n], fringe + 1) == Bfs(g, View(), a, old(buf[..numCands]), fringe)
    {
      ghost var c := buf[..numCands];
      assert c[fringe] == buf[fringe];
      ExpandInv(g, View(), a, c, fringe);
      n, valid := Expand(buf, fringe, numCands, true);
      assert |buf[..n]| == |c| + (g.ways - 1);
    }

    /** The seeds: the new address's own position in every way. */
    method GatherSeeds(buf: array<Walk>, a: nat) returns (allValid: bool)
      requires Shape(g, View()) && buf.Length == g.cands + g.ways
      modifies buf
      ensures buf[..g.ways] == Seeds(g, View(), a, g.ways)
      ensures allValid == AllValid(View(), buf[..g.ways])
    {
      ghost var z := View();
      allValid := true;
      var w := 0;
      while w < g.ways
        invariant w <= g.ways
        invariant buf[..w] == Seeds(g, z, a, w)
        invariant allValid == AllValid(z, buf[..w])
      {
        PosInRange(g, w, a);
        var pos := g.Pos(w, a);
        var lineId := lookupArray[pos];
        var entry := Walk(pos, lineId, -1);
        ghost var before := buf[..w];
        buf[w] := entry;
        allValid := allValid && tagArray[lineId] != 0;
        assert buf[..w + 1] == before + [entry];
        AllValidAppend(z, before, entry);
        w := w + 1;
      }
    }

    /** The walk loop. */
    method Explore(buf: array<Walk>, seedsValid: bool, ghost a: nat) returns (n: nat)
      requires Valid() && buf.Length == g.cands + g.ways
      requires buf[..g.ways] == Start(g, View(), a) && seedsValid == AllValid(View(), buf[..g.ways])
      modifies buf
      ensures n < buf.Length && buf[..n] == Bfs(g, View(), a, Start(g, View(), a), 0)
    {
      var allValid := seedsValid;
      var fringe := 0;
      n := g.ways;
      while n < g.cands && allValid
        invariant n < buf.Length && WalkInv(g, View(), a, buf[..n], fringe)
        invariant allValid == AllValid(View(), buf[..n])
        invariant Bfs(g, View(), a, buf[..n], fringe) == Bfs(g, View(), a, Start(g, View(), a), 0)
        decreases g.cands - n
      {
        n, allValid := Step(buf, fringe, n, a);
        fringe := fringe + 1;
      }
    }

    /** The whole walk: seeds, then breadth-first expansion, then truncation. */
    method Gather(a: nat) returns (buf: array<Walk>, n: nat)
      requires Valid()
      ensures fresh(buf) && n <= buf.Length
      ensures buf[..n] == Candidates(g, View(), a)
    {
      buf := new Walk[g.cands + g.ways](i => Walk(0, 0, -1));
      var allValid := GatherSeeds(buf, a);
      n := Explore(buf, allValid, a);
      ghost var all := buf[..n];
      if n > g.cands {
        n := g.cands;
        assert buf[..n] == all[..n];
      }
    }

    /** First phase of an insertion. The replacement policy's answer is candidate number
        `pick`, which may be any of them. Nothing observable changes yet. */
    method Preinsert(a: nat, pick: nat) returns (candidate: nat, wbLineAddr: nat)
      requires Valid()
      modifies this`swapArrayLen, this`lastCandIdx, swapArray
      ensures Valid() && View() == old(View())
      ensures candidate == Victim(g, View(), a, pick)
      ensures pick < |Candidates(g, View(), a)| ==> candidate == Candidates(g, View(), a)[pick].id
      ensures wbLineAddr == tagArray[candidate]
      ensures Prepared(a, pick)
    {
      var buf, n := Gather(a);
      CandidatesPrefix(g, View(), a);
      var minIdx;
      candidate, minIdx := FirstMatch(buf, n, pick);
      lastCandIdx := minIdx;
      FillSwapArray(buf, n, minIdx, a);
      wbLineAddr := tagArray[candidate];
    }

    /** The policy's line and the minimum walk index that holds it. */
    method FirstMatch(buf: array<Walk>, n: nat, pick: nat) returns (candidate: nat, minIdx: nat)
      requires 0 < n <= buf.Length
      ensures candidate == buf[Remainder(pick, n)].id
      ensures minIdx < n && (exists k :: 0 <= k < n && buf[..n][k].id == candidate)
      ensures minIdx == FirstIndex(buf[..n], candidate)
    {
      ghost var c := buf[..n];
      candidate := buf[Remainder(pick, n)].id;
      assert c[Remainder(pick, n)].id == candidate;
      minIdx := 0;
      while minIdx < n && buf[minIdx].id != candidate
        invariant minIdx <= n
        invariant forall k :: 0 <= k < minIdx ==> c[k].id != candidate
      {
        minIdx := minIdx + 1;
      }
      assert c[FirstIndex(c, candidate)].id == candidate;
    }

    /** Walks the parent links backwards into the swap array. */
    method FillSwapArray(buf: array<Walk>, n: nat, minIdx: nat, ghost a: nat)
      requires g.Valid() && minIdx < n <= buf.Length && swapArray.Length == Quotient(g.cands, g.ways) + 2
      requires tagArray != swapArray && lookupArray != swapArray
      requires WalkPrefix(g, View(), a, buf[..n])
      modifies this`swapArrayLen, swapArray
      ensures swapArrayLen == |PathFrom(g, View(), a, old(buf[..n]), minIdx)| <= swapArray.Length
      ensures swapArray[..swapArrayLen] == PathFrom(g, View(), a, old(buf[..n]), minIdx)
    {
      ghost var z := View();
      ghost var c := buf[..n];
      ghost var whole := PathFrom(g, z, a, c, minIdx);
      QuotientMonotone(minIdx, g.cands, g.ways);
      var idx: int := minIdx;
      var swapIdx := 0;
      while idx >= 0
        invariant idx < n && swapIdx <= |whole| <= swapArray.Length && buf[..n] == c
        invariant swapArray[..swapIdx] == whole[..swapIdx]
        invariant whole[swapIdx..] == if idx < 0 then [] else PathFrom(g, z, a, c, idx)
        decreases idx
      {
        assert c[idx] == buf[idx];
        PathStep(g, z, a, c, idx);
        assert whole[swapIdx] == buf[idx].pos;
        assert whole[swapIdx..][1..] == whole[swapIdx + 1..];
        swapArray[swapIdx] := buf[idx].pos;
        swapIdx := swapIdx + 1;
        idx := buf[idx].parent;
      }
      assert whole[..swapIdx] == whole;
      swapArrayLen := swapIdx;
    }

    /** The swap loop of the second phase. */
    method RotateInPlace(candidate: nat, ghost path: seq<nat>)
      requires lookupArray != swapArray && 0 < swapArrayLen == |path| <= swapArray.Length
      requires swapArray[..swapArrayLen] == path
      requires forall k :: 0 <= k < |path| ==> path[k] < lookupArray.Length
      modifies lookupArray
      ensures lookupArray[..] == Rotate(old(lookupArray[..]), path, candidate)
    {
      ghost var target := Rotate(lookupArray[..], path, candidate);
      assert path[0..] == path;
      assert forall k :: 0 <= k < |path| ==> swapArray[k] == path[k];
      var i := 0;
      while i < swapArrayLen - 1
        invariant i < swapArrayLen
        invariant Rotate(lookupArray[..], path[i..], candidate) == target
      {
        ghost var look := lookupArray[..];
        lookupArray[swapArray[i]] := lookupArray[swapArray[i + 1]];
        assert lookupArray[..] == look[path[i] := look[path[i + 1]]];
        assert path[i..][1..] == path[i + 1..];
        i := i + 1;
      }
      ghost var last := lookupArray[..];
      lookupArray[swapArray[swapArrayLen - 1]] := candidate;
      assert lookupArray[..] == last[path[i] := candidate];
    }

    /** Second phase: rotate the line ids along the path and write the new tag. */
    method Postinsert(a: nat, candidate: nat, ghost pick: nat)
      requires Valid() && a != 0 && a !in tagArray[..]
      requires candidate == Victim(g, View(), a, pick) && Prepared(a, pick)
      modifies tagArray, lookupArray
      ensures Valid() && View() == Miss(g, old(View()), a, pick)
    {
      ghost var z := View();
      ghost var path := SwapPath(g, z, a, pick);
      RotateInPlace(candidate, path);
      tagArray[candidate] := a;
      assert View() == Miss(g, z, a, pick);
      InsertInv(g, z, a, path, candidate);
    }
  }
}
