/** Dimension-order routing on a k-ary n-mesh. Output port 2d leads one step up in dimension d,
    2d+1 one step down, and 2n ejects. Routers are written as coordinates, lowest dimension
    first; the port computations themselves work on router numbers, as in the source. */
module MeshRouting {
  import opened Digits
  import Arith

  // ---------------------------------------------------------------- the routing decision

  function FirstDiff(x: seq<nat>, y: seq<nat>): (d: nat)
    requires |x| == |y| && x != y
    ensures d < |x| && x[d] != y[d] && forall i :: 0 <= i < d ==> x[i] == y[i]
  {
    if x[0] != y[0] then 0
    else
      assert x == [x[0]] + x[1..] && y == [y[0]] + y[1..];
      FirstDiff(x[1..], y[1..]) + 1
  }

  function LastDiff(x: seq<nat>, y: seq<nat>): (d: nat)
    requires |x| == |y| && x != y
    ensures d < |x| && x[d] != y[d] && forall i :: d < i < |x| ==> x[i] == y[i]
  {
    var n := |x| - 1;
    if x[n] != y[n] then n
    else
      assert x == x[..n] + [x[n]] && y == y[..n] + [y[n]];
      LastDiff(x[..n], y[..n])
  }

  /** The dimension a packet at `x` for `y` travels in. */
  function NextDim(x: seq<nat>, y: seq<nat>, descending: bool): (d: nat)
    requires |x| == |y| && x != y
    ensures d < |x| && x[d] != y[d]
  {
    if descending then LastDiff(x, y) else FirstDiff(x, y)
  }

  function NextPort(x: seq<nat>, y: seq<nat>, descending: bool): (p: nat)
    requires |x| == |y|
    ensures p <= 2 * |x| && (p == 2 * |x| <==> x == y)
  {
    if x == y then 2 * |x|
    else
      var d := NextDim(x, y, descending);
      if x[d] < y[d] then 2 * d else 2 * d + 1
  }

  /** The router at the other end of output port `p`. */
  function Neighbor(x: seq<nat>, p: nat): (z: seq<nat>)
    requires p < 2 * |x| && (p % 2 == 1 ==> x[p / 2] > 0)
    ensures |z| == |x|
  {
    x[p / 2 := if p % 2 == 0 then x[p / 2] + 1 else x[p / 2] - 1]
  }

  // ---------------------------------------------------------------- routes

  function Gap(a: nat, b: nat): nat { if a < b then b - a else a - b }

  /** Manhattan distance. */
  function Distance(x: seq<nat>, y: seq<nat>): (n: nat)
    requires |x| == |y|
  {
    if x == [] then 0 else Gap(x[0], y[0]) + Distance(x[1..], y[1..])
  }

  lemma {:induction false} DistanceZero(x: seq<nat>, y: seq<nat>)
    requires |x| == |y|
    ensures Distance(x, y) == 0 <==> x == y
  {
    if x != [] {
      DistanceZero(x[1..], y[1..]);
      assert x == [x[0]] + x[1..] && y == [y[0]] + y[1..];
    }
  }

  lemma {:induction false} DistanceUpdate(x: seq<nat>, y: seq<nat>, d: nat, v: nat)
    requires |x| == |y| && d < |x|
    ensures Distance(x[d := v], y) == Distance(x, y) - Gap(x[d], y[d]) + Gap(v, y[d])
  {
    if d == 0 {
      assert x[d := v][1..] == x[1..];
    } else {
      assert x[d := v][1..] == x[1..][d - 1 := v];
      DistanceUpdate(x[1..], y[1..], d - 1, v);
    }
  }

  /** One hop stays inside the mesh and comes exactly one step closer. */
  lemma HopProgress(k: nat, x: seq<nat>, y: seq<nat>, descending: bool)
    requires |x| == |y| && x != y && Coords(k, x) && Coords(k, y)
    ensures var p := NextPort(x, y, descending);
      && p < 2 * |x| && (p % 2 == 1 ==> x[p / 2] > 0)
      && Coords(k, Neighbor(x, p))
      && Distance(Neighbor(x, p), y) + 1 == Distance(x, y)
  {
    var d := NextDim(x, y, descending);
    var v := if x[d] < y[d] then x[d] + 1 else x[d] - 1;
    HopTarget(x, y, descending);
    DistanceUpdate(x, y, d, v);
  }

  lemma HopTarget(x: seq<nat>, y: seq<nat>, descending: bool)
    requires |x| == |y| && x != y
    ensures var p, d := NextPort(x, y, descending), NextDim(x, y, descending);
      && p < 2 * |x| && p / 2 == d && (p % 2 == 0 <==> x[d] < y[d])
      && Neighbor(x, p) == x[d := if x[d] < y[d] then x[d] + 1 else x[d] - 1]
  {
  }

  /** A channel is an output port of a router. */
  datatype Channel = Channel(router: seq<nat>, port: nat)

  /** The channels a packet uses from `x` until it is ejected at `y`. */
  function Route(k: nat, x: seq<nat>, y: seq<nat>, descending: bool): (r: seq<Channel>)
    requires |x| == |y| && Coords(k, x) && Coords(k, y)
    decreases Distance(x, y)
  {
    if x == y then []
    else
      var p := NextPort(x, y, descending);
      HopProgress(k, x, y, descending);
      [Channel(x, p)] + Route(k, Neighbor(x, p), y, descending)
  }

  /** Follows channels from `x`; None if one of them does not start where the packet is. */
  predicate Leads(x: seq<nat>, r: seq<Channel>, y: seq<nat>)
    decreases |r|
  {
    if r == [] then x == y
    else
      && r[0].router == x && r[0].port < 2 * |x| && (r[0].port % 2 == 1 ==> x[r[0].port / 2] > 0)
      && Leads(Neighbor(x, r[0].port), r[1..], y)
  }

  /** Minimality: every route leads to its destination in exactly the Manhattan distance, and
      only there does the routing function eject. */
  lemma {:induction false} RouteIsMinimal(k: nat, x: seq<nat>, y: seq<nat>, descending: bool)
    requires |x| == |y| && Coords(k, x) && Coords(k, y)
    ensures Leads(x, Route(k, x, y, descending), y)
    ensures |Route(k, x, y, descending)| == Distance(x, y)
    ensures forall i :: 0 <= i < |Route(k, x, y, descending)| ==> Route(k, x, y, descending)[i].port < 2 * |x|
    decreases Distance(x, y)
  {
    if x == y {
      DistanceZero(x, y);
    } else {
      var p := NextPort(x, y, descending);
      HopProgress(k, x, y, descending);
      RouteIsMinimal(k, Neighbor(x, p), y, descending);
      var rest := Route(k, Neighbor(x, p), y, descending);
      assert Route(k, x, y, descending)[1..] == rest;
      forall i | 0 <= i < |Route(k, x, y, descending)|
        ensures Route(k, x, y, descending)[i].port < 2 * |x|
      {
        if i > 0 { assert Route(k, x, y, descending)[i] == rest[i - 1]; }
      }
    }
  }

  /** No sequence of hops whatever leads there in fewer. */
  lemma {:induction false} NoShorterWalk(x: seq<nat>, r: seq<Channel>, y: seq<nat>)
    requires |x| == |y| && Leads(x, r, y)
    ensures |r| >= Distance(x, y)
    decreases |r|
  {
    if r == [] {
      DistanceZero(x, y);
    } else {
      var z := Neighbor(x, r[0].port);
      NoShorterWalk(z, r[1..], y);
      DistanceUpdate(x, y, r[0].port / 2, z[r[0].port / 2]);
    }
  }

  // ---------------------------------------------------------------- deadlock freedom

  /** The first rank of the d-th dimension routed: each dimension has k positions. */
  function FirstRank(k: nat, d: nat): nat {
    if d == 0 then 0 else FirstRank(k, d - 1) + k
  }

  /** Progress of a channel along its dimension. */
  function Progress(k: nat, c: Channel): (n: nat)
    requires c.port < 2 * |c.router| && Coords(k, c.router)
    ensures n < k
  {
    if c.port % 2 == 0 then c.router[c.port / 2] else k - 1 - c.router[c.port / 2]
  }

  function Turn(c: Channel, descending: bool): (t: nat)
    requires c.port < 2 * |c.router|
  {
    if descending then |c.router| - 1 - c.port / 2 else c.port / 2
  }

  /** Position of a channel in the global order: first by the order in which dimensions are
      routed, then by progress along the dimension. It depends on the channel alone. */
  function Rank(k: nat, c: Channel, descending: bool): nat
    requires c.port < 2 * |c.router| && Coords(k, c.router)
  {
    FirstRank(k, Turn(c, descending)) + Progress(k, c)
  }

  /** Between two consecutive channels of any route the rank strictly increases, so channel
      dependencies cannot form a cycle. */
  lemma RankIncreases(k: nat, x: seq<nat>, y: seq<nat>, descending: bool)
    requires |x| == |y| && x != y && Coords(k, x) && Coords(k, y)
    ensures var p := NextPort(x, y, descending);
      && p < 2 * |x| && (p % 2 == 1 ==> x[p / 2] > 0)
      && var z := Neighbor(x, p);
      && Coords(k, z)
      && (z != y ==> Rank(k, Channel(z, NextPort(z, y, descending)), descending) > Rank(k, Channel(x, p), descending))
  {
    HopProgress(k, x, y, descending);
    var p := NextPort(x, y, descending);
    var d := NextDim(x, y, descending);
    var z := Neighbor(x, p);
    assert forall i :: 0 <= i < |x| && i != d ==> z[i] == x[i];
    if z != y {
      LaterChannel(k, x, y, z, d, NextDim(z, y, descending), descending);
    }
  }

  lemma LaterChannel(k: nat, x: seq<nat>, y: seq<nat>, z: seq<nat>, d: nat, e: nat, descending: bool)
    requires |x| == |y| == |z| && Coords(k, z) && x != y && z != y && Coords(k, x)
    requires d == NextDim(x, y, descending) && e == NextDim(z, y, descending)
    requires forall i :: 0 <= i < |x| && i != d ==> z[i] == x[i]
    requires z[d] == if x[d] < y[d] then x[d] + 1 else x[d] - 1
    ensures Rank(k, Channel(x, NextPort(x, y, descending)), descending) <
            Rank(k, Channel(z, NextPort(z, y, descending)), descending)
  {
    var c, c' := Channel(x, NextPort(x, y, descending)), Channel(z, NextPort(z, y, descending));
    assert c.port / 2 == d && c'.port / 2 == e;
    assert if descending then e <= d else e >= d;
    if e == d {
      assert c'.port == c.port && Progress(k, c') == Progress(k, c) + 1;
    } else {
      RankStep(k, Turn(c, descending), Turn(c', descending));
    }
  }

  lemma {:induction false} RankStep(k: nat, a: nat, b: nat)
    requires a < b
    ensures FirstRank(k, a) + k <= FirstRank(k, b)
  {
    if a + 1 < b { RankStep(k, a, b - 1); }
  }

  predicate Usable(k: nat, n: nat, c: Channel) {
    |c.router| == n && Coords(k, c.router) && c.port < 2 * n
  }

  lemma RouteSteps(k: nat, x: seq<nat>, y: seq<nat>, descending: bool)
    requires |x| == |y| && Coords(k, x) && Coords(k, y) && x != y
    ensures var p := NextPort(x, y, descending);
      && p < 2 * |x| && (p % 2 == 1 ==> x[p / 2] > 0) && Coords(k, Neighbor(x, p))
      && var r := Route(k, x, y, descending);
      && |r| > 0 && r[0] == Channel(x, p) && r[1..] == Route(k, Neighbor(x, p), y, descending)
  {
    HopProgress(k, x, y, descending);
  }

  /** Along a whole route the ranks form a strictly increasing sequence. */
  lemma {:induction false} RouteRanked(k: nat, x: seq<nat>, y: seq<nat>, descending: bool, i: nat, j: nat)
    requires |x| == |y| && Coords(k, x) && Coords(k, y)
    requires i < j < |Route(k, x, y, descending)|
    ensures var r := Route(k, x, y, descending);
      && Usable(k, |x|, r[i]) && Usable(k, |x|, r[j])
      && Rank(k, r[i], descending) < Rank(k, r[j], descending)
    decreases Distance(x, y)
  {
    HopProgress(k, x, y, descending);
    var z := Neighbor(x, NextPort(x, y, descending));
    RouteSteps(k, x, y, descending);
    if i > 0 {
      RouteRanked(k, z, y, descending, i - 1, j - 1);
    } else {
      RankIncreases(k, x, y, descending);
      RouteSteps(k, z, y, descending);
      if j > 1 { RouteRanked(k, z, y, descending, 0, j - 1); }
    }
  }

  function Succ(i: nat, n: nat): (j: nat)
    requires i < n
    ensures j < n
  {
    if i + 1 == n then 0 else i + 1
  }

  lemma NoRisingCycle(ranks: seq<int>)
    requires |ranks| > 0
    ensures exists i :: 0 <= i < |ranks| && ranks[i] >= ranks[Succ(i, |ranks|)]
  {
    var i := 0;
    while i + 1 < |ranks| && ranks[i] < ranks[i + 1]
      invariant i < |ranks| && ranks[0] <= ranks[i]
    {
      i := i + 1;
    }
    assert ranks[i] >= ranks[Succ(i, |ranks|)];
  }

  /** A packet that holds the channel it left router `at` by and waits for the next channel of
      its route. */
  datatype Waiter = Waiter(at: seq<nat>, dest: seq<nat>)

  predicate Waits(k: nat, n: nat, w: Waiter, descending: bool) {
    && |w.at| == |w.dest| == n && Coords(k, w.at) && Coords(k, w.dest) && w.at != w.dest
    && var p := NextPort(w.at, w.dest, descending);
    && (p % 2 == 1 ==> w.at[p / 2] > 0) && Neighbor(w.at, p) != w.dest
  }

  function Held(k: nat, n: nat, w: Waiter, descending: bool): Channel
    requires Waits(k, n, w, descending)
  {
    Channel(w.at, NextPort(w.at, w.dest, descending))
  }

  function Wanted(k: nat, n: nat, w: Waiter, descending: bool): Channel
    requires Waits(k, n, w, descending)
  {
    var z := Neighbor(w.at, NextPort(w.at, w.dest, descending));
    Channel(z, NextPort(z, w.dest, descending))
  }

  predicate BlockedBy(k: nat, n: nat, w: Waiter, v: Waiter, descending: bool) {
    Waits(k, n, w, descending) && Waits(k, n, v, descending) && Wanted(k, n, w, descending) == Held(k, n, v, descending)
  }

  /** Deadlock freedom: no ring of packets, each waiting for the channel the next one holds,
      can ever form. */
  lemma NoCyclicWait(k: nat, n: nat, ws: seq<Waiter>, descending: bool)
    requires |ws| > 0 && forall i :: 0 <= i < |ws| ==> Waits(k, n, ws[i], descending)
    ensures exists i :: 0 <= i < |ws| && !BlockedBy(k, n, ws[i], ws[Succ(i, |ws|)], descending)
  {
    var ranks := seq(|ws|, i requires 0 <= i < |ws| => Rank(k, Held(k, n, ws[i], descending), descending));
    NoRisingCycle(ranks);
    var i :| 0 <= i < |ranks| && ranks[i] >= ranks[Succ(i, |ranks|)];
    RankIncreases(k, ws[i].at, ws[i].dest, descending);
  }

  // ---------------------------------------------------------------- splitting the VCs

  /** The routing answer of xy_yx_mesh at a router that is not the destination: a port and a VC
      range. `arrived` says whether the packet came in from another router; a packet that is
      just entering draws `coin`. */
  datatype Choice = Choice(port: nat, begin: int, end: int)

  function XyYx(x: seq<nat>, y: seq<nat>, arrived: bool, vc: int, coin: bool, begin: int, end: int): Choice
    requires |x| == |y|
  {
    if x == y then Choice(2 * |x|, begin, end)
    else
      var avail := (end - begin + 1) / 2;
      var ascending := if arrived then vc < begin + avail else coin;
      if ascending then Choice(NextPort(x, y, false), begin, end - avail)
      else Choice(NextPort(x, y, true), begin + avail, end)
  }

  /** The half a VC belongs to. */
  predicate LowerHalf(vc: int, begin: int, end: int) { vc < begin + (end - begin + 1) / 2 }

  /** A packet keeps the half it was given, whichever VC of the offered range it gets, for every
      VC range it could be offered, exactly when the class has an even number of VCs. */
  lemma HalvesKeptIffEven(x: seq<nat>, y: seq<nat>, begin: int, end: int)
    requires |x| == |y| && x != y && end - begin >= 1
    ensures (forall arrived, vc, coin, out ::
               (var c := XyYx(x, y, arrived, vc, coin, begin, end);
                c.begin <= out <= c.end ==>
                  (LowerHalf(out, begin, end) <==> if arrived then LowerHalf(vc, begin, end) else coin)))
            <==> (end - begin + 1) % 2 == 0
  {
    var avail := (end - begin + 1) / 2;
    if (end - begin + 1) % 2 != 0 {
      var c := XyYx(x, y, false, begin, true, begin, end);
      assert c.begin <= end - avail <= c.end && !LowerHalf(end - avail, begin, end);
    }
  }

  /** An even class is split in two whole halves: each order is offered all VCs of its own. */
  lemma EvenClassIsHalved(x: seq<nat>, y: seq<nat>, arrived: bool, vc: int, coin: bool, begin: int, end: int, out: int)
    requires |x| == |y| && x != y && end - begin >= 1 && (end - begin + 1) % 2 == 0
    ensures var c := XyYx(x, y, arrived, vc, coin, begin, end);
      c.begin <= out <= c.end <==>
        begin <= out <= end &&
        (LowerHalf(out, begin, end) <==> if arrived then LowerHalf(vc, begin, end) else coin)
  {
    var avail := (end - begin + 1) / 2;
    assert avail + avail == end - begin + 1;
  }

  /** The VC a packet is given from an offered range: any one, as `draw` decides. */
  function Given(c: Choice, draw: nat): (vc: int)
    requires c.begin <= c.end
    ensures c.begin <= vc <= c.end
  {
    c.begin + Arith.Remainder(draw, c.end - c.begin + 1)
  }

  /** A packet in flight is routed in the order its half stands for; in an even class it also
      stays in that half. */
  lemma HopStaysInHalf(x: seq<nat>, y: seq<nat>, vc: int, begin: int, end: int, out: int)
    requires |x| == |y| && x != y && end - begin >= 1
    ensures var c := XyYx(x, y, true, vc, false, begin, end);
      && c.port == NextPort(x, y, !LowerHalf(vc, begin, end))
      && begin <= c.begin <= c.end <= end
      && ((end - begin + 1) % 2 == 0 && c.begin <= out <= c.end ==>
          (LowerHalf(out, begin, end) <==> LowerHalf(vc, begin, end)))
  {
    var avail := (end - begin + 1) / 2;
    assert (end - begin + 1) % 2 == 0 ==> avail + avail == end - begin + 1;
  }

  /** A packet in flight under xy_yx_mesh: at each router it may get any VC of the offered
      range, as `draw` decides. */
  function SplitRoute(k: nat, x: seq<nat>, y: seq<nat>, vc: int, begin: int, end: int, draw: seq<nat> -> nat):
      (r: seq<Channel>)
    requires |x| == |y| && Coords(k, x) && Coords(k, y) && end - begin >= 1
    decreases Distance(x, y)
  {
    if x == y then []
    else
      var c := XyYx(x, y, true, vc, false, begin, end);
      HopStaysInHalf(x, y, vc, begin, end, 0);
      HopProgress(k, x, y, !LowerHalf(vc, begin, end));
      [Channel(x, c.port)] + SplitRoute(k, Neighbor(x, c.port), y, Given(c, draw(x)), begin, end, draw)
  }

  /** With an even class, a packet's whole route is the ascending route if it started in the
      lower half and the descending one otherwise, so each half has its own increasing channel
      order and is deadlock free by itself. */
  lemma {:induction false} SplitRouteStaysInHalf(k: nat, x: seq<nat>, y: seq<nat>, vc: int, begin: int, end: int,
      draw: seq<nat> -> nat)
    requires |x| == |y| && Coords(k, x) && Coords(k, y) && end - begin >= 1 && (end - begin + 1) % 2 == 0
    ensures SplitRoute(k, x, y, vc, begin, end, draw) == Route(k, x, y, !LowerHalf(vc, begin, end))
    decreases Distance(x, y)
  {
    if x != y {
      var c := XyYx(x, y, true, vc, false, begin, end);
      HopStaysInHalf(x, y, vc, begin, end, 0);
      HopProgress(k, x, y, !LowerHalf(vc, begin, end));
      HopStaysInHalf(x, y, vc, begin, end, Given(c, draw(x)));
      SplitRouteStaysInHalf(k, Neighbor(x, c.port), y, Given(c, draw(x)), begin, end, draw);
    }
  }

  /** A packet from its source: there it draws `coin`, and is given a VC of the range offered for
      the first hop. */
  function InjectedRoute(k: nat, x: seq<nat>, y: seq<nat>, coin: bool, begin: int, end: int, draw: seq<nat> -> nat):
      (r: seq<Channel>)
    requires |x| == |y| && Coords(k, x) && Coords(k, y) && end - begin >= 1
  {
    if x == y then []
    else
      var c := XyYx(x, y, false, -1, coin, begin, end);
      HopProgress(k, x, y, !coin);
      [Channel(x, c.port)] + SplitRoute(k, Neighbor(x, c.port), y, Given(c, draw(x)), begin, end, draw)
  }

  /** With an even class the coin drawn at the source decides the whole route, whatever VCs the
      packet gets: it is the ascending or the descending route. */
  lemma InjectedRouteKeepsItsCoin(k: nat, x: seq<nat>, y: seq<nat>, coin: bool, begin: int, end: int,
      draw: seq<nat> -> nat)
    requires |x| == |y| && Coords(k, x) && Coords(k, y) && end - begin >= 1 && (end - begin + 1) % 2 == 0
    ensures InjectedRoute(k, x, y, coin, begin, end, draw) == Route(k, x, y, !coin)
  {
    if x != y {
      var c := XyYx(x, y, false, -1, coin, begin, end);
      HopProgress(k, x, y, !coin);
      assert LowerHalf(Given(c, draw(x)), begin, end) <==> coin;
      SplitRouteStaysInHalf(k, Neighbor(x, c.port), y, Given(c, draw(x)), begin, end, draw);
    }
  }

  // ---------------------------------------------------------------- the port computation

  /** The source's computation on router numbers. Ascending order strips low digits, descending
      order rotates high digits out of the top. */
  method DorNextMesh(k: nat, n: nat, cur0: nat, dest0: nat, descending: bool) returns (port: nat)
    requires k > 0 && n > 0 && cur0 < Pow(k, n) && dest0 < Pow(k, n)
    ensures port == NextPort(CoordsOf(k, cur0, n), CoordsOf(k, dest0, n), descending)
  {
    ghost var x := CoordsOf(k, cur0, n);
    ghost var y := CoordsOf(k, dest0, n);
    NumberOfCoords(k, cur0, n);
    NumberOfCoords(k, dest0, n);
    CoordsInRange(k, cur0, n);
    CoordsInRange(k, dest0, n);
    if cur0 == dest0 {
      return 2 * n;
    }
    if descending {
      port := HighestDifference(k, n, cur0, dest0, x, y);
    } else {
      port := LowestDifference(k, n, cur0, dest0, x, y);
    }
  }

  lemma LowDigit(k: nat, x: seq<nat>, d: nat)
    requires k > 0 && Coords(k, x) && d < |x|
    ensures Number(k, x[d..]) % k == x[d] && Number(k, x[d..]) / k == Number(k, x[d + 1..])
  {
    DropLow(k, x[d..]);
    assert x[d..][1..] == x[d + 1..];
  }

  method LowestDifference(k: nat, n: nat, cur0: nat, dest0: nat, ghost x: seq<nat>, ghost y: seq<nat>)
      returns (port: nat)
    requires k > 0 && |x| == |y| == n > 0 && Coords(k, x) && Coords(k, y) && x != y
    requires cur0 == Number(k, x) && dest0 == Number(k, y)
    ensures port == NextPort(x, y, false)
  {
    var cur, dest := cur0, dest0;
    var dimLeft := 0;
    while dimLeft < n - 1
      invariant dimLeft < n && x[..dimLeft] == y[..dimLeft]
      invariant cur == Number(k, x[dimLeft..]) && dest == Number(k, y[dimLeft..])
      decreases n - dimLeft
    {
      LowDigit(k, x, dimLeft);
      LowDigit(k, y, dimLeft);
      if cur % k != dest % k {
        break;
      }
      assert x[..dimLeft + 1] == x[..dimLeft] + [x[dimLeft]] && y[..dimLeft + 1] == y[..dimLeft] + [y[dimLeft]];
      cur := cur / k;
      dest := dest / k;
      dimLeft := dimLeft + 1;
    }
    LowDigit(k, x, dimLeft);
    LowDigit(k, y, dimLeft);
    assert x == x[..dimLeft] + [x[dimLeft]] + x[dimLeft + 1..];
    assert y == y[..dimLeft] + [y[dimLeft]] + y[dimLeft + 1..];
    assert FirstDiff(x, y) == dimLeft by {
      assert forall i :: 0 <= i < dimLeft ==> x[i] == x[..dimLeft][i] == y[..dimLeft][i] == y[i];
    }
    cur := cur % k;
    dest := dest % k;
    port := if cur < dest then 2 * dimLeft else 2 * dimLeft + 1;
  }

  /** A router number from which the top `j` digits have been rotated out. */
  function Shifted(k: nat, x: seq<nat>, j: nat): nat {
    if j == 0 then Number(k, x) else Shifted(k, x, j - 1) * k
  }

  lemma {:induction false} ShiftedIs(k: nat, x: seq<nat>, j: nat)
    ensures Shifted(k, x, j) == Number(k, x) * Pow(k, j)
  {
    if j > 0 {
      ShiftedIs(k, x, j - 1);
      Regroup(Number(k, x), Pow(k, j - 1), k);
    }
  }

  lemma Regroup(a: nat, p: nat, k: nat)
    ensures (a * p) * k == a * (k * p)
  {
  }

  /** The top digit, read through a multiplication by k and a division by the router count. */
  lemma TopDigit(k: nat, x: seq<nat>, j: nat, nodes: nat)
    requires k > 0 && Coords(k, x) && x != [] && nodes == Pow(k, |x| + j)
    ensures nodes > 0
    ensures Shifted(k, x, j + 1) / nodes == x[|x| - 1]
    ensures Shifted(k, x, j + 1) % nodes == Shifted(k, x[..|x| - 1], j + 1)
  {
    PowPositive(k, j + 1);
    PowPositive(k, |x| - 1);
    PowAdd(k, |x| - 1, j + 1);
    DropHigh(k, x);
    ShiftedIs(k, x, j + 1);
    ShiftedIs(k, x[..|x| - 1], j + 1);
    ScaledDivMod(Number(k, x), Pow(k, |x| - 1), Pow(k, j + 1));
  }

  lemma TopDigits(k: nat, n: nat, x: seq<nat>, d: nat, nodes: nat)
    requires k > 0 && Coords(k, x) && d < |x| == n && nodes == Pow(k, n)
    ensures nodes > 0
    ensures Shifted(k, x[..d + 1], n - 1 - d) * k / nodes == x[d]
    ensures Shifted(k, x[..d + 1], n - 1 - d) * k % nodes == Shifted(k, x[..d], n - d)
  {
    TopDigit(k, x[..d + 1], n - 1 - d, nodes);
    assert x[..d + 1][..d] == x[..d];
  }

  method HighestDifference(k: nat, n: nat, cur0: nat, dest0: nat, ghost x: seq<nat>, ghost y: seq<nat>)
      returns (port: nat)
    requires k > 0 && |x| == |y| == n > 0 && Coords(k, x) && Coords(k, y) && x != y
    requires cur0 == Number(k, x) && dest0 == Number(k, y)
    ensures port == NextPort(x, y, true)
  {
    var dimLeft, cur, dest := RotateDigits(k, n, cur0, dest0, x, y);
    cur := cur * k / Pow(k, n);
    dest := dest * k / Pow(k, n);
    port := if cur < dest then 2 * dimLeft else 2 * dimLeft + 1;
  }

  /** The loop: rotates equal high digits out of the top. */
  method RotateDigits(k: nat, n: nat, cur0: nat, dest0: nat, ghost x: seq<nat>, ghost y: seq<nat>)
    returns (dimLeft: nat, cur: nat, dest: nat)
    requires k > 0 && |x| == |y| == n > 0 && Coords(k, x) && Coords(k, y) && x != y
    requires cur0 == Number(k, x) && dest0 == Number(k, y)
    ensures dimLeft == LastDiff(x, y) && Pow(k, n) > 0
    ensures cur * k / Pow(k, n) == x[dimLeft] && dest * k / Pow(k, n) == y[dimLeft]
  {
    var nodes := Pow(k, n);
    cur, dest, dimLeft := cur0, dest0, n - 1;
    assert x[..n] == x && y[..n] == y;
    while dimLeft > 0
      invariant 0 <= dimLeft < n && x[dimLeft + 1..] == y[dimLeft + 1..]
      invariant cur == Shifted(k, x[..dimLeft + 1], n - 1 - dimLeft)
      invariant dest == Shifted(k, y[..dimLeft + 1], n - 1 - dimLeft)
    {
      TopDigits(k, n, x, dimLeft, nodes);
      TopDigits(k, n, y, dimLeft, nodes);
      if cur * k / nodes != dest * k / nodes {
        break;
      }
      EqualFrom(x, y, dimLeft);
      cur := cur * k % nodes;
      dest := dest * k % nodes;
      dimLeft := dimLeft - 1;
    }
    TopDigits(k, n, x, dimLeft, nodes);
    TopDigits(k, n, y, dimLeft, nodes);
    IsLastDiff(x, y, dimLeft);
  }

  lemma EqualFrom(x: seq<nat>, y: seq<nat>, d: nat)
    requires d < |x| == |y| && x[d] == y[d] && x[d + 1..] == y[d + 1..]
    ensures x[d..] == y[d..]
  {
    assert x[d..] == [x[d]] + x[d + 1..] && y[d..] == [y[d]] + y[d + 1..];
  }

  lemma IsLastDiff(x: seq<nat>, y: seq<nat>, d: nat)
    requires d < |x| == |y| && x != y && x[d + 1..] == y[d + 1..] && (d == 0 || x[d] != y[d])
    ensures LastDiff(x, y) == d
  {
    assert x == x[..d] + [x[d]] + x[d + 1..];
    assert y == y[..d] + [y[d]] + y[d + 1..];
    assert forall i :: d < i < |x| ==> x[i] == x[d + 1..][i - d - 1] == y[d + 1..][i - d - 1] == y[i];
  }
}
