/** Dimension-order routing on a k-ary n-torus. Output port 2d leads one step up around the ring
    of dimension d, 2d+1 one step down, 2n ejects, and what leaves on port p arrives on input
    port p^1. Each ring is kept free of cyclic waiting by sorting packets into two partitions:
    those of one never cross the wraparound link, those of the other never cross the link in the
    middle of the ring. */
module TorusRouting {
  import opened Digits
  import Arith
  import MeshRouting

  // ---------------------------------------------------------------- one ring

  /** The second dateline lies between this position and the next. */
  function Mid(k: nat): (m: nat)
    requires k > 0
    ensures 2 * m < k <= 2 * m + 2
  {
    (k - 1) / 2
  }

  /** Hops from `c` to `d` going up, or going down, around the ring. */
  function Ahead(k: nat, up: bool, c: nat, d: nat): (n: nat)
    requires c < k && d < k
    ensures n < k && (n == 0 <==> c == d)
  {
    if up then (if c <= d then d - c else d - c + k) else (if d <= c then c - d else c - d + k)
  }

  function NextOnRing(k: nat, up: bool, c: nat): (e: nat)
    requires c < k
    ensures e < k
  {
    if up then (if c == k - 1 then 0 else c + 1) else (if c == 0 then k - 1 else c - 1)
  }

  /** The shorter way round. */
  function RingDistance(k: nat, c: nat, d: nat): (n: nat)
    requires c < k && d < k
  {
    if Ahead(k, true, c, d) <= Ahead(k, false, c, d) then Ahead(k, true, c, d) else Ahead(k, false, c, d)
  }

  /** The direction and the partition chosen when a packet starts along a ring. `high` is
      partition 1. */
  datatype Turn = Turn(up: bool, high: bool)
  datatype Coins = Coins(up: bool, high: bool)

  function Turning(k: nat, c: nat, d: nat, balance: bool, coins: Coins): Turn
    requires c < k && d < k
  {
    var dist2 := k - 2 * Arith.Remainder(d - c + k, k);
    var up := dist2 > 0 || (dist2 == 0 && coins.up);
    var high :=
      if balance then
        if (up && c > d) || (!up && c < d) then true
        else if (up && c <= Mid(k) && d > Mid(k)) || (!up && c > Mid(k) && d <= Mid(k)) then false
        else coins.high
      else
        (up && c > d) || (!up && d < c);
    Turn(up, high)
  }

  /** Whether packets of this direction and partition may cross the wraparound link. Without
      balancing the roles are swapped for the downward direction. */
  predicate MayWrap(balance: bool, up: bool, high: bool) {
    if balance || up then high else !high
  }

  /** The link a class never crosses, named by the position it leaves from. */
  function CutLink(k: nat, up: bool, wraps: bool): nat
    requires k > 0
  {
    if wraps then (if up then Mid(k) else Mid(k) + 1) else (if up then k - 1 else 0)
  }

  /** Position along the ring counted from just past the class's cut link. */
  function RingRank(k: nat, up: bool, wraps: bool, c: nat): (n: nat)
    requires c < k
    ensures n < k
  {
    if up then
      (if !wraps then c else if c > Mid(k) then c - Mid(k) - 1 else c + k - Mid(k) - 1)
    else
      (if !wraps then k - 1 - c else if c <= Mid(k) then Mid(k) - c else Mid(k) + k - c)
  }

  /** Only the cut link has the last rank. */
  lemma LastRankIsCut(k: nat, up: bool, wraps: bool, c: nat)
    requires c < k && k > 1
    ensures RingRank(k, up, wraps, c) == k - 1 <==> c == CutLink(k, up, wraps)
  {
  }

  /** Still short of the cut link when `d` is reached, and going the shorter way. */
  predicate Bound(k: nat, up: bool, wraps: bool, c: nat, d: nat)
    requires c < k && d < k
  {
    && 2 * Ahead(k, up, c, d) <= k
    && RingRank(k, up, wraps, c) + Ahead(k, up, c, d) < k
  }

  lemma ModularDistance(k: nat, c: nat, d: nat)
    requires c < k && d < k
    ensures Arith.Remainder(d - c + k, k) == Ahead(k, true, c, d)
  {
  }

  /** For every ring size the chosen way round is a shortest one, and it stays clear of the link
      forbidden to the chosen partition. */
  lemma TurnIsBound(k: nat, c: nat, d: nat, balance: bool, coins: Coins)
    requires c < k && d < k && c != d
    ensures var t := Turning(k, c, d, balance, coins);
      && Ahead(k, t.up, c, d) == RingDistance(k, c, d)
      && Bound(k, t.up, MayWrap(balance, t.up, t.high), c, d)
  {
    ModularDistance(k, c, d);
  }

  /** Whether the way from c to d leaves over the link out of position x. */
  predicate Crosses(k: nat, up: bool, c: nat, d: nat, x: nat)
    requires c < k && d < k && x < k
  {
    Ahead(k, up, c, x) < Ahead(k, up, c, d)
  }

  /** The links the two partitions avoid: the one that closes the ring, and the one in its middle. */
  function WrapLink(k: nat, up: bool): (x: nat)
    requires k > 0
    ensures x < k
  {
    if up then k - 1 else 0
  }

  function MidLink(k: nat, up: bool): (x: nat)
    requires k > 1
    ensures x < k
  {
    if up then Mid(k) else Mid(k) + 1
  }

  /** What decides a turn. The shorter way is taken, and between two of equal length the first coin
      decides. With balancing, a way over the closing link puts the packet in partition 1, one over
      the middle link in partition 0, and where neither is crossed the second coin decides. Without,
      the packet may cross the closing link exactly if its way does. */
  lemma TurnFollowsCoins(k: nat, c: nat, d: nat, balance: bool, coins: Coins)
    requires c < k && d < k && c != d
    ensures var t := Turning(k, c, d, balance, coins);
      && t.up == (if Ahead(k, true, c, d) == Ahead(k, false, c, d) then coins.up
                  else Ahead(k, true, c, d) < Ahead(k, false, c, d))
      && if balance then
           t.high == (if Crosses(k, t.up, c, d, WrapLink(k, t.up)) then true
                      else if Crosses(k, t.up, c, d, MidLink(k, t.up)) then false
                      else coins.high)
         else MayWrap(balance, t.up, t.high) == Crosses(k, t.up, c, d, WrapLink(k, t.up))
  {
    ModularDistance(k, c, d);
  }

  /** One hop along the ring: one rank up, one hop fewer to go. */
  lemma HopOnRing(k: nat, up: bool, wraps: bool, c: nat, d: nat)
    requires c < k && d < k && c != d && Bound(k, up, wraps, c, d)
    ensures var e := NextOnRing(k, up, c);
      && RingRank(k, up, wraps, e) == RingRank(k, up, wraps, c) + 1
      && Ahead(k, up, e, d) == Ahead(k, up, c, d) - 1
      && RingDistance(k, e, d) == RingDistance(k, c, d) - 1
      && Bound(k, up, wraps, e, d)
  {
  }

  // ---------------------------------------------------------------- the routing decision

  function Flip(p: nat): nat { if p % 2 == 0 then p + 1 else p - 1 }

  /** A packet's head flit at a router: where it is, which input port it came in on and which
      partition it carries. */
  datatype Packet = Packet(at: seq<nat>, inPort: nat, high: bool)
  datatype Decision = Decision(port: nat, high: bool)

  function Decide(k: nat, p: Packet, y: seq<nat>, balance: bool, coins: Coins): Decision
    requires |p.at| == |y| && Coords(k, p.at) && Coords(k, y)
  {
    if p.at == y then Decision(2 * |y|, p.high)
    else
      var d := MeshRouting.FirstDiff(p.at, y);
      if p.inPort / 2 != d then
        var t := Turning(k, p.at[d], y[d], balance, coins);
        Decision(if t.up then 2 * d else 2 * d + 1, t.high)
      else
        Decision(Flip(p.inPort), p.high)
  }

  function Move(k: nat, p: Packet, c: Decision): Packet
    requires c.port < 2 * |p.at| && Coords(k, p.at)
  {
    var d := c.port / 2;
    Packet(p.at[d := NextOnRing(k, c.port % 2 == 0, p.at[d])], Flip(c.port), c.high)
  }

  /** A packet that arrived along dimension e has finished the lower dimensions and, if it is
      not through with e, keeps short of its class's cut link. A packet entering the network
      has an input port beyond 2n. */
  predicate OnTrack(k: nat, p: Packet, y: seq<nat>, balance: bool) {
    && |p.at| == |y| && Coords(k, p.at) && Coords(k, y)
    && var e := p.inPort / 2;
    && (e < |y| ==>
          && (forall i :: 0 <= i < e ==> p.at[i] == y[i])
          && (p.at[e] != y[e] ==>
                var up := p.inPort % 2 == 1;
                Bound(k, up, MayWrap(balance, up, p.high), p.at[e], y[e])))
  }

  // ---------------------------------------------------------------- distance on the torus

  function Distance(k: nat, x: seq<nat>, y: seq<nat>): nat
    requires |x| == |y| && Coords(k, x) && Coords(k, y)
  {
    if x == [] then 0 else RingDistance(k, x[0], y[0]) + Distance(k, x[1..], y[1..])
  }

  lemma {:induction false} DistanceZero(k: nat, x: seq<nat>, y: seq<nat>)
    requires |x| == |y| && Coords(k, x) && Coords(k, y)
    ensures Distance(k, x, y) == 0 <==> x == y
  {
    if x != [] {
      DistanceZero(k, x[1..], y[1..]);
      assert x == [x[0]] + x[1..] && y == [y[0]] + y[1..];
    }
  }

  lemma {:induction false} DistanceUpdate(k: nat, x: seq<nat>, y: seq<nat>, d: nat, v: nat)
    requires |x| == |y| && Coords(k, x) && Coords(k, y) && d < |x| && v < k
    ensures Distance(k, x[d := v], y) == Distance(k, x, y) - RingDistance(k, x[d], y[d]) + RingDistance(k, v, y[d])
  {
    if d == 0 {
      assert x[d := v][1..] == x[1..];
    } else {
      assert x[d := v][1..] == x[1..][d - 1 := v];
      DistanceUpdate(k, x[1..], y[1..], d - 1, v);
    }
  }

  // ---------------------------------------------------------------- one hop

  /** The ring class a decision puts the packet in. */
  predicate Wraps(balance: bool, c: Decision) { MayWrap(balance, c.port % 2 == 0, c.high) }

  /** What a decision away from the destination looks like: the lowest unfinished dimension, in
      a direction and partition that keep the packet short of the cut link. */
  lemma DecisionIsBound(k: nat, p: Packet, y: seq<nat>, balance: bool, coins: Coins)
    requires OnTrack(k, p, y, balance) && p.at != y
    ensures var c := Decide(k, p, y, balance, coins);
      && c.port < 2 * |y|
      && c.port / 2 == MeshRouting.FirstDiff(p.at, y)
      && Bound(k, c.port % 2 == 0, Wraps(balance, c), p.at[c.port / 2], y[c.port / 2])
  {
    var d := MeshRouting.FirstDiff(p.at, y);
    TurnIsBound(k, p.at[d], y[d], balance, coins);
  }

  /** Every hop keeps the packet on track, takes it one hop closer and never leaves over the cut
      link of its class. */
  lemma HopIsSafe(k: nat, p: Packet, y: seq<nat>, balance: bool, coins: Coins)
    requires OnTrack(k, p, y, balance) && p.at != y
    ensures var c := Decide(k, p, y, balance, coins);
      && c.port < 2 * |y|
      && OnTrack(k, Move(k, p, c), y, balance)
      && Distance(k, Move(k, p, c).at, y) == Distance(k, p.at, y) - 1
      && p.at[c.port / 2] != CutLink(k, c.port % 2 == 0, Wraps(balance, c))
  {
    var c := Decide(k, p, y, balance, coins);
    DecisionIsBound(k, p, y, balance, coins);
    var d := c.port / 2;
    HopOnRing(k, c.port % 2 == 0, Wraps(balance, c), p.at[d], y[d]);
    LastRankIsCut(k, c.port % 2 == 0, Wraps(balance, c), p.at[d]);
    DistanceUpdate(k, p.at, y, d, NextOnRing(k, c.port % 2 == 0, p.at[d]));
    assert Flip(c.port) / 2 == d && (Flip(c.port) % 2 == 1 <==> c.port % 2 == 0);
  }

  // ---------------------------------------------------------------- whole routes

  /** An output port of a router, together with the partition it is used in. */
  datatype Channel = Channel(router: seq<nat>, port: nat, high: bool)

  /** The channels a packet uses. `draw` gives the random bits drawn at a router. */
  function Route(k: nat, p: Packet, y: seq<nat>, balance: bool, draw: seq<nat> -> Coins): (r: seq<Channel>)
    requires OnTrack(k, p, y, balance)
    decreases Distance(k, p.at, y)
  {
    if p.at == y then []
    else
      var c := Decide(k, p, y, balance, draw(p.at));
      HopIsSafe(k, p, y, balance, draw(p.at));
      [Channel(p.at, c.port, c.high)] + Route(k, Move(k, p, c), y, balance, draw)
  }

  /** Where a walk over the given output ports leads. */
  function Walk(k: nat, x: seq<nat>, ports: seq<nat>): (z: seq<nat>)
    requires Coords(k, x) && forall i :: 0 <= i < |ports| ==> ports[i] < 2 * |x|
    ensures |z| == |x| && Coords(k, z)
    decreases |ports|
  {
    if ports == [] then x
    else Walk(k, x[ports[0] / 2 := NextOnRing(k, ports[0] % 2 == 0, x[ports[0] / 2])], ports[1..])
  }

  function Ports(r: seq<Channel>): (s: seq<nat>)
    ensures |s| == |r| && forall i :: 0 <= i < |r| ==> s[i] == r[i].port
  {
    if r == [] then [] else [r[0].port] + Ports(r[1..])
  }

  /** Every route ends at its destination after exactly the distance, and does not eject before. */
  lemma {:induction false} RouteArrives(k: nat, p: Packet, y: seq<nat>, balance: bool, draw: seq<nat> -> Coins)
    requires OnTrack(k, p, y, balance)
    ensures var r := Route(k, p, y, balance, draw);
      && |r| == Distance(k, p.at, y)
      && (forall i :: 0 <= i < |r| ==> Ports(r)[i] < 2 * |y|)
      && Walk(k, p.at, Ports(r)) == y
    decreases Distance(k, p.at, y)
  {
    if p.at == y {
      DistanceZero(k, p.at, y);
    } else {
      var c := Decide(k, p, y, balance, draw(p.at));
      HopIsSafe(k, p, y, balance, draw(p.at));
      var q := Move(k, p, c);
      RouteArrives(k, q, y, balance, draw);
      var r := Route(k, p, y, balance, draw);
      assert r[1..] == Route(k, q, y, balance, draw);
      assert Ports(r) == [c.port] + Ports(r[1..]);
      assert Ports(r)[1..] == Ports(r[1..]);
    }
  }

  /** No walk whatever reaches the destination in fewer hops. */
  lemma {:induction false} NoShorterWalk(k: nat, x: seq<nat>, ports: seq<nat>)
    requires Coords(k, x) && forall i :: 0 <= i < |ports| ==> ports[i] < 2 * |x|
    ensures |ports| >= Distance(k, x, Walk(k, x, ports))
    decreases |ports|
  {
    var y := Walk(k, x, ports);
    if ports == [] {
      DistanceZero(k, x, x);
    } else {
      var d, v := ports[0] / 2, NextOnRing(k, ports[0] % 2 == 0, x[ports[0] / 2]);
      NoShorterWalk(k, x[d := v], ports[1..]);
      DistanceUpdate(k, x, y, d, v);
    }
  }

  // ---------------------------------------------------------------- deadlock freedom

  /** Position of a channel in the global order: by dimension, then by rank on the ring. It
      depends on the channel and its partition alone. */
  function Rank(k: nat, c: Channel, balance: bool): int
    requires Coords(k, c.router) && c.port < 2 * |c.router|
  {
    var up := c.port % 2 == 0;
    MeshRouting.FirstRank(k, c.port / 2) + RingRank(k, up, MayWrap(balance, up, c.high), c.router[c.port / 2])
  }

  /** The next channel of a packet always ranks above the one it is holding. */
  lemma RankIncreases(k: nat, p: Packet, y: seq<nat>, balance: bool, coins: Coins, coins': Coins)
    requires OnTrack(k, p, y, balance) && p.at != y
    ensures var c := Decide(k, p, y, balance, coins);
      && c.port < 2 * |y|
      && var q := Move(k, p, c);
      && |q.at| == |y| && Coords(k, q.at)
      && (q.at != y ==>
            var c' := Decide(k, q, y, balance, coins');
            && c'.port < 2 * |y|
            && Rank(k, Channel(q.at, c'.port, c'.high), balance) > Rank(k, Channel(p.at, c.port, c.high), balance))
  {
    HopIsSafe(k, p, y, balance, coins);
    DecisionIsBound(k, p, y, balance, coins);
    var c := Decide(k, p, y, balance, coins);
    var q := Move(k, p, c);
    if q.at != y {
      DecisionIsBound(k, q, y, balance, coins');
      LaterChannel(k, p, y, balance, c, Decide(k, q, y, balance, coins'), coins');
    }
  }

  lemma LaterChannel(k: nat, p: Packet, y: seq<nat>, balance: bool, c: Decision, c': Decision, coins': Coins)
    requires |p.at| == |y| && Coords(k, p.at) && Coords(k, y) && p.at != y && c.port < 2 * |y|
    requires c.port / 2 == MeshRouting.FirstDiff(p.at, y)
    requires Bound(k, c.port % 2 == 0, Wraps(balance, c), p.at[c.port / 2], y[c.port / 2])
    requires Move(k, p, c).at != y && c' == Decide(k, Move(k, p, c), y, balance, coins')
    requires c'.port < 2 * |y| && c'.port / 2 == MeshRouting.FirstDiff(Move(k, p, c).at, y)
    ensures Rank(k, Channel(p.at, c.port, c.high), balance) <
            Rank(k, Channel(Move(k, p, c).at, c'.port, c'.high), balance)
  {
    var d, e := c.port / 2, c'.port / 2;
    assert e >= d;
    if e > d {
      MeshRouting.RankStep(k, d, e);
    } else {
      assert c' == Decision(c.port, c.high);
      HopOnRing(k, c.port % 2 == 0, Wraps(balance, c), p.at[d], y[d]);
    }
  }

  predicate Usable(k: nat, n: nat, c: Channel) {
    |c.router| == n && Coords(k, c.router) && c.port < 2 * n
  }

  lemma RouteSteps(k: nat, p: Packet, y: seq<nat>, balance: bool, draw: seq<nat> -> Coins)
    requires OnTrack(k, p, y, balance) && p.at != y
    ensures var c := Decide(k, p, y, balance, draw(p.at));
      && c.port < 2 * |y| && OnTrack(k, Move(k, p, c), y, balance)
      && var r := Route(k, p, y, balance, draw);
      && |r| > 0 && r[0] == Channel(p.at, c.port, c.high) && Usable(k, |y|, r[0])
      && r[1..] == Route(k, Move(k, p, c), y, balance, draw)
  {
    HopIsSafe(k, p, y, balance, draw(p.at));
  }

  lemma {:induction false} NextRanksHigher(k: nat, p: Packet, y: seq<nat>, balance: bool, draw: seq<nat> -> Coins,
      i: nat)
    requires OnTrack(k, p, y, balance) && i + 1 < |Route(k, p, y, balance, draw)|
    ensures var r := Route(k, p, y, balance, draw);
      && Usable(k, |y|, r[i]) && Usable(k, |y|, r[i + 1])
      && Rank(k, r[i], balance) < Rank(k, r[i + 1], balance)
    decreases i
  {
    RouteSteps(k, p, y, balance, draw);
    var q := Move(k, p, Decide(k, p, y, balance, draw(p.at)));
    if i == 0 {
      RankIncreases(k, p, y, balance, draw(p.at), draw(q.at));
      RouteSteps(k, q, y, balance, draw);
    } else {
      NextRanksHigher(k, q, y, balance, draw, i - 1);
    }
  }

  /** Along a whole route the ranks form a strictly increasing sequence. */
  lemma RouteRanked(k: nat, p: Packet, y: seq<nat>, balance: bool, draw: seq<nat> -> Coins, i: nat, j: nat)
    requires OnTrack(k, p, y, balance) && i < j < |Route(k, p, y, balance, draw)|
    ensures var r := Route(k, p, y, balance, draw);
      && Usable(k, |y|, r[i]) && Usable(k, |y|, r[j])
      && Rank(k, r[i], balance) < Rank(k, r[j], balance)
  {
    var r := Route(k, p, y, balance, draw);
    NextRanksHigher(k, p, y, balance, draw, i);
    var m := i + 1;
    while m < j
      invariant m <= j && Usable(k, |y|, r[i]) && Usable(k, |y|, r[m])
          && Rank(k, r[i], balance) < Rank(k, r[m], balance)
    {
      NextRanksHigher(k, p, y, balance, draw, m);
      m := m + 1;
    }
  }

  /** No route crosses the link forbidden to the partition it is in at the time. */
  lemma {:induction false} RouteAvoidsCut(k: nat, p: Packet, y: seq<nat>, balance: bool, draw: seq<nat> -> Coins,
      i: nat)
    requires OnTrack(k, p, y, balance) && i < |Route(k, p, y, balance, draw)|
    ensures var c := Route(k, p, y, balance, draw)[i];
      && Usable(k, |y|, c)
      && c.router[c.port / 2] != CutLink(k, c.port % 2 == 0, MayWrap(balance, c.port % 2 == 0, c.high))
    decreases Distance(k, p.at, y)
  {
    HopIsSafe(k, p, y, balance, draw(p.at));
    RouteSteps(k, p, y, balance, draw);
    if i > 0 {
      RouteAvoidsCut(k, Move(k, p, Decide(k, p, y, balance, draw(p.at))), y, balance, draw, i - 1);
    }
  }

  /** A packet that holds the channel it left a router by and waits for the next one: `first` and
      `second` are the bits drawn at the two routers. */
  datatype Waiter = Waiter(packet: Packet, dest: seq<nat>, first: Coins, second: Coins)

  predicate Waits(k: nat, n: nat, w: Waiter, balance: bool) {
    && |w.dest| == n && OnTrack(k, w.packet, w.dest, balance) && w.packet.at != w.dest
    && var c := Decide(k, w.packet, w.dest, balance, w.first);
    && c.port < 2 * n && Move(k, w.packet, c).at != w.dest
    && Coords(k, Move(k, w.packet, c).at)
  }

  function Held(k: nat, n: nat, w: Waiter, balance: bool): Channel
    requires Waits(k, n, w, balance)
  {
    var c := Decide(k, w.packet, w.dest, balance, w.first);
    Channel(w.packet.at, c.port, c.high)
  }

  function Wanted(k: nat, n: nat, w: Waiter, balance: bool): Channel
    requires Waits(k, n, w, balance)
  {
    var q := Move(k, w.packet, Decide(k, w.packet, w.dest, balance, w.first));
    var c := Decide(k, q, w.dest, balance, w.second);
    Channel(q.at, c.port, c.high)
  }

  predicate BlockedBy(k: nat, n: nat, w: Waiter, v: Waiter, balance: bool) {
    Waits(k, n, w, balance) && Waits(k, n, v, balance) && Wanted(k, n, w, balance) == Held(k, n, v, balance)
  }

  /** Deadlock freedom: no ring of packets, each waiting for the channel the next one holds,
      can ever form, whatever bits were drawn. */
  lemma NoCyclicWait(k: nat, n: nat, ws: seq<Waiter>, balance: bool)
    requires |ws| > 0 && forall i :: 0 <= i < |ws| ==> Waits(k, n, ws[i], balance)
    ensures exists i :: 0 <= i < |ws| && !BlockedBy(k, n, ws[i], ws[MeshRouting.Succ(i, |ws|)], balance)
  {
    var ranks := seq(|ws|, i requires 0 <= i < |ws| => Rank(k, Held(k, n, ws[i], balance), balance));
    MeshRouting.NoRisingCycle(ranks);
    var i :| 0 <= i < |ranks| && ranks[i] >= ranks[MeshRouting.Succ(i, |ranks|)];
    RankIncreases(k, ws[i].packet, ws[i].dest, balance, ws[i].first, ws[i].second);
  }

  // ---------------------------------------------------------------- partitions and VCs

  /** The VC range offered to a packet that is not at its destination. */
  predicate Offered(vc: int, high: bool, begin: int, end: int) {
    var avail := (end - begin + 1) / 2;
    if high then begin + avail <= vc <= end else begin <= vc <= end - avail
  }

  /** The VC alone tells the partition of every packet that may be in it, so that the channel
      order above is an order on (port, VC) pairs, exactly when the class has an even number of
      VCs. */
  lemma VcTellsPartitionIffEven(begin: int, end: int)
    requires end - begin >= 1
    ensures (forall vc, high :: Offered(vc, high, begin, end) ==> (high <==> !MeshRouting.LowerHalf(vc, begin, end)))
            <==> (end - begin + 1) % 2 == 0
  {
    var avail := (end - begin + 1) / 2;
    if (end - begin + 1) % 2 != 0 {
      assert Offered(end - avail, false, begin, end) && !MeshRouting.LowerHalf(end - avail, begin, end);
    }
  }

  /** An even class is split in two whole halves, one for each partition. */
  lemma EvenClassIsHalved(begin: int, end: int, vc: int, high: bool)
    requires end - begin >= 1 && (end - begin + 1) % 2 == 0
    ensures Offered(vc, high, begin, end) <==>
      begin <= vc <= end && (high <==> !MeshRouting.LowerHalf(vc, begin, end))
  {
    var avail := (end - begin + 1) / 2;
    assert avail + avail == end - begin + 1;
  }

  // ---------------------------------------------------------------- the port computation

  /** The source's computation on router numbers. `ph` is the packet's partition, unchanged
      unless the packet starts along a new ring. */
  method DorNextTorus(k: nat, n: nat, cur0: nat, dest0: nat, inPort: nat, ph: bool, balance: bool, coins: Coins)
    returns (port: nat, ph': bool)
    requires k > 0 && cur0 < Pow(k, n) && dest0 < Pow(k, n)
    ensures Coords(k, CoordsOf(k, cur0, n)) && Coords(k, CoordsOf(k, dest0, n))
    ensures Decision(port, ph') ==
        Decide(k, Packet(CoordsOf(k, cur0, n), inPort, ph), CoordsOf(k, dest0, n), balance, coins)
  {
    ghost var x, y := CoordsOf(k, cur0, n), CoordsOf(k, dest0, n);
    NumberOfCoords(k, cur0, n);
    NumberOfCoords(k, dest0, n);
    CoordsInRange(k, cur0, n);
    CoordsInRange(k, dest0, n);
    var dimLeft, cur, dest := FindDimension(k, n, cur0, dest0, x, y);
    if dimLeft < n {
      if inPort / 2 != dimLeft {
        cur := cur % k;
        dest := dest % k;
        Arith.RemainderIs(dest - cur + k, k);
        var dist2 := k - 2 * ((dest - cur + k) % k);
        var up := dist2 > 0 || (dist2 == 0 && coins.up);
        port := if up then 2 * dimLeft else 2 * dimLeft + 1;
        if balance {
          if (up && cur > dest) || (!up && cur < dest) {
            ph' := true;
          } else if (up && cur <= (k - 1) / 2 && dest > (k - 1) / 2)
              || (!up && cur > (k - 1) / 2 && dest <= (k - 1) / 2) {
            ph' := false;
          } else {
            ph' := coins.high;
          }
        } else {
          ph' := (up && cur > dest) || (!up && dest < cur);
        }
      } else {
        port, ph' := Flip(inPort), ph;
      }
    } else {
      port, ph' := 2 * n, ph;
    }
  }

  /** Strips equal low digits. */
  method FindDimension(k: nat, n: nat, cur0: nat, dest0: nat, ghost x: seq<nat>, ghost y: seq<nat>)
    returns (dimLeft: nat, cur: nat, dest: nat)
    requires k > 0 && |x| == |y| == n && Coords(k, x) && Coords(k, y)
    requires cur0 == Number(k, x) && dest0 == Number(k, y)
    ensures dimLeft <= n && (dimLeft == n <==> x == y)
    ensures x != y ==> dimLeft == MeshRouting.FirstDiff(x, y) && cur % k == x[dimLeft] && dest % k == y[dimLeft]
  {
    cur, dest := cur0, dest0;
    dimLeft := 0;
    while dimLeft < n
      invariant dimLeft <= n && x[..dimLeft] == y[..dimLeft]
      invariant cur == Number(k, x[dimLeft..]) && dest == Number(k, y[dimLeft..])
      decreases n - dimLeft
    {
      MeshRouting.LowDigit(k, x, dimLeft);
      MeshRouting.LowDigit(k, y, dimLeft);
      if cur % k != dest % k {
        break;
      }
      assert x[..dimLeft + 1] == x[..dimLeft] + [x[dimLeft]] && y[..dimLeft + 1] == y[..dimLeft] + [y[dimLeft]];
      cur := cur / k;
      dest := dest / k;
      dimLeft := dimLeft + 1;
    }
    if dimLeft < n {
      assert forall i :: 0 <= i < dimLeft ==> x[i] == x[..dimLeft][i] == y[..dimLeft][i] == y[i];
    } else {
      assert x == x[..n] && y == y[..n];
    }
  }
}
