/** How the routers of a k-ary n-cube are wired, in router numbers, and what routes do on them. */
module Wiring {
  import opened Digits
  import MeshRouting
  import TorusRouting

  /** The router at the other end of output port p: one step up or down in dimension p/2, round the
      ring at its end. */
  function NodeBeyond(k: nat, node: int, p: nat): int
    requires k > 0 && Pow(k, p / 2) > 0
  {
    var kToDim := Pow(k, p / 2);
    var locInDim := node / kToDim % k;
    if p % 2 == 0 then
      if locInDim == k - 1 then node - (k - 1) * kToDim else node + kToDim
    else
      if locInDim == 0 then node + (k - 1) * kToDim else node - kToDim
  }

  /** It is the router whose coordinates differ by that step. */
  lemma NodeBeyondIs(k: nat, x: seq<nat>, p: nat)
    requires k > 0 && Coords(k, x) && p < 2 * |x|
    ensures Pow(k, p / 2) > 0
    ensures NodeBeyond(k, Number(k, x), p) == Number(k, x[p / 2 := TorusRouting.NextOnRing(k, p % 2 == 0, x[p / 2])])
  {
    var d := p / 2;
    var v := TorusRouting.NextOnRing(k, p % 2 == 0, x[d]);
    DigitAt(k, x, d);
    StepInDimension(k, x, d, v);
    StepsBeyond(k, Number(k, x), p, x[d]);
    Scaled(Pow(k, d), x[d], v);
  }

  lemma StepsBeyond(k: nat, node: int, p: nat, loc: nat)
    requires loc < k && Pow(k, p / 2) > 0 && node / Pow(k, p / 2) % k == loc
    ensures NodeBeyond(k, node, p) == node + (TorusRouting.NextOnRing(k, p % 2 == 0, loc) - loc) * Pow(k, p / 2)
  {
  }

  lemma Scaled(w: nat, a: nat, b: nat)
    ensures w * b - w * a == (b - a) * w
  {
  }

  /** Every link has one back: what leaves on port p arrives at the port that leads back, p^1. */
  lemma LinksArePaired(k: nat, node: nat, n: nat, p: nat)
    requires k > 0 && node < Pow(k, n) && p < 2 * n
    ensures Pow(k, p / 2) > 0 && Pow(k, TorusRouting.Flip(p) / 2) > 0
    ensures NodeBeyond(k, NodeBeyond(k, node, p), TorusRouting.Flip(p)) == node
  {
    var x := CoordsOf(k, node, n);
    NumberOfCoords(k, node, n);
    CoordsInRange(k, node, n);
    var q := TorusRouting.Flip(p);
    assert q / 2 == p / 2 && (q % 2 == 0 <==> p % 2 == 1);
    var z := x[p / 2 := TorusRouting.NextOnRing(k, p % 2 == 0, x[p / 2])];
    NodeBeyondIs(k, x, p);
    NodeBeyondIs(k, z, q);
    assert z[q / 2 := TorusRouting.NextOnRing(k, q % 2 == 0, z[q / 2])] == x;
  }

  // ---------------------------------------------------------------- following ports

  predicate PortsOk(k: nat, n: nat, ports: seq<nat>) {
    k > 0 && forall i :: 0 <= i < |ports| ==> ports[i] < 2 * n && Pow(k, ports[i] / 2) > 0
  }

  /** Where the wires lead from a router over the given output ports. */
  function Follow(k: nat, n: nat, node: int, ports: seq<nat>): int
    requires PortsOk(k, n, ports)
    decreases |ports|
  {
    if ports == [] then node else Follow(k, n, NodeBeyond(k, node, ports[0]), ports[1..])
  }

  lemma PortsFit(k: nat, n: nat, ports: seq<nat>)
    requires k > 0 && forall i :: 0 <= i < |ports| ==> ports[i] < 2 * n
    ensures PortsOk(k, n, ports)
  {
    forall i | 0 <= i < |ports| ensures Pow(k, ports[i] / 2) > 0 {
      PowPositive(k, ports[i] / 2);
    }
  }

  /** Walking on router numbers is walking on coordinates. */
  lemma {:induction false} FollowIsWalk(k: nat, x: seq<nat>, ports: seq<nat>)
    requires Coords(k, x) && PortsOk(k, |x|, ports)
    ensures Follow(k, |x|, Number(k, x), ports) == Number(k, TorusRouting.Walk(k, x, ports))
    decreases |ports|
  {
    if ports != [] {
      NodeBeyondIs(k, x, ports[0]);
      FollowIsWalk(k, x[ports[0] / 2 := TorusRouting.NextOnRing(k, ports[0] % 2 == 0, x[ports[0] / 2])], ports[1..]);
    }
  }

  /** On a torus the wires of any packet's route lead from its source's number to its
      destination's. */
  lemma TorusRouteArrives(k: nat, n: nat, cur: nat, dest: nat, high: bool, balance: bool,
      draw: seq<nat> -> TorusRouting.Coins)
    requires k > 0 && cur < Pow(k, n) && dest < Pow(k, n)
    ensures var p := TorusRouting.Packet(CoordsOf(k, cur, n), 2 * n, high);
      && TorusRouting.OnTrack(k, p, CoordsOf(k, dest, n), balance)
      && var ports := TorusRouting.Ports(TorusRouting.Route(k, p, CoordsOf(k, dest, n), balance, draw));
      && PortsOk(k, n, ports) && Follow(k, n, cur, ports) == dest
  {
    var x, y := CoordsOf(k, cur, n), CoordsOf(k, dest, n);
    var p := TorusRouting.Packet(x, 2 * n, high);
    NumberOfCoords(k, cur, n);
    NumberOfCoords(k, dest, n);
    CoordsInRange(k, cur, n);
    CoordsInRange(k, dest, n);
    TorusRouting.RouteArrives(k, p, y, balance, draw);
    var ports := TorusRouting.Ports(TorusRouting.Route(k, p, y, balance, draw));
    PortsFit(k, n, ports);
    FollowIsWalk(k, x, ports);
  }

  function MeshPorts(r: seq<MeshRouting.Channel>): (s: seq<nat>)
    ensures |s| == |r| && forall i :: 0 <= i < |r| ==> s[i] == r[i].port
  {
    if r == [] then [] else [r[0].port] + MeshPorts(r[1..])
  }

  /** On a mesh a route never uses the wires that go round. */
  lemma {:induction false} MeshRouteWalks(k: nat, x: seq<nat>, y: seq<nat>, descending: bool)
    requires |x| == |y| && Coords(k, x) && Coords(k, y)
    ensures var ports := MeshPorts(MeshRouting.Route(k, x, y, descending));
      && (forall i :: 0 <= i < |ports| ==> ports[i] < 2 * |x|)
      && TorusRouting.Walk(k, x, ports) == y
    decreases MeshRouting.Distance(x, y)
  {
    MeshRouting.RouteIsMinimal(k, x, y, descending);
    if x != y {
      MeshRouting.RouteSteps(k, x, y, descending);
      MeshRouting.HopProgress(k, x, y, descending);
      var p := MeshRouting.NextPort(x, y, descending);
      var z := MeshRouting.Neighbor(x, p);
      var r := MeshRouting.Route(k, x, y, descending);
      MeshRouteWalks(k, z, y, descending);
      assert z[p / 2] < k && z == x[p / 2 := TorusRouting.NextOnRing(k, p % 2 == 0, x[p / 2])];
      assert MeshPorts(r)[1..] == MeshPorts(r[1..]);
    }
  }

  /** On a mesh the wires of a route lead from its source's number to its destination's. */
  lemma MeshRouteArrives(k: nat, n: nat, cur: nat, dest: nat, descending: bool)
    requires k > 0 && cur < Pow(k, n) && dest < Pow(k, n)
    ensures Coords(k, CoordsOf(k, cur, n)) && Coords(k, CoordsOf(k, dest, n))
    ensures var ports := MeshPorts(MeshRouting.Route(k, CoordsOf(k, cur, n), CoordsOf(k, dest, n), descending));
      PortsOk(k, n, ports) && Follow(k, n, cur, ports) == dest
  {
    var x, y := CoordsOf(k, cur, n), CoordsOf(k, dest, n);
    NumberOfCoords(k, cur, n);
    NumberOfCoords(k, dest, n);
    CoordsInRange(k, cur, n);
    CoordsInRange(k, dest, n);
    MeshRouteWalks(k, x, y, descending);
    var ports := MeshPorts(MeshRouting.Route(k, x, y, descending));
    PortsFit(k, n, ports);
    FollowIsWalk(k, x, ports);
  }
}
