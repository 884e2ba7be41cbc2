/** One link under credit-based flow control: a packet source with its book on the far buffer, a
    channel each way, and the router's input buffer. The channels deliver in order after any
    delay. `None` stands for every call of Error and every failed assertion at either end. */
module CreditLoop {
  import opened Option
  import opened Sums
  import opened CreditBook
  import Arith

  // ---------------------------------------------------------------- state

  /** `vc` is -1 until the source has chosen one. */
  datatype Flit = Flit(pid: nat, head: bool, tail: bool, vc: int)

  /** A VC of the input buffer; `expected` is the packet it must receive next, or -1. */
  datatype Queue = Queue(flits: seq<Flit>, expected: int)

  /** `partial` is what the source still has to send, `gathered` the credit being put together at
      the router in this cycle. */
  datatype Link = Link(book: Book, partial: seq<Flit>, lastVc: int, forward: seq<Flit>,
                       down: seq<Queue>, buffered: int, gathered: set<nat>, credits: seq<set<nat>>)

  datatype Step =
    | Generate(pid: nat, size: nat)
    | Inject(start: nat, end: nat, blocked: set<nat>)
    | Arrive
    | Drain(vc: nat)
    | SendCredit
    | Return

  function InitialLink(c: Config): Link {
    Link(InitialBook(c), [], -1, [], seq(c.vcs, _ => Queue([], -1)), 0, {}, [])
  }

  // ---------------------------------------------------------------- the source

  /** The flits of a new packet from position i on. */
  function Packet(pid: nat, size: nat, i: nat): seq<Flit>
    requires i <= size
    decreases size - i
  {
    if i == size then [] else [Flit(pid, i == 0, i == size - 1, -1)] + Packet(pid, size, i + 1)
  }

  /** Whether the policy refuses the VC; `blocked` are the VCs refused by a limit kept outside
      the book. */
  predicate Refused(c: Config, b: Book, v: nat, blocked: set<nat>)
    requires Shaped(c, b) && v < c.vcs
  {
    IsFullFor(c, b, v) || v in blocked
  }

  /** The VC tried at attempt i. */
  function Attempt(last: int, start: nat, end: nat, i: nat): (v: nat)
    requires start <= end
    ensures start <= v <= end
  {
    if last < start || last > end then start else start + Arith.Remainder(last - start + i, end - start + 1)
  }

  /** Round-robin search for a VC that is free and not full; -1 if every attempt fails. */
  function Search(c: Config, b: Book, last: int, start: nat, end: nat, blocked: set<nat>, i: nat): (v: int)
    requires Shaped(c, b) && start <= end < c.vcs && i <= end - start + 2
    ensures v == -1 || (start <= v <= end && !b.inUse[v] && !Refused(c, b, v, blocked))
    decreases end - start + 2 - i
  {
    if i > end - start + 1 then -1
    else
      var v := Attempt(last, start, end, i);
      if !b.inUse[v] && !Refused(c, b, v, blocked) then v else Search(c, b, last, start, end, blocked, i + 1)
  }

  /** Passes the VC on to the next flit of the same packet. */
  function PassVc(rest: seq<Flit>, f: Flit): (r: seq<Flit>)
    ensures |r| == |rest|
  {
    if rest != [] && !f.tail then rest[0 := rest[0].(vc := f.vc)] else rest
  }

  function SendFront(c: Config, l: Link, v: nat): (r: Option<Link>)
    requires Shaped(c, l.book) && v < c.vcs && l.partial != []
  {
    var f := l.partial[0].(vc := v);
    var taken := if f.head then TakeBuffer(c, l.book, v) else Some(l.book);
    if taken.None? then None
    else
      var sent := SendingFlit(c, taken.value, v, f.tail);
      if sent.None? then None
      else Some(l.(book := sent.value, partial := PassVc(l.partial[1..], f), forward := l.forward + [f],
                   lastVc := if f.head then v else l.lastVc))
  }

  function TryInject(c: Config, l: Link, start: nat, end: nat, blocked: set<nat>): (r: Option<Link>)
    requires Shaped(c, l.book) && start <= end < c.vcs
    requires l.partial != [] && !l.partial[0].head ==> 0 <= l.partial[0].vc < c.vcs
    requires l.partial != [] && l.partial[0].head ==> l.partial[0].vc == -1
  {
    if l.partial == [] then Some(l)
    else
      var f := l.partial[0];
      var v := if f.head then Search(c, l.book, l.lastVc, start, end, blocked, 1) else f.vc;
      if v == -1 || Refused(c, l.book, v, blocked) then Some(l)
      else SendFront(c, l, v)
  }

  // ---------------------------------------------------------------- the router's input buffer

  /** The packet expected after flit f, or None if f belongs to another packet than the one
      under way. */
  function Accept(expected: int, f: Flit): Option<int> {
    if expected >= 0 then
      if f.pid != expected then None else Some(if f.tail then -1 else expected)
    else Some(if f.tail then expected else f.pid)
  }

  function AddFlit(c: Config, l: Link, v: nat, f: Flit): Option<Link>
    requires v < |l.down|
  {
    if l.buffered >= c.size then None
    else
      var e := Accept(l.down[v].expected, f);
      if e.None? then None
      else Some(l.(buffered := l.buffered + 1, down := l.down[v := Queue(l.down[v].flits + [f], e.value)]))
  }

  function RemoveFlit(l: Link, v: nat): Option<Link>
    requires v < |l.down|
  {
    if l.down[v].flits == [] then None
    else Some(l.(buffered := l.buffered - 1, down := l.down[v := l.down[v].(flits := l.down[v].flits[1..])]))
  }

  // ---------------------------------------------------------------- steps

  /** The members of a credit below n, in ascending order. */
  function Ordered(s: set<nat>, n: nat): (r: seq<nat>)
    ensures forall i :: 0 <= i < |r| ==> r[i] < n && r[i] in s
    ensures forall i, j :: 0 <= i < j < |r| ==> r[i] < r[j]
    ensures forall v :: v in s && v < n ==> v in r
  {
    if n == 0 then [] else Ordered(s, n - 1) + (if n - 1 in s then [n - 1] else [])
  }

  /** When a step can be taken. A router puts at most one flit of a VC into one credit. */
  predicate Enabled(c: Config, l: Link, s: Step) {
    match s
    case Generate(_, _) => true
    case Inject(start, end, _) => start <= end < c.vcs
    case Arrive => l.forward != []
    case Drain(v) => v < |l.down| && l.down[v].flits != [] && v !in l.gathered
    case SendCredit => l.gathered != {}
    case Return => l.credits != []
  }

  function Do(c: Config, l: Link, s: Step): (r: Option<Link>)
    requires Structured(c, l) && Enabled(c, l, s)
  {
    match s
    case Generate(pid, size) => Some(l.(partial := l.partial + Packet(pid, size, 0)))
    case Inject(start, end, blocked) => TryInject(c, l, start, end, blocked)
    case Arrive => AddFlit(c, l.(forward := l.forward[1..]), l.forward[0].vc, l.forward[0])
    case Drain(v) =>
      var r := RemoveFlit(l, v);
      if r.None? then None else Some(r.value.(gathered := l.gathered + {v}))
    case SendCredit => Some(l.(gathered := {}, credits := l.credits + [l.gathered]))
    case Return =>
      var r := ProcessCredit(c, l.book, Ordered(l.credits[0], c.vcs));
      if r.None? then None else Some(l.(book := r.value, credits := l.credits[1..]))
  }

  function Run(c: Config, l: Link, steps: seq<Step>): Option<Link>
    requires Structured(c, l)
    decreases |steps|
  {
    if steps == [] then Some(l)
    else if !Enabled(c, l, steps[0]) then Run(c, l, steps[1..])
    else
      var r := Do(c, l, steps[0]);
      if r.None? || !Structured(c, r.value) then None else Run(c, r.value, steps[1..])
  }

  // ---------------------------------------------------------------- the invariant

  predicate Structured(c: Config, l: Link) {
    && Shaped(c, l.book) && |l.down| == c.vcs
    && (forall i :: 0 <= i < |l.forward| ==> 0 <= l.forward[i].vc < c.vcs)
    && (l.partial != [] && !l.partial[0].head ==> 0 <= l.partial[0].vc < c.vcs)
    && (l.partial != [] && l.partial[0].head ==> l.partial[0].vc == -1)
  }

  /** Whole packets in a row, the first possibly begun: `pid` is the packet under way, or -1. */
  predicate Packets(p: seq<Flit>, pid: int) {
    if p == [] then pid == -1
    else
      && (if pid == -1 then p[0].head else !p[0].head && p[0].pid == pid)
      && Packets(p[1..], if p[0].tail then -1 else p[0].pid)
  }

  /** The packet under way at the source, and the VC it holds. */
  function UnderWay(l: Link): int {
    if l.partial != [] && !l.partial[0].head then l.partial[0].pid else -1
  }

  function Open(l: Link): set<nat> {
    if l.partial != [] && !l.partial[0].head && l.partial[0].vc >= 0 then {l.partial[0].vc} else {}
  }

  predicate SourceOk(c: Config, l: Link) {
    && Packets(l.partial, UnderWay(l))
    && (forall i :: 0 < i < |l.partial| ==> l.partial[i].vc == -1)
  }

  function InFlight(forward: seq<Flit>, v: nat): nat {
    if forward == [] then 0 else (if forward[0].vc == v then 1 else 0) + InFlight(forward[1..], v)
  }

  function Owed(credits: seq<set<nat>>, v: nat): nat {
    if credits == [] then 0 else (if v in credits[0] then 1 else 0) + Owed(credits[1..], v)
  }

  /** What the input buffer will expect once all flits in flight for VC v have arrived. */
  function Expects(expected: int, forward: seq<Flit>, v: nat): Option<int>
    decreases |forward|
  {
    if forward == [] then Some(expected)
    else if forward[0].vc != v then Expects(expected, forward[1..], v)
    else
      var e := Accept(expected, forward[0]);
      if e.None? then None else Expects(e.value, forward[1..], v)
  }

  /** Everything the sender counts as outstanding on a VC is a flit on its way, a flit in the
      buffer, or a credit on its way back. */
  predicate Conserved(l: Link, v: nat)
    requires v < |l.book.vcOccupancy| && v < |l.down|
  {
    l.book.vcOccupancy[v] == InFlight(l.forward, v) + |l.down[v].flits| + Owed(l.credits + [l.gathered], v)
  }

  /** The flits on their way continue the packet the buffer is receiving, and lead up to the one
      the source is sending. */
  predicate Contiguous(l: Link, v: nat)
    requires v < |l.down|
  {
    Expects(l.down[v].expected, l.forward, v) == Some(if v in Open(l) then UnderWay(l) else -1)
  }

  function Lengths(down: seq<Queue>): (a: seq<int>)
    ensures |a| == |down| && forall v :: 0 <= v < |a| ==> a[v] == |down[v].flits|
  {
    seq(|down|, v requires 0 <= v < |down| => |down[v].flits|)
  }

  predicate LinkInv(c: Config, l: Link) {
    && Structured(c, l) && SourceOk(c, l) && Inv(c, l.book, Open(l))
    && (forall v :: 0 <= v < c.vcs && l.book.inUse[v] && !l.book.tailSent[v] ==> v in Open(l))
    && (forall v :: 0 <= v < c.vcs ==> Conserved(l, v))
    && (forall v :: 0 <= v < c.vcs ==> Contiguous(l, v))
    && l.buffered == Sum(Lengths(l.down))
  }

  // ---------------------------------------------------------------- counting lemmas

  lemma {:induction false} InFlightAppend(forward: seq<Flit>, f: Flit, v: nat)
    ensures InFlight(forward + [f], v) == InFlight(forward, v) + (if f.vc == v then 1 else 0)
  {
    if forward == [] {
      assert [] + [f] == [f];
    } else {
      InFlightAppend(forward[1..], f, v);
      assert (forward + [f])[1..] == forward[1..] + [f];
    }
  }

  lemma {:induction false} ExpectsAppend(expected: int, forward: seq<Flit>, f: Flit, v: nat)
    ensures var e := Expects(expected, forward, v);
      Expects(expected, forward + [f], v) == if e.None? || f.vc != v then e else Accept(e.value, f)
    decreases |forward|
  {
    if forward == [] {
      assert [] + [f] == [f];
      assert [f][1..] == [];
    } else {
      assert (forward + [f])[1..] == forward[1..] + [f];
      if forward[0].vc != v {
        ExpectsAppend(expected, forward[1..], f, v);
      } else if Accept(expected, forward[0]).Some? {
        ExpectsAppend(Accept(expected, forward[0]).value, forward[1..], f, v);
      }
    }
  }

  lemma {:induction false} OwedAppend(credits: seq<set<nat>>, s: set<nat>, v: nat)
    ensures Owed(credits + [s], v) == Owed(credits, v) + (if v in s then 1 else 0)
  {
    if credits == [] {
      assert [] + [s] == [s];
    } else {
      OwedAppend(credits[1..], s, v);
      assert (credits + [s])[1..] == credits[1..] + [s];
    }
  }

  lemma {:induction false} PacketsAppend(p: seq<Flit>, pid: int, q: seq<Flit>)
    requires Packets(p, pid) && Packets(q, -1)
    ensures Packets(p + q, pid)
  {
    if p == [] {
      assert [] + q == q;
    } else {
      PacketsAppend(p[1..], if p[0].tail then -1 else p[0].pid, q);
      assert (p + q)[1..] == p[1..] + q;
    }
  }

  lemma {:induction false} PacketIsWhole(pid: nat, size: nat, i: nat)
    requires i <= size
    ensures Packets(Packet(pid, size, i), if i == 0 || i == size then -1 else pid)
    ensures forall j :: 0 <= j < |Packet(pid, size, i)| ==> Packet(pid, size, i)[j].vc == -1
    ensures i == 0 < size ==> Packet(pid, size, i)[0].head
    decreases size - i
  {
    if i < size {
      PacketIsWhole(pid, size, i + 1);
      assert Packet(pid, size, i)[1..] == Packet(pid, size, i + 1);
    }
  }

  // ---------------------------------------------------------------- every step keeps the invariant

  lemma InitialLinkInv(c: Config)
    requires ValidConfig(c)
    ensures LinkInv(c, InitialLink(c))
  {
    InitialInv(c);
    var l := InitialLink(c);
    SumZeros(c.vcs);
    assert Lengths(l.down) == seq(c.vcs, _ => 0);
    assert l.credits + [l.gathered] == [{}];
    forall v | 0 <= v < c.vcs ensures Conserved(l, v) {
      assert Owed([{}], v) == 0;
    }
  }

  lemma GenerateKeeps(c: Config, l: Link, pid: nat, size: nat)
    requires LinkInv(c, l)
    ensures LinkInv(c, l.(partial := l.partial + Packet(pid, size, 0)))
  {
    PacketIsWhole(pid, size, 0);
    var p := Packet(pid, size, 0);
    var l' := l.(partial := l.partial + p);
    PacketsAppend(l.partial, UnderWay(l), p);
    if l.partial != [] {
      assert l'.partial[0] == l.partial[0];
    } else if p != [] {
      assert l'.partial[0] == p[0];
    }
    assert Open(l') == Open(l) && UnderWay(l') == UnderWay(l);
    forall v | 0 <= v < c.vcs ensures Conserved(l', v) && Contiguous(l', v) {
      assert Conserved(l, v) && Contiguous(l, v);
    }
  }

  /** Sending the front flit over a VC that is free for its head, or its packet's own. */
  lemma SendFrontKeeps(c: Config, l: Link, v: nat)
    requires ValidConfig(c) && LinkInv(c, l) && v < c.vcs && l.partial != [] && !OutOfSlots(c, l.book, v)
    requires if l.partial[0].head then !l.book.inUse[v] else l.partial[0].vc == v
    ensures SendFront(c, l, v).Some? && LinkInv(c, SendFront(c, l, v).value)
  {
    SendFrontBook(c, l, v);
    SendFrontSource(c, l, v);
    SendFrontStream(c, l, v);
  }

  /** ... the book's side of it. */
  lemma SendFrontBook(c: Config, l: Link, v: nat)
    requires ValidConfig(c) && LinkInv(c, l) && v < c.vcs && l.partial != [] && !OutOfSlots(c, l.book, v)
    requires if l.partial[0].head then !l.book.inUse[v] else l.partial[0].vc == v
    ensures var r := SendFront(c, l, v);
      && r.Some?
      && Inv(c, r.value.book, if l.partial[0].tail then {} else {v})
      && r.value.book.vcOccupancy == l.book.vcOccupancy[v := l.book.vcOccupancy[v] + 1]
      && (forall w :: 0 <= w < c.vcs && r.value.book.inUse[w] && !r.value.book.tailSent[w] ==>
          w == v && !l.partial[0].tail)
  {
    var f := l.partial[0];
    var open := Open(l);
    var b := l.book;
    if f.head {
      TakeKeeps(c, l.book, open, v);
      b := TakeBuffer(c, l.book, v).value;
    }
    SendKeeps(c, b, open, v, f.tail);
    assert (if f.tail then open - {v} else open + {v}) == (if f.tail then {} else {v});
  }

  lemma SendFrontSource(c: Config, l: Link, v: nat)
    requires Structured(c, l) && SourceOk(c, l) && v < c.vcs && l.partial != [] && SendFront(c, l, v).Some?
    ensures var r := SendFront(c, l, v).value;
      && Structured(c, r) && SourceOk(c, r)
      && Open(r) == (if l.partial[0].tail then {} else {v})
      && UnderWay(r) == (if l.partial[0].tail then -1 else l.partial[0].pid)
  {
    var f := l.partial[0];
    assert Packets(l.partial[1..], if f.tail then -1 else f.pid);
    PassVcKeeps(l.partial[1..], f.(vc := v), if f.tail then -1 else f.pid);
  }

  lemma PassVcKeeps(rest: seq<Flit>, f: Flit, pid: int)
    requires Packets(rest, pid) && f.vc >= 0 && pid == (if f.tail then -1 else f.pid)
    requires forall i :: 0 <= i < |rest| ==> rest[i].vc == -1
    ensures var p := PassVc(rest, f);
      && Packets(p, pid)
      && (forall i :: 0 < i < |p| ==> p[i].vc == -1)
      && (f.tail && p != [] ==> p[0].head && p[0].vc == -1)
      && (!f.tail ==> p != [] && !p[0].head && p[0].pid == f.pid && p[0].vc == f.vc)
  {
    if rest != [] {
      assert PassVc(rest, f)[1..] == rest[1..];
    }
  }

  /** ... the channel's side of it. */
  lemma SendFrontStream(c: Config, l: Link, v: nat)
    requires ValidConfig(c) && LinkInv(c, l) && v < c.vcs && l.partial != [] && !OutOfSlots(c, l.book, v)
    requires if l.partial[0].head then !l.book.inUse[v] else l.partial[0].vc == v
    requires var r := SendFront(c, l, v);
      && r.Some? && Structured(c, r.value)
      && Open(r.value) == (if l.partial[0].tail then {} else {v})
      && UnderWay(r.value) == (if l.partial[0].tail then -1 else l.partial[0].pid)
      && r.value.book.vcOccupancy == l.book.vcOccupancy[v := l.book.vcOccupancy[v] + 1]
    ensures forall w :: 0 <= w < c.vcs ==>
        Conserved(SendFront(c, l, v).value, w) && Contiguous(SendFront(c, l, v).value, w)
  {
    var f := l.partial[0].(vc := v);
    var r := SendFront(c, l, v).value;
    assert r.forward == l.forward + [f] && r.down == l.down && r.credits == l.credits && r.gathered == l.gathered;
    forall w | 0 <= w < c.vcs ensures Conserved(r, w) && Contiguous(r, w) {
      assert Conserved(l, w) && Contiguous(l, w);
      InFlightAppend(l.forward, f, w);
      ExpectsAppend(l.down[w].expected, l.forward, f, w);
    }
  }

  lemma InjectKeeps(c: Config, l: Link, start: nat, end: nat, blocked: set<nat>)
    requires ValidConfig(c) && LinkInv(c, l) && start <= end < c.vcs
    ensures TryInject(c, l, start, end, blocked).Some? && LinkInv(c, TryInject(c, l, start, end, blocked).value)
  {
    if l.partial != [] {
      var f := l.partial[0];
      var v := if f.head then Search(c, l.book, l.lastVc, start, end, blocked, 1) else f.vc;
      if v != -1 && !Refused(c, l.book, v, blocked) {
        SendFrontKeeps(c, l, v);
      }
    }
  }

  /** A flit that arrives finds room and belongs to the packet its VC is receiving. */
  lemma ArriveKeeps(c: Config, l: Link)
    requires ValidConfig(c) && LinkInv(c, l) && l.forward != []
    ensures Do(c, l, Arrive).Some? && LinkInv(c, Do(c, l, Arrive).value)
  {
    var f := l.forward[0];
    var v := f.vc;
    assert Conserved(l, v) && Contiguous(l, v);
    RoomToArrive(c, l, v);
    var r := Do(c, l, Arrive).value;
    SumUpdate(Lengths(l.down), v, |l.down[v].flits| + 1);
    assert Lengths(r.down) == Lengths(l.down)[v := |l.down[v].flits| + 1];
    forall w | 0 <= w < c.vcs ensures Conserved(r, w) && Contiguous(r, w) {
      assert Conserved(l, w) && Contiguous(l, w);
    }
  }

  lemma RoomToArrive(c: Config, l: Link, v: nat)
    requires ValidConfig(c) && LinkInv(c, l) && v < c.vcs && InFlight(l.forward, v) > 0
    ensures l.buffered < c.size
  {
    var a := Lengths(l.down);
    var a' := a[v := a[v] + 1];
    SumUpdate(a, v, a[v] + 1);
    forall w | 0 <= w < c.vcs ensures a'[w] <= l.book.vcOccupancy[w] {
      assert Conserved(l, w);
    }
    SumMonotone(a', l.book.vcOccupancy);
    WithinSize(c, l.book, Open(l));
  }

  lemma DrainKeeps(c: Config, l: Link, v: nat)
    requires LinkInv(c, l) && Enabled(c, l, Drain(v))
    ensures Do(c, l, Drain(v)).Some? && LinkInv(c, Do(c, l, Drain(v)).value)
  {
    var r := Do(c, l, Drain(v)).value;
    SumUpdate(Lengths(l.down), v, |l.down[v].flits| - 1);
    assert Lengths(r.down) == Lengths(l.down)[v := |l.down[v].flits| - 1];
    forall w | 0 <= w < c.vcs ensures Conserved(r, w) && Contiguous(r, w) {
      assert Conserved(l, w) && Contiguous(l, w);
      OwedAppend(l.credits, l.gathered, w);
      OwedAppend(l.credits, l.gathered + {v}, w);
    }
  }

  lemma SendCreditKeeps(c: Config, l: Link)
    requires LinkInv(c, l)
    ensures LinkInv(c, l.(gathered := {}, credits := l.credits + [l.gathered]))
  {
    var r := l.(gathered := {}, credits := l.credits + [l.gathered]);
    forall w | 0 <= w < c.vcs ensures Conserved(r, w) && Contiguous(r, w) {
      assert Conserved(l, w) && Contiguous(l, w);
      OwedAppend(r.credits, {}, w);
    }
  }

  /** A returning credit is for flits the sender has outstanding. */
  lemma ReturnKeeps(c: Config, l: Link)
    requires ValidConfig(c) && LinkInv(c, l) && l.credits != []
    ensures Do(c, l, Return).Some? && LinkInv(c, Do(c, l, Return).value)
  {
    ReturnBook(c, l);
    var r := Do(c, l, Return).value;
    forall w | 0 <= w < c.vcs ensures Conserved(r, w) && Contiguous(r, w) {
      assert Conserved(l, w) && Contiguous(l, w);
      OwedFirst(l, w);
    }
  }

  lemma OwedFirst(l: Link, w: nat)
    requires l.credits != []
    ensures Owed(l.credits + [l.gathered], w) ==
        (if w in l.credits[0] then 1 else 0) + Owed(l.credits[1..] + [l.gathered], w)
  {
    var all := l.credits + [l.gathered];
    assert all[0] == l.credits[0] && all[1..] == l.credits[1..] + [l.gathered];
  }

  lemma ReturnBook(c: Config, l: Link)
    requires ValidConfig(c) && LinkInv(c, l) && l.credits != []
    ensures var r := ProcessCredit(c, l.book, Ordered(l.credits[0], c.vcs));
      && r.Some? && Inv(c, r.value, Open(l))
      && (forall w :: 0 <= w < c.vcs ==>
          r.value.vcOccupancy[w] == l.book.vcOccupancy[w] - (if w in l.credits[0] then 1 else 0))
      && (forall w :: 0 <= w < c.vcs && r.value.inUse[w] && !r.value.tailSent[w] ==> w in Open(l))
  {
    var credit := Ordered(l.credits[0], c.vcs);
    forall i | 0 <= i < |credit| ensures l.book.vcOccupancy[credit[i]] > 0 {
      assert Conserved(l, credit[i]);
      OwedFirst(l, credit[i]);
    }
    CreditsKeep(c, l.book, Open(l), credit);
  }

  lemma StepKeeps(c: Config, l: Link, s: Step)
    requires ValidConfig(c) && LinkInv(c, l) && Enabled(c, l, s)
    ensures Do(c, l, s).Some? && LinkInv(c, Do(c, l, s).value)
  {
    match s
    case Generate(pid, size) => GenerateKeeps(c, l, pid, size);
    case Inject(start, end, blocked) => InjectKeeps(c, l, start, end, blocked);
    case Arrive => ArriveKeeps(c, l);
    case Drain(v) => DrainKeeps(c, l, v);
    case SendCredit => SendCreditKeeps(c, l);
    case Return => ReturnKeeps(c, l);
  }

  /** Credit-loop safety: under every policy, in every interleaving of any length, no error is
      raised at either end and every counter balances. */
  lemma {:induction false} EveryRunConserves(c: Config, l: Link, steps: seq<Step>)
    requires ValidConfig(c) && LinkInv(c, l)
    ensures Run(c, l, steps).Some? && LinkInv(c, Run(c, l, steps).value)
    decreases |steps|
  {
    if steps != [] {
      if Enabled(c, l, steps[0]) {
        StepKeeps(c, l, steps[0]);
        EveryRunConserves(c, Do(c, l, steps[0]).value, steps[1..]);
      } else {
        EveryRunConserves(c, l, steps[1..]);
      }
    }
  }

  // ---------------------------------------------------------------- progress

  /** Nothing on its way in either direction and nothing buffered. */
  predicate Idle(l: Link) {
    l.forward == [] && l.credits == [] && l.gathered == {} && forall v :: 0 <= v < |l.down| ==> l.down[v].flits == []
  }

  lemma IdleOwesNothing(c: Config, l: Link)
    requires LinkInv(c, l) && Idle(l)
    ensures forall v :: 0 <= v < c.vcs ==> l.book.vcOccupancy[v] == 0
  {
    forall v | 0 <= v < c.vcs ensures l.book.vcOccupancy[v] == 0 {
      assert Conserved(l, v);
      OwedAppend([], {}, v);
      assert l.credits + [l.gathered] == [{}];
    }
  }

  /** With nothing outstanding and no packet under way, every VC is free and nothing is held back
      for any of them. */
  lemma IdleIsFree(c: Config, l: Link, v: nat)
    requires ValidConfig(c) && LinkInv(c, l) && Idle(l) && Open(l) == {} && v < c.vcs
    requires !c.policy.Private? ==> c.privateSize[c.owner[v]] + c.sharedSize > 0
    ensures !l.book.inUse[v] && !IsFullFor(c, l.book, v)
  {
    IdleOwesNothing(c, l);
    var b := l.book;
    forall w | 0 <= w < c.vcs ensures !b.inUse[w] {
      assert VcUsage(c, b, w);
    }
    if !c.policy.Private? {
      forall w | 0 <= w < c.vcs ensures b.reserved[w] == 0 {
        assert VcReserving(b, w, w in Open(l));
      }
      assert Load(b) == seq(c.vcs, _ => 0);
      forall i | 0 <= i < |c.privateSize| ensures b.privateOccupancy[i] == 0 {
        OwnsNothing(c.owner, i);
      }
      assert b.privateOccupancy == seq(|c.privateSize|, _ => 0);
      NoExcess(c.privateSize);
    }
  }

  /** The source never starves: once the link has come to rest, a waiting flit is sent at the
      next attempt, whatever happened before. */
  lemma IdleLinkSends(c: Config, l: Link, start: nat, end: nat)
    requires ValidConfig(c) && LinkInv(c, l) && Idle(l) && l.partial != [] && start <= end < c.vcs
    requires !c.policy.Private? ==> forall v :: start <= v <= end ==> c.privateSize[c.owner[v]] + c.sharedSize > 0
    ensures var r := TryInject(c, l, start, end, {});
      r.Some? && |r.value.forward| == 1 && |r.value.partial| == |l.partial| - 1
  {
    InjectKeeps(c, l, start, end, {});
    var f := l.partial[0];
    if f.head {
      IdleIsFree(c, l, Attempt(l.lastVc, start, end, 1));
      IdleIsFree(c, l, Search(c, l.book, l.lastVc, start, end, {}, 1));
      SendFrontBook(c, l, Search(c, l.book, l.lastVc, start, end, {}, 1));
    } else {
      IdleOwesNothing(c, l);
      NeverLockedOut(c, l.book, Open(l), f.vc);
      SendFrontBook(c, l, f.vc);
    }
  }

  // ---------------------------------------------------------------- the VC search

  predicate Usable(c: Config, b: Book, v: nat, blocked: set<nat>)
    requires Shaped(c, b) && v < c.vcs
  {
    !b.inUse[v] && !Refused(c, b, v, blocked)
  }

  lemma {:induction false} SearchTriesAll(c: Config, b: Book, last: int, start: nat, end: nat, blocked: set<nat>,
      i: nat, j: nat)
    requires Shaped(c, b) && start <= end < c.vcs && i <= j <= end - start + 1
    requires Search(c, b, last, start, end, blocked, i) == -1
    ensures !Usable(c, b, Attempt(last, start, end, j), blocked)
    decreases j - i
  {
    if i < j { SearchTriesAll(c, b, last, start, end, blocked, i + 1, j); }
  }

  lemma AttemptHits(last: nat, start: nat, end: nat, v: nat)
    requires start <= last <= end && start <= v <= end
    ensures var i := if v > last then v - last else v - last + (end - start + 1);
      1 <= i <= end - start + 1 && Attempt(last, start, end, i) == v
  {
    var n := end - start + 1;
    var i := if v > last then v - last else v - last + n;
    assert last - start + i == (v - start) + (if v > last then 0 else n);
    assert Arith.Remainder(v - start, n) == v - start;
  }

  /** The round-robin search is complete as long as the VC used last lies in the range. When it
      does not (as before the first packet, or after a packet of another range), only the first
      VC of the range is ever tried, however many others are free. */
  lemma SearchFailsIff(c: Config, b: Book, last: int, start: nat, end: nat, blocked: set<nat>)
    requires Shaped(c, b) && start <= end < c.vcs
    ensures start <= last <= end ==>
              (Search(c, b, last, start, end, blocked, 1) == -1 <==>
                 forall v :: start <= v <= end ==> !Usable(c, b, v, blocked))
    ensures !(start <= last <= end) ==>
              (Search(c, b, last, start, end, blocked, 1) == -1 <==> !Usable(c, b, start, blocked))
  {
    if Search(c, b, last, start, end, blocked, 1) == -1 {
      SearchTriesAll(c, b, last, start, end, blocked, 1, 1);
      if start <= last <= end {
        forall v | start <= v <= end ensures !Usable(c, b, v, blocked) {
          AttemptHits(last, start, end, v);
          var j := if v > last then v - last else v - last + (end - start + 1);
          SearchTriesAll(c, b, last, start, end, blocked, 1, j);
        }
      }
    } else {
      assert Usable(c, b, Search(c, b, last, start, end, blocked, 1), blocked);
      if !(start <= last <= end) { StuckSearch(c, b, last, start, end, blocked, 1); }
    }
  }

  lemma {:induction false} StuckSearch(c: Config, b: Book, last: int, start: nat, end: nat, blocked: set<nat>, i: nat)
    requires Shaped(c, b) && start <= end < c.vcs && i <= end - start + 2 && !(start <= last <= end)
    requires Search(c, b, last, start, end, blocked, i) != -1
    ensures Usable(c, b, start, blocked)
    decreases end - start + 2 - i
  {
    if !Usable(c, b, start, blocked) {
      StuckSearch(c, b, last, start, end, blocked, i + 1);
    }
  }

  function MissConfig(): Config {
    Config(4, 8, true, Private(2), [0, 0, 0, 0], [8], 0)
  }

  /** One packet on the upper two VCs, one on the lower two, and a third for the upper two. */
  function MissSteps(): seq<Step> {
    [Generate(0, 1), Inject(2, 3, {})] + ([Generate(1, 1), Inject(0, 1, {})] + [Generate(2, 1)])
  }

  /** The search does miss free VCs: after `MissSteps` an attempt on the upper two VCs leaves
      everything as it is although VC 3 is free and empty, because the VC used last is 0. */
  lemma SearchMissesFreeVc()
    ensures var c := MissConfig(); ValidConfig(c)
    ensures var c := MissConfig();
      var r := Run(c, InitialLink(c), MissSteps());
      && r.Some? && LinkInv(c, r.value) && r.value.partial == Packet(2, 1, 0)
      && Usable(c, r.value.book, 3, {})
      && TryInject(c, r.value, 2, 3, {}) == r
  {
    var c := MissConfig();
    assert ValidConfig(c);
    var l := MissRun(c);
    assert !Usable(c, l.book, 2, {});
    SearchFailsIff(c, l.book, l.lastVc, 2, 3, {});
    InjectKeeps(c, l, 2, 3, {});
  }

  lemma MissRun(c: Config) returns (r: Link)
    requires c == MissConfig() && ValidConfig(c)
    ensures LinkInv(c, r) && Run(c, InitialLink(c), MissSteps()) == Some(r)
    ensures r.partial == Packet(2, 1, 0) && r.lastVc == 0
    ensures r.book.inUse[2] && !r.book.inUse[3] && r.book.vcOccupancy[3] == 0
  {
    var l := InitialLink(c);
    InitialLinkInv(c);
    var l1 := SendsWhole(c, l, 0, 2, 3);
    var l2 := SendsWhole(c, l1, 1, 0, 1);
    r := Do(c, l2, Generate(2, 1)).value;
    GenerateKeeps(c, l2, 2, 1);
    assert Run(c, l2, [Generate(2, 1)]) == Some(r);
  }

  /** A one-flit packet that is sent at once, on the first VC of a range that does not hold the
      last VC used. */
  lemma SendsWhole(c: Config, l: Link, pid: nat, start: nat, end: nat) returns (r: Link)
    requires ValidConfig(c) && LinkInv(c, l) && c.policy.Private? && c.waitForTail && l.partial == []
    requires start <= end < c.vcs && !(start <= l.lastVc <= end) && Usable(c, l.book, start, {})
    ensures LinkInv(c, r) && r.partial == [] && r.lastVc == start
    ensures r.book.inUse == l.book.inUse[start := true]
    ensures r.book.vcOccupancy == l.book.vcOccupancy[start := l.book.vcOccupancy[start] + 1]
    ensures forall rest :: Run(c, l, [Generate(pid, 1), Inject(start, end, {})] + rest) == Run(c, r, rest)
  {
    GenerateKeeps(c, l, pid, 1);
    var m := Do(c, l, Generate(pid, 1)).value;
    assert Packet(pid, 1, 0) == [Flit(pid, true, true, -1)];
    InjectKeeps(c, m, start, end, {});
    r := TryInject(c, m, start, end, {}).value;
    forall rest ensures Run(c, l, [Generate(pid, 1), Inject(start, end, {})] + rest) == Run(c, r, rest) {
      RunsTwo(c, l, Generate(pid, 1), Inject(start, end, {}), rest);
    }
  }

  lemma RunsTwo(c: Config, l: Link, s: Step, t: Step, rest: seq<Step>)
    requires Structured(c, l) && Enabled(c, l, s) && Do(c, l, s).Some? && Structured(c, Do(c, l, s).value)
    requires var m := Do(c, l, s).value; Enabled(c, m, t) && Do(c, m, t).Some? && Structured(c, Do(c, m, t).value)
    ensures Run(c, l, [s, t] + rest) == Run(c, Do(c, Do(c, l, s).value, t).value, rest)
  {
    assert ([s, t] + rest)[1..] == [t] + rest;
    assert ([t] + rest)[1..] == rest;
  }
}
