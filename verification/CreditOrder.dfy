/** What a link promises beyond counting: an attempt sends whenever it may, the choice of VC goes
    round, and the flits of each VC come out in the order they were sent, none lost or repeated. */
module CreditOrder {
  import opened Option
  import opened CreditBook
  import opened CreditLoop
  import Arith

  // ---------------------------------------------------------------- the choice of VC

  /** How far round the range VC w is from the one used last: 1 for the next, up to the size of the
      range for the one used last itself. */
  function Turns(last: int, start: nat, end: nat, w: int): (n: nat)
    requires start <= last <= end && start <= w <= end
    ensures 1 <= n <= end - start + 1
  {
    if w > last then w - last else w - last + (end - start + 1)
  }

  lemma AttemptTurns(last: int, start: nat, end: nat, i: nat)
    requires start <= last <= end && 1 <= i <= end - start + 1
    ensures Turns(last, start, end, Attempt(last, start, end, i)) == i
  {
    var n := end - start + 1;
    if last + i <= end {
      assert Attempt(last, start, end, i) == last + i;
    } else {
      assert Arith.Remainder(last - start + i, n) == last - start + i - n;
    }
  }

  /** The search takes the first usable VC after the one used last, going round. */
  lemma {:induction false} SearchIsFirst(c: Config, b: Book, last: int, start: nat, end: nat, blocked: set<nat>, i: nat)
    requires Shaped(c, b) && start <= last <= end < c.vcs && 1 <= i <= end - start + 2
    ensures var v := Search(c, b, last, start, end, blocked, i);
      v != -1 ==>
        && Usable(c, b, v, blocked) && Turns(last, start, end, v) >= i
        && forall w :: start <= w <= end && i <= Turns(last, start, end, w) < Turns(last, start, end, v) ==>
             !Usable(c, b, w, blocked)
    decreases end - start + 2 - i
  {
    if i <= end - start + 1 {
      AttemptTurns(last, start, end, i);
      SearchIsFirst(c, b, last, start, end, blocked, i + 1);
      forall w | start <= w <= end && Turns(last, start, end, w) == i
        ensures w == Attempt(last, start, end, i)
      {
      }
    }
  }

  /** The VCs chosen one after the other for a sequence of packets, each in the state its attempt
      finds; None where the search finds nothing. */
  function Choices(c: Config, books: seq<Book>, last: int, start: nat, end: nat, blocked: set<nat>): (r: seq<int>)
    requires start <= last <= end < c.vcs && forall i :: 0 <= i < |books| ==> Shaped(c, books[i])
    ensures |r| == |books|
    decreases |books|
  {
    if books == [] then []
    else
      var v := Search(c, books[0], last, start, end, blocked, 1);
      [v] + Choices(c, books[1..], if v == -1 then last else v, start, end, blocked)
  }

  /** Fairness: a VC that is usable at every attempt is chosen before any other is chosen twice
      round, at the latest when the range has been gone through once. */
  lemma {:induction false} ChosenInTurn(c: Config, books: seq<Book>, last: int, start: nat, end: nat,
      blocked: set<nat>, w: nat)
    requires start <= last <= end < c.vcs && start <= w <= end
    requires forall i :: 0 <= i < |books| ==> Shaped(c, books[i]) && Usable(c, books[i], w, blocked)
    requires |books| >= Turns(last, start, end, w)
    ensures w in Choices(c, books, last, start, end, blocked)
    decreases |books|
  {
    var v := Search(c, books[0], last, start, end, blocked, 1);
    SearchFailsIff(c, books[0], last, start, end, blocked);
    SearchIsFirst(c, books[0], last, start, end, blocked, 1);
    assert Usable(c, books[0], w, blocked);
    assert v != -1;
    if v != w {
      assert Turns(v, start, end, w) < Turns(last, start, end, w);
      ChosenInTurn(c, books[1..], v, start, end, blocked, w);
    }
  }

  // ---------------------------------------------------------------- when an attempt sends

  /** The VC the front flit would be sent on, if any: its packet's own, or the search's. */
  predicate MaySendOn(c: Config, l: Link, start: nat, end: nat, blocked: set<nat>, v: nat)
    requires Shaped(c, l.book) && start <= end < c.vcs && l.partial != [] && v < c.vcs
  {
    if l.partial[0].head then
      start <= v <= end && Usable(c, l.book, v, blocked) && (start <= l.lastVc <= end || v == start)
    else l.partial[0].vc == v && !Refused(c, l.book, v, blocked)
  }

  /** The flit, and what is left of the source's list, after one flit was sent on v. */
  predicate SentOn(l: Link, r: Link, v: nat)
    requires l.partial != []
  {
    && r.forward == l.forward + [l.partial[0].(vc := v)]
    && r.partial == PassVc(l.partial[1..], l.partial[0].(vc := v))
    && r.lastVc == (if l.partial[0].head then v else l.lastVc)
    && r.down == l.down && r.credits == l.credits && r.gathered == l.gathered
  }

  /** An attempt sends the front flit if and only if there is a VC it may be sent on, and then on
      one of those; otherwise it changes nothing. */
  lemma InjectSendsIff(c: Config, l: Link, start: nat, end: nat, blocked: set<nat>)
    requires ValidConfig(c) && LinkInv(c, l) && start <= end < c.vcs && l.partial != []
    ensures var r := TryInject(c, l, start, end, blocked);
      && r.Some?
      && if exists v :: 0 <= v < c.vcs && MaySendOn(c, l, start, end, blocked, v)
         then exists v :: 0 <= v < c.vcs && MaySendOn(c, l, start, end, blocked, v) && SentOn(l, r.value, v)
         else r.value == l
  {
    InjectKeeps(c, l, start, end, blocked);
    var f := l.partial[0];
    SearchFailsIff(c, l.book, l.lastVc, start, end, blocked);
    var v := if f.head then Search(c, l.book, l.lastVc, start, end, blocked, 1) else f.vc;
    if v != -1 && !Refused(c, l.book, v, blocked) {
      if f.head && !(start <= l.lastVc <= end) { StuckStart(c, l.book, l.lastVc, start, end, blocked, 1); }
      assert MaySendOn(c, l, start, end, blocked, v);
      SendFrontBook(c, l, v);
      assert SentOn(l, TryInject(c, l, start, end, blocked).value, v);
    }
  }

  lemma {:induction false} StuckStart(c: Config, b: Book, last: int, start: nat, end: nat, blocked: set<nat>, i: nat)
    requires Shaped(c, b) && start <= end < c.vcs && i <= end - start + 2 && !(start <= last <= end)
    ensures Search(c, b, last, start, end, blocked, i) in {-1, start as int}
    decreases end - start + 2 - i
  {
    if i <= end - start + 1 { StuckStart(c, b, last, start, end, blocked, i + 1); }
  }

  // ---------------------------------------------------------------- first in, first out

  /** The flits of VC v on their way, oldest first. */
  function OnVc(forward: seq<Flit>, v: nat): seq<Flit> {
    if forward == [] then []
    else (if forward[0].vc == v then [forward[0]] else []) + OnVc(forward[1..], v)
  }

  /** Everything of VC v between the source and the router, next to come out first. */
  function Stream(l: Link, v: nat): seq<Flit>
    requires v < |l.down|
  {
    l.down[v].flits + OnVc(l.forward, v)
  }

  lemma {:induction false} OnVcAppend(forward: seq<Flit>, f: Flit, v: nat)
    ensures OnVc(forward + [f], v) == OnVc(forward, v) + if f.vc == v then [f] else []
  {
    if forward == [] {
      assert [] + [f] == [f];
      assert [f][1..] == [];
    } else {
      OnVcAppend(forward[1..], f, v);
      assert (forward + [f])[1..] == forward[1..] + [f];
    }
  }

  /** The flit a step sends on VC v, if it does: at most one. */
  function Enters(c: Config, l: Link, s: Step, v: nat): (r: seq<Flit>)
    requires Structured(c, l) && Enabled(c, l, s) && v < c.vcs
  {
    if !s.Inject? || Do(c, l, s).None? then []
    else
      var n := Do(c, l, s).value.forward;
      if |n| == |l.forward| + 1 && n[|l.forward|].vc == v then [n[|l.forward|]] else []
  }

  /** The flit a step takes out of VC v at the router. */
  function Leaves(c: Config, l: Link, s: Step, v: nat): (r: seq<Flit>)
    requires Structured(c, l) && Enabled(c, l, s) && v < c.vcs
  {
    if s == Drain(v) then [l.down[v].flits[0]] else []
  }

  /** Every step leaves each VC's flits in order: what enters goes to the end, what leaves comes
      from the front. */
  lemma StreamStep(c: Config, l: Link, s: Step, v: nat)
    requires ValidConfig(c) && LinkInv(c, l) && Enabled(c, l, s) && v < c.vcs
    ensures Do(c, l, s).Some?
    ensures Stream(l, v) + Enters(c, l, s, v) == Leaves(c, l, s, v) + Stream(Do(c, l, s).value, v)
  {
    StepKeeps(c, l, s);
    var r := Do(c, l, s).value;
    match s
    case Generate(_, _) =>
    case Inject(start, end, blocked) => InjectStream(c, l, start, end, blocked, v);
    case Arrive => ArriveStream(c, l, v);
    case Drain(w) =>
      if w == v { assert l.down[v].flits == [l.down[v].flits[0]] + l.down[v].flits[1..]; }
    case SendCredit =>
    case Return =>
  }

  lemma InjectStream(c: Config, l: Link, start: nat, end: nat, blocked: set<nat>, v: nat)
    requires ValidConfig(c) && LinkInv(c, l) && start <= end < c.vcs && v < c.vcs
    ensures var s := Step.Inject(start, end, blocked);
      Do(c, l, s).Some? && Stream(l, v) + Enters(c, l, s, v) == Stream(Do(c, l, s).value, v)
  {
    InjectKeeps(c, l, start, end, blocked);
    if l.partial != [] {
      InjectSendsIff(c, l, start, end, blocked);
      var r := TryInject(c, l, start, end, blocked).value;
      if w: nat :| w < c.vcs && MaySendOn(c, l, start, end, blocked, w) && SentOn(l, r, w) {
        OnVcAppend(l.forward, l.partial[0].(vc := w), v);
      }
    }
  }

  lemma ArriveStream(c: Config, l: Link, v: nat)
    requires ValidConfig(c) && LinkInv(c, l) && l.forward != [] && v < c.vcs
    ensures Do(c, l, Arrive).Some? && Stream(l, v) == Stream(Do(c, l, Arrive).value, v)
  {
    ArriveKeeps(c, l);
  }

  // ---------------------------------------------------------------- whole runs

  /** The flits that entered, or left, VC v over a run. */
  function AllEntered(c: Config, l: Link, steps: seq<Step>, v: nat): seq<Flit>
    requires Structured(c, l) && v < c.vcs
    decreases |steps|
  {
    if steps == [] then []
    else if !Enabled(c, l, steps[0]) then AllEntered(c, l, steps[1..], v)
    else
      var r := Do(c, l, steps[0]);
      if r.None? || !Structured(c, r.value) then []
      else Enters(c, l, steps[0], v) + AllEntered(c, r.value, steps[1..], v)
  }

  function AllLeft(c: Config, l: Link, steps: seq<Step>, v: nat): seq<Flit>
    requires Structured(c, l) && v < c.vcs
    decreases |steps|
  {
    if steps == [] then []
    else if !Enabled(c, l, steps[0]) then AllLeft(c, l, steps[1..], v)
    else
      var r := Do(c, l, steps[0]);
      if r.None? || !Structured(c, r.value) then []
      else Leaves(c, l, steps[0], v) + AllLeft(c, r.value, steps[1..], v)
  }

  /** In every run, whatever the interleaving, the flits of each VC leave in the order they
      entered: what has left, followed by what is still on its way, is what has entered. */
  lemma {:induction false} EveryRunInOrder(c: Config, l: Link, steps: seq<Step>, v: nat)
    requires ValidConfig(c) && LinkInv(c, l) && v < c.vcs
    ensures Run(c, l, steps).Some? && v < |Run(c, l, steps).value.down|
    ensures Stream(l, v) + AllEntered(c, l, steps, v) == AllLeft(c, l, steps, v) + Stream(Run(c, l, steps).value, v)
    decreases |steps|
  {
    EveryRunConserves(c, l, steps);
    if steps != [] {
      if Enabled(c, l, steps[0]) {
        StepKeeps(c, l, steps[0]);
        StreamStep(c, l, steps[0], v);
        var m := Do(c, l, steps[0]).value;
        EveryRunInOrder(c, m, steps[1..], v);
        Joined(Stream(l, v), Enters(c, l, steps[0], v), Leaves(c, l, steps[0], v), Stream(m, v),
               AllEntered(c, m, steps[1..], v), AllLeft(c, m, steps[1..], v), Stream(Run(c, l, steps).value, v));
      } else {
        EveryRunInOrder(c, l, steps[1..], v);
      }
    }
  }

  lemma Joined<T>(before: seq<T>, e: seq<T>, x: seq<T>, between: seq<T>, es: seq<T>, xs: seq<T>, after: seq<T>)
    requires before + e == x + between && between + es == xs + after
    ensures before + (e + es) == (x + xs) + after
  {
    assert before + (e + es) == (before + e) + es == (x + between) + es == x + (between + es);
    assert x + (xs + after) == (x + xs) + after;
  }

  // ---------------------------------------------------------------- misuse is caught

  /** The input buffer takes a flit exactly when it has a free place and the VC is not in the middle
      of another packet, and then expects the rest of the flit's packet. */
  lemma ArrivalRefusedIff(c: Config, l: Link, v: nat, f: Flit)
    requires v < |l.down|
    ensures AddFlit(c, l, v, f).None? <==>
      l.buffered >= c.size || (l.down[v].expected >= 0 && l.down[v].expected != f.pid)
    ensures AddFlit(c, l, v, f).Some? && l.down[v].expected == -1 ==>
      var e := AddFlit(c, l, v, f).value.down[v].expected; if f.tail then e == -1 else e == f.pid
  {
  }
}
