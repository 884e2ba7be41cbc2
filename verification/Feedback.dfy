/** The feedback buffer policies: how many slots a VC may hold is derived from the measured round
    trip of its flits. The plain policy times every flit; the simple one times a single probe
    and counts the credits that are due before the probe's own. */
module FeedbackSpec {
  import opened Sums

  datatype Params = Params(minLatency: nat, agingScale: nat, offset: int)

  // ---------------------------------------------------------------- round-trip estimate and limit

  function Pow2(n: nat): (p: nat)
    ensures p > 0
  {
    if n == 0 then 1 else 2 * Pow2(n - 1)
  }

  /** Moving average of the round-trip time; negative means no estimate yet. */
  function ComputeRtt(p: Params, rtt: int, last: int): int {
    if rtt < 0 then last else (rtt * Pow2(p.agingScale) + last - rtt) / Pow2(p.agingScale)
  }

  function ComputeLimit(p: Params, rtt: int): (m: int)
    ensures m >= 1
  {
    if 2 * p.minLatency - rtt + p.offset > 1 then 2 * p.minLatency - rtt + p.offset else 1
  }

  /** The smoothed estimate lies between the old estimate and the sample, and equals the old one
      only if the sample is no smaller and no more than an aging step larger. */
  lemma RttBetween(p: Params, rtt: int, last: nat)
    ensures rtt < 0 ==> ComputeRtt(p, rtt, last) == last
    ensures 0 <= rtt <= last ==> rtt <= ComputeRtt(p, rtt, last) <= last
    ensures 0 <= last <= rtt ==> last <= ComputeRtt(p, rtt, last) <= rtt
    ensures 0 <= rtt ==> (ComputeRtt(p, rtt, last) == rtt <==> rtt <= last < rtt + Pow2(p.agingScale))
  {
    if rtt >= 0 {
      var s := Pow2(p.agingScale);
      FloorShift(rtt, last - rtt, s);
    }
  }

  lemma FloorShift(a: int, d: int, s: nat)
    requires s > 0
    ensures (a * s + d) / s == a + d / s
    ensures d >= 0 ==> 0 <= d / s <= d
    ensures d <= 0 ==> d <= d / s <= 0
    ensures d / s == 0 <==> 0 <= d < s
  {
    var q, r := d / s, d % s;
    assert d == s * q + r;
    QuotientBounds(d, s, q, r);
    assert s * (a + q) == a * s + s * q;
    QuotientIs(a * s + d, s, a + q, r);
  }

  lemma QuotientBounds(d: int, s: nat, q: int, r: int)
    requires s > 0 && d == s * q + r && 0 <= r < s
    ensures d >= 0 ==> 0 <= q <= d
    ensures d <= 0 ==> d <= q <= 0
    ensures q == 0 <==> 0 <= d < s
  {
    if q >= 1 {
      Grows(s, q);
    } else if q <= -1 {
      Grows(s, -q);
      Grows(s, -(q + 1));
      assert s * q == -(s * -q);
      assert s * q + s == -(s * -(q + 1));
    }
  }

  lemma Grows(s: nat, q: nat)
    requires s > 0
    ensures s * q >= q && (q >= 1 ==> s * q >= s)
  {
    if q >= 1 { assert s * q == s * (q - 1) + s; }
  }

  lemma QuotientIs(v: int, s: nat, q: int, r: int)
    requires s > 0 && v == s * q + r && 0 <= r < s
    ensures v / s == q
  {
    var q', r' := v / s, v % s;
    assert v == s * q' + r';
    if q' < q {
      Apart(s, q', q);
    } else if q' > q {
      Apart(s, q, q');
    }
  }

  lemma Apart(s: nat, a: int, b: int)
    requires a < b
    ensures s * a + s <= s * b
  {
    assert s * b == s * a + s * (b - a);
    NonNegative(s, b - a - 1);
  }

  lemma NonNegative(s: nat, n: nat)
    ensures s * (n + 1) == s * n + s && s * n >= 0
  {
  }

  // ---------------------------------------------------------------- per-VC bookkeeping

  /** `sentTimes` is the queue of send times waiting for their credit, `pending` the credits due
      before the probe's. */
  datatype Vc = Vc(limit: int, rtt: int, sentTimes: seq<int>, pending: int)
  datatype State = State(vcs: seq<Vc>, mapped: int)

  function Initial(n: nat, size: nat): State {
    State(seq(n, _ => Vc(size, -1, [], 0)), size * n)
  }

  function MaxSlots(p: Params, x: Vc, now: int): int {
    if x.sentTimes == [] then x.limit
    else
      var limit := ComputeLimit(p, ComputeRtt(p, x.rtt, now - x.sentTimes[0]));
      if x.limit < limit then x.limit else limit
  }

  /** Sending a flit; `outstanding` counts the VC's flits including this one. */
  function SendVc(simple: bool, x: Vc, now: int, outstanding: int): Vc {
    if !simple then x.(sentTimes := x.sentTimes + [now])
    else if x.sentTimes == [] then x.(pending := outstanding - 1, sentTimes := [now])
    else x
  }

  predicate TimesCredit(simple: bool, x: Vc) {
    x.sentTimes != [] && (!simple || x.pending == 0)
  }

  /** A credit comes back: either it is timed, or it is one of those before the probe's. */
  function FreeVc(simple: bool, p: Params, x: Vc, now: int): Vc {
    if TimesCredit(simple, x) then
      var rtt := ComputeRtt(p, x.rtt, now - x.sentTimes[0]);
      x.(sentTimes := x.sentTimes[1..], rtt := rtt, limit := ComputeLimit(p, rtt))
    else if simple && x.pending > 0 then x.(pending := x.pending - 1)
    else x
  }

  /** The source's assertions: a probe is one of the VC's outstanding flits, ... */
  predicate SendOk(simple: bool, x: Vc, outstanding: int) {
    simple && x.sentTimes == [] ==> outstanding > 0
  }

  /** ... a credit that is timed has a flit recorded for it, and one that is due before a probe
      has the probe recorded. */
  predicate FreeOk(simple: bool, x: Vc) {
    !simple || x.pending > 0 ==> x.sentTimes != []
  }

  function Send(simple: bool, s: State, v: nat, now: int, outstanding: int): State
    requires v < |s.vcs|
  {
    s.(vcs := s.vcs[v := SendVc(simple, s.vcs[v], now, outstanding)])
  }

  function Free(simple: bool, p: Params, s: State, v: nat, now: int): State
    requires v < |s.vcs|
  {
    var x := FreeVc(simple, p, s.vcs[v], now);
    State(s.vcs[v := x], s.mapped + (x.limit - s.vcs[v].limit))
  }

  // ---------------------------------------------------------------- what the bookkeeping means

  /** `flits` are the send times of the VC's flits whose credit has not come back, oldest first.
      The plain policy keeps them all; the simple one keeps at most one of them, and `pending`
      says which: credits come back in order, so exactly the older ones are due before it. */
  predicate VcOk(simple: bool, x: Vc, flits: seq<int>) {
    && x.limit >= 1
    && (if simple then
          && |x.sentTimes| <= 1
          && (x.sentTimes == [] ==> x.pending == 0)
          && (x.sentTimes != [] ==> 0 <= x.pending < |flits| && flits[x.pending] == x.sentTimes[0])
        else x.sentTimes == flits)
  }

  function Limits(vcs: seq<Vc>): (a: seq<int>)
    ensures |a| == |vcs| && forall v :: 0 <= v < |a| ==> a[v] == vcs[v].limit
  {
    seq(|vcs|, v requires 0 <= v < |vcs| => vcs[v].limit)
  }

  /** `flits` gives, for every VC, the send times of its outstanding flits. */
  predicate Inv(simple: bool, s: State, flits: seq<seq<int>>) {
    && |s.vcs| == |flits|
    && s.mapped == Sum(Limits(s.vcs))
    && forall v :: 0 <= v < |s.vcs| ==> VcOk(simple, s.vcs[v], flits[v])
  }

  lemma {:induction false} SumConstant(n: nat, x: int)
    ensures Sum(seq(n, _ => x)) == x * n
  {
    if n > 0 {
      assert seq(n, _ => x)[1..] == seq(n - 1, _ => x);
      SumConstant(n - 1, x);
      assert x * n == x * (n - 1) + x;
    }
  }

  lemma InitialInv(simple: bool, n: nat, size: nat)
    requires size >= 1
    ensures Inv(simple, Initial(n, size), seq(n, _ => []))
  {
    assert Limits(Initial(n, size).vcs) == seq(n, _ => size as int);
    SumConstant(n, size);
  }

  lemma SendKeeps(simple: bool, s: State, flits: seq<seq<int>>, v: nat, now: int)
    requires Inv(simple, s, flits) && v < |flits|
    ensures Inv(simple, Send(simple, s, v, now, |flits[v]| + 1), flits[v := flits[v] + [now]])
  {
    var s' := Send(simple, s, v, now, |flits[v]| + 1);
    assert Limits(s'.vcs) == Limits(s.vcs);
    assert VcOk(simple, s.vcs[v], flits[v]);
  }

  /** Every sample pairs a flit with its own credit: when a credit is timed, the send time used is
      that of the very flit the credit is for, the oldest one outstanding; and a credit that is
      not timed leaves estimate and limit alone. */
  lemma SampleIsOwn(simple: bool, p: Params, x: Vc, flits: seq<int>, now: int)
    requires VcOk(simple, x, flits) && flits != []
    ensures TimesCredit(simple, x) ==>
              && x.sentTimes[0] == flits[0]
              && FreeVc(simple, p, x, now).rtt == ComputeRtt(p, x.rtt, now - flits[0])
    ensures !TimesCredit(simple, x) ==>
              FreeVc(simple, p, x, now).rtt == x.rtt && FreeVc(simple, p, x, now).limit == x.limit
  {
  }

  lemma FreeKeeps(simple: bool, p: Params, s: State, flits: seq<seq<int>>, v: nat, now: int)
    requires Inv(simple, s, flits) && v < |flits| && flits[v] != []
    ensures Inv(simple, Free(simple, p, s, v, now), flits[v := flits[v][1..]])
  {
    var x, x' := s.vcs[v], FreeVc(simple, p, s.vcs[v], now);
    assert VcOk(simple, x, flits[v]);
    var s' := Free(simple, p, s, v, now);
    SumUpdate(Limits(s.vcs), v, x'.limit);
    assert Limits(s'.vcs) == Limits(s.vcs)[v := x'.limit];
    assert VcOk(simple, x', flits[v][1..]);
  }

  /** However bad the round trips, a VC may always hold one slot, so this limit never locks out a
      VC that is empty. */
  lemma MaxSlotsPositive(simple: bool, p: Params, x: Vc, flits: seq<int>, now: int)
    requires VcOk(simple, x, flits)
    ensures 1 <= MaxSlots(p, x, now) <= x.limit
  {
  }

  datatype Event = Sent(vc: nat, time: int) | Returned(vc: nat, time: int)

  /** A run against the flits themselves: what is outstanding, what the policy recorded, the round
      trips it sampled, each with that of the flit it should be of, and whether every assertion
      has held. */
  datatype History = History(state: State, flits: seq<seq<int>>, samples: seq<(int, int)>, ok: bool)

  predicate Possible(h: History, e: Event) {
    e.vc < |h.flits| && e.vc < |h.state.vcs| && (e.Returned? ==> h.flits[e.vc] != [])
  }

  function After(simple: bool, p: Params, h: History, e: Event): History
    requires Possible(h, e)
  {
    match e
    case Sent(v, now) =>
      History(Send(simple, h.state, v, now, |h.flits[v]| + 1), h.flits[v := h.flits[v] + [now]], h.samples,
              h.ok && SendOk(simple, h.state.vcs[v], |h.flits[v]| + 1))
    case Returned(v, now) =>
      var x := h.state.vcs[v];
      History(Free(simple, p, h.state, v, now), h.flits[v := h.flits[v][1..]],
              h.samples + if TimesCredit(simple, x) then [(now - x.sentTimes[0], now - h.flits[v][0])] else [],
              h.ok && FreeOk(simple, x))
  }

  function Run(simple: bool, p: Params, h: History, events: seq<Event>): History
    decreases |events|
  {
    if events == [] then h
    else if Possible(h, events[0]) then Run(simple, p, After(simple, p, h, events[0]), events[1..])
    else Run(simple, p, h, events[1..])
  }

  predicate Faithful(samples: seq<(int, int)>) {
    forall i :: 0 <= i < |samples| ==> samples[i].0 == samples[i].1
  }

  /** Over every run of sends and in-order credits, each measured round trip is the true round
      trip of one flit, the bookkeeping stays exact, and no assertion fails. */
  lemma {:induction false} EveryRunFaithful(simple: bool, p: Params, h: History, events: seq<Event>)
    requires Inv(simple, h.state, h.flits) && Faithful(h.samples) && h.ok
    ensures var r := Run(simple, p, h, events); Inv(simple, r.state, r.flits) && Faithful(r.samples) && r.ok
    decreases |events|
  {
    if events != [] {
      var e := events[0];
      if Possible(h, e) {
        match e {
          case Sent(v, now) => SendKeeps(simple, h.state, h.flits, v, now);
          case Returned(v, now) =>
            FreeKeeps(simple, p, h.state, h.flits, v, now);
            assert VcOk(simple, h.state.vcs[v], h.flits[v]);
            SampleIsOwn(simple, p, h.state.vcs[v], h.flits[v], now);
        }
        EveryRunFaithful(simple, p, After(simple, p, h, e), events[1..]);
      } else {
        EveryRunFaithful(simple, p, h, events[1..]);
      }
    }
  }
}

/** The policy as the object whose vectors the calls update. The slots themselves are accounted
    for by the shared policy underneath. */
module FeedbackModel {
  import opened FeedbackSpec

  class FeedbackPolicy {
    const simple: bool
    const params: Params
    var occupancyLimit: seq<int>
    var roundTripTime: seq<int>
    var flitSentTime: seq<seq<int>>
    var pendingCredits: seq<int>
    var totalMappedSize: int

    predicate Valid()
      reads this
    {
      |occupancyLimit| == |roundTripTime| == |flitSentTime| == |pendingCredits|
    }

    function View(): (s: State)
      requires Valid()
      reads this
      ensures |s.vcs| == |occupancyLimit|
    {
      State(seq(|occupancyLimit|, v requires 0 <= v < |occupancyLimit| && Valid() reads this =>
                  Vc(occupancyLimit[v], roundTripTime[v], flitSentTime[v], pendingCredits[v])),
            totalMappedSize)
    }

    constructor (simple: bool, params: Params, vcs: nat, size: nat)
      ensures this.simple == simple && this.params == params
      ensures Valid() && View() == Initial(vcs, size)
    {
      this.simple, this.params := simple, params;
      occupancyLimit := seq(vcs, _ => size as int);
      roundTripTime := seq(vcs, _ => -1);
      flitSentTime := seq(vcs, _ => []);
      pendingCredits := seq(vcs, _ => 0);
      totalMappedSize := size * vcs;
    }

    /** `ok` is false exactly where the source's assertion fails. */
    method SendingFlit(v: nat, now: int, occupancy: int) returns (ok: bool)
      requires Valid() && v < |occupancyLimit|
      modifies this
      ensures ok == SendOk(simple, old(View()).vcs[v], occupancy)
      ensures ok ==> Valid() && View() == Send(simple, old(View()), v, now, occupancy)
    {
      ok := true;
      if simple {
        if flitSentTime[v] == [] {
          if occupancy <= 0 { return false; }
          pendingCredits := pendingCredits[v := occupancy - 1];
          assert flitSentTime[v] + [now] == [now];
          flitSentTime := flitSentTime[v := flitSentTime[v] + [now]];
        } else {
          assert View().vcs[v := View().vcs[v]] == View().vcs;
        }
      } else {
        flitSentTime := flitSentTime[v := flitSentTime[v] + [now]];
      }
    }

    /** `ok` is false exactly where one of the source's assertions fails. */
    method FreeSlotFor(v: nat, now: int) returns (ok: bool)
      requires Valid() && v < |occupancyLimit|
      modifies this
      ensures ok == FreeOk(simple, old(View()).vcs[v])
      ensures ok ==> Valid() && View() == Free(simple, params, old(View()), v, now)
    {
      if simple && !(flitSentTime[v] != [] && pendingCredits[v] == 0) {
        if pendingCredits[v] > 0 {
          if flitSentTime[v] == [] { return false; }
          pendingCredits := pendingCredits[v := pendingCredits[v] - 1];
        }
        return true;
      }
      if flitSentTime[v] == [] {
        return false;
      }
      var lastRtt := now - flitSentTime[v][0];
      flitSentTime := flitSentTime[v := flitSentTime[v][1..]];
      var rtt := ComputeRtt(params, roundTripTime[v], lastRtt);
      roundTripTime := roundTripTime[v := rtt];
      var limit := ComputeLimit(params, rtt);
      totalMappedSize := totalMappedSize + (limit - occupancyLimit[v]);
      occupancyLimit := occupancyLimit[v := limit];
      return true;
    }
  }
}
