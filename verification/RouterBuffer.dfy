/** The router's input buffer with its virtual channels, and the traffic source that feeds it. */
module RouterBufferModel {
  import opened Option
  import opened CreditBook
  import opened CreditLoop
  import opened BufferStateModel

  class VirtualChannel {
    var buffer: seq<Flit>
    var expectedPid: int

    constructor ()
      ensures buffer == [] && expectedPid == -1
    {
      buffer, expectedPid := [], -1;
    }

    function View(): Queue
      reads this
    {
      Queue(buffer, expectedPid)
    }

    method AddFlit(f: Flit) returns (ok: bool)
      modifies this
      ensures ok == Accept(old(expectedPid), f).Some?
      ensures ok ==> View() == Queue(old(buffer) + [f], Accept(old(expectedPid), f).value)
    {
      if expectedPid >= 0 {
        if f.pid != expectedPid {
          return false;
        } else if f.tail {
          expectedPid := -1;
        }
      } else if !f.tail {
        expectedPid := f.pid;
      }
      buffer := buffer + [f];
      return true;
    }

    method RemoveFlit() returns (f: Option<Flit>)
      modifies this
      ensures f == if old(buffer) == [] then None else Some(old(buffer)[0])
      ensures View() == if old(buffer) == [] then old(View()) else Queue(old(buffer)[1..], old(expectedPid))
    {
      if buffer == [] {
        return None;
      }
      f := Some(buffer[0]);
      buffer := buffer[1..];
    }
  }

  class Buffer {
    const size: nat
    const vcs: seq<VirtualChannel>
    var occupancy: int

    predicate Valid() {
      forall i, j :: 0 <= i < j < |vcs| ==> vcs[i] != vcs[j]
    }

    function Queues(): (q: seq<Queue>)
      reads vcs
      ensures |q| == |vcs|
    {
      seq(|vcs|, i requires 0 <= i < |vcs| reads vcs => vcs[i].View())
    }

    /** The buffer's part of a link. */
    predicate Matches(c: Config, l: Link)
      reads this, vcs
    {
      Valid() && size == c.size && occupancy == l.buffered && Queues() == l.down
    }

    method AddFlit(v: nat, f: Flit, ghost c: Config, ghost l: Link) returns (ok: bool)
      requires v < |vcs| && Matches(c, l)
      modifies this, vcs[v]
      ensures ok == CreditLoop.AddFlit(c, l, v, f).Some?
      ensures ok ==> Matches(c, CreditLoop.AddFlit(c, l, v, f).value)
    {
      if occupancy >= size {
        return false;
      }
      occupancy := occupancy + 1;
      ok := vcs[v].AddFlit(f);
      assert ok ==> Queues() == l.down[v := vcs[v].View()];
    }

    method RemoveFlit(v: nat, ghost c: Config, ghost l: Link) returns (f: Option<Flit>)
      requires v < |vcs| && Matches(c, l)
      modifies this, vcs[v]
      ensures f.Some? == CreditLoop.RemoveFlit(l, v).Some?
      ensures f.Some? ==> f.value == l.down[v].flits[0] && Matches(c, CreditLoop.RemoveFlit(l, v).value)
    {
      occupancy := occupancy - 1;
      f := vcs[v].RemoveFlit();
      assert f.Some? ==> Queues() == l.down[v := vcs[v].View()];
    }
  }

  class TrafficSource {
    var partialPackets: seq<Flit>
    var lastVc: int

    /** Chooses a VC for a head flit; -1 if none can be had. */
    method SelectVc(dest: BufferState, start: nat, end: nat, blocked: set<nat>) returns (vc: int)
      requires dest.Valid() && start <= end < dest.config.vcs
      ensures vc == Search(dest.config, dest.View(), lastVc, start, end, blocked, 1)
    {
      var count := end - start + 1;
      var i := 1;
      while i <= count
        invariant 1 <= i <= count + 1
        invariant Search(dest.config, dest.View(), lastVc, start, end, blocked, i)
               == Search(dest.config, dest.View(), lastVc, start, end, blocked, 1)
      {
        var v := Attempt(lastVc, start, end, i);
        if dest.AvailableFor(v) && !dest.FullFor(v) && v !in blocked {
          return v;
        }
        i := i + 1;
      }
      return -1;
    }

    /** One injection attempt: chooses a VC for a head flit, sends the front flit if its VC has
        room, and passes the VC on. `sent` is what is written to the channel. */
    method Inject(dest: BufferState, start: nat, end: nat, blocked: set<nat>, ghost l: Link)
        returns (ok: bool, sent: Option<Flit>)
      requires dest.Valid() && start <= end < dest.config.vcs && Structured(dest.config, l)
      requires l.book == dest.View() && l.partial == partialPackets && l.lastVc == lastVc
      modifies this, dest
      ensures ok == TryInject(dest.config, l, start, end, blocked).Some?
      ensures ok ==>
        var r := TryInject(dest.config, l, start, end, blocked).value;
        && r.book == dest.View() && r.partial == partialPackets && r.lastVc == lastVc
        && r.forward == l.forward + (if sent.Some? then [sent.value] else [])
        && r.down == l.down && r.buffered == l.buffered && r.gathered == l.gathered && r.credits == l.credits
    {
      ok, sent := true, None;
      if partialPackets == [] {
        return;
      }
      var f := partialPackets[0];
      if f.head && f.vc == -1 {
        var v := SelectVc(dest, start, end, blocked);
        f := f.(vc := v);
      }
      if f.vc == -1 || dest.FullFor(f.vc) || f.vc in blocked {
        return;
      }
      if f.head {
        ok := dest.TakeBuffer(f.vc);
        if !ok {
          return;
        }
        lastVc := f.vc;
      }
      partialPackets := partialPackets[1..];
      ok := dest.SendingFlit(f.vc, f.tail);
      if !ok {
        return;
      }
      if partialPackets != [] && !f.tail {
        partialPackets := partialPackets[0 := partialPackets[0].(vc := f.vc)];
      }
      sent := Some(f);
    }
  }
}
