/** A channel is a delay line. In every cycle it first takes in what was sent in the cycle
    before, then something may be sent, then it puts out what is due. */
module ChannelModel {
  import opened Option

  type Entry<T> = (int, T)

  /** What is still on its way among the cycles from `lo` up to `hi`, each entry with the cycle it
      is due. `sent` has one entry for each past cycle. */
  function Pending<T>(sent: seq<Option<T>>, lo: nat, hi: nat, delay: nat): (q: seq<Entry<T>>)
    requires lo <= hi <= |sent|
    decreases hi - lo
  {
    if lo == hi then []
    else Pending(sent, lo, hi - 1, delay) + Due(sent[hi - 1], hi - 1 + delay)
  }

  function Due<T>(data: Option<T>, time: int): seq<Entry<T>> {
    if data.Some? then [(time, data.value)] else []
  }

  lemma {:induction false} PendingFirst<T>(sent: seq<Option<T>>, lo: nat, hi: nat, delay: nat)
    requires lo < hi <= |sent|
    ensures Pending(sent, lo, hi, delay) == Due(sent[lo], lo + delay) + Pending(sent, lo + 1, hi, delay)
    decreases hi - lo
  {
    if lo + 1 < hi {
      PendingFirst(sent, lo, hi - 1, delay);
      var first, rest, last := Due(sent[lo], lo + delay), Pending(sent, lo + 1, hi - 1, delay),
          Due(sent[hi - 1], hi - 1 + delay);
      assert (first + rest) + last == first + (rest + last);
    } else {
      assert [] + Due(sent[lo], lo + delay) == Due(sent[lo], lo + delay) + [];
    }
  }

  lemma {:induction false} PendingNotBefore<T>(sent: seq<Option<T>>, lo: nat, hi: nat, delay: nat)
    requires lo <= hi <= |sent|
    ensures forall i :: 0 <= i < |Pending(sent, lo, hi, delay)| ==> Pending(sent, lo, hi, delay)[i].0 >= lo + delay
    decreases hi - lo
  {
    if lo < hi { PendingNotBefore(sent, lo, hi - 1, delay); }
  }

  lemma {:induction false} PendingExtend<T>(sent: seq<Option<T>>, next: Option<T>, lo: nat, hi: nat, delay: nat)
    requires lo <= hi <= |sent|
    ensures Pending(sent + [next], lo, hi, delay) == Pending(sent, lo, hi, delay)
    decreases hi - lo
  {
    if lo < hi { PendingExtend(sent, next, lo, hi - 1, delay); }
  }

  /** The oldest cycle whose data has not come out before cycle `now`. */
  function Oldest(now: nat, delay: nat): nat { if now >= delay then now - delay else 0 }

  class Channel<T(0)> {
    const delay: nat
    var input: Option<T>
    var output: Option<T>
    var waitQueue: seq<Entry<T>>

    /** What was sent in each past cycle. */
    ghost var sent: seq<Option<T>>

    /** Before cycle `now`: the last cycle's input has not been taken in. */
    ghost predicate Between(now: nat)
      reads this
    {
      && delay > 0 && |sent| == now
      && input == (if now > 0 then sent[now - 1] else None)
      && waitQueue == Pending(sent, Oldest(now, delay), if now > 0 then now - 1 else 0, delay)
    }

    /** Within cycle `now`, after reading inputs: `input` is what this cycle sends. */
    ghost predicate Within(now: nat)
      reads this
    {
      && delay > 0 && |sent| == now
      && waitQueue == Pending(sent, Oldest(now, delay), now, delay)
    }

    constructor (cycles: nat)
      requires cycles > 0
      ensures Between(0) && delay == cycles && sent == [] && output == None
    {
      delay := cycles;
      input, output, waitQueue, sent := None, None, [], [];
    }

    method ReadInputs(now: nat)
      requires Between(now)
      modifies this
      ensures Within(now) && input == None && sent == old(sent) && output == old(output)
    {
      if now > 0 {
        assert Pending(sent, Oldest(now, delay), now, delay)
            == Pending(sent, Oldest(now, delay), now - 1, delay) + Due(sent[now - 1], now - 1 + delay);
      }
      if input.Some? {
        waitQueue := waitQueue + [(now + delay - 1, input.value)];
        input := None;
      } else {
        assert waitQueue + [] == waitQueue;
      }
    }

    method Send(data: Option<T>, ghost now: nat)
      requires Within(now)
      modifies this`input
      ensures Within(now) && input == data
    {
      input := data;
    }

    function Receive(): Option<T>
      reads this
    {
      output
    }

    /** What comes out in cycle `now` is exactly what was sent `delay` cycles before; nothing is
        ever late, lost, repeated or out of order. */
    method WriteOutputs(now: nat)
      requires Within(now)
      modifies this
      ensures Between(now + 1) && sent == old(sent) + [old(input)]
      ensures Receive() == (if now >= delay then old(sent)[now - delay] else None)
    {
      ghost var lo := Oldest(now, delay);
      if now >= delay { PendingFirst(sent, lo, now, delay); }
      PendingNotBefore(sent, Oldest(now + 1, delay), now, delay);
      PendingExtend(sent, input, Oldest(now + 1, delay), now, delay);
      sent := sent + [input];
      output := None;
      if waitQueue == [] || now < waitQueue[0].0 {
        return;
      }
      var item := waitQueue[0];
      assert now == item.0;
      output := Some(item.1);
      waitQueue := waitQueue[1..];
    }
  }
}
