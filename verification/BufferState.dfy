/** The sender's BufferState with its buffer policy, as the object whose counters the calls
    update. Every method follows the source step by step and is proved against the book-keeping
    functions of CreditBook; `ok` is false where the source reports an error. */
module BufferStateModel {
  import opened Option
  import opened CreditBook
  import Arith

  class BufferState {
    const config: Config
    var occupancy: int
    var vcOccupancy: seq<int>
    var inUse: seq<bool>
    var tailSent: seq<bool>
    var privateOccupancy: seq<int>
    var sharedOccupancy: int
    var reserved: seq<nat>
    var activeVcs: int
    var maxHeldSlots: nat

    function View(): Book
      reads this
    {
      Book(occupancy, vcOccupancy, inUse, tailSent, privateOccupancy, sharedOccupancy, reserved, activeVcs,
          maxHeldSlots)
    }

    predicate Valid()
      reads this
    {
      Shaped(config, View())
    }

    constructor (c: Config)
      requires ValidConfig(c)
      ensures config == c && Valid() && View() == InitialBook(c)
    {
      config := c;
      occupancy, sharedOccupancy, activeVcs := 0, 0, 0;
      vcOccupancy := seq(c.vcs, _ => 0);
      inUse, tailSent := seq(c.vcs, _ => false), seq(c.vcs, _ => false);
      privateOccupancy := seq(|c.privateSize|, _ => 0);
      reserved := seq(c.vcs, _ => 0);
      maxHeldSlots := if c.policy.Limited? then c.policy.slots else c.size;
    }

    // -------------------------------------------------------------- shared slots

    method ProcessFreeSlot(v: nat) returns (ok: bool)
      requires Valid() && v < config.vcs
      modifies this
      ensures ok == CreditBook.ProcessFreeSlot(config, old(View()), v).Some?
      ensures ok ==> Valid() && View() == CreditBook.ProcessFreeSlot(config, old(View()), v).value
    {
      var i := config.owner[v];
      privateOccupancy := privateOccupancy[i := privateOccupancy[i] - 1];
      if privateOccupancy[i] < 0 {
        return false;
      } else if privateOccupancy[i] >= config.privateSize[i] {
        sharedOccupancy := sharedOccupancy - 1;
        if sharedOccupancy < 0 {
          return false;
        }
      }
      return true;
    }

    method SharedSendingFlit(v: nat, tail: bool) returns (ok: bool)
      requires Valid() && v < config.vcs
      modifies this
      ensures ok == SharedSend(config, old(View()), v, tail).Some?
      ensures ok ==> Valid() && View() == SharedSend(config, old(View()), v, tail).value
    {
      if reserved[v] > 0 {
        reserved := reserved[v := reserved[v] - 1];
      } else {
        var i := config.owner[v];
        privateOccupancy := privateOccupancy[i := privateOccupancy[i] + 1];
        if privateOccupancy[i] > config.privateSize[i] {
          sharedOccupancy := sharedOccupancy + 1;
          if sharedOccupancy > config.sharedSize {
            return false;
          }
        }
      }
      if tail {
        ok := ReleaseAll(v);
      } else {
        ok := true;
      }
    }

    method ReleaseAll(v: nat) returns (ok: bool)
      requires Valid() && v < config.vcs
      modifies this
      ensures ok == ReleaseReserved(config, old(View()), v).Some?
      ensures ok ==> Valid() && View() == ReleaseReserved(config, old(View()), v).value
    {
      while reserved[v] > 0
        invariant Valid() && ReleaseReserved(config, View(), v) == ReleaseReserved(config, old(View()), v)
        decreases reserved[v]
      {
        reserved := reserved[v := reserved[v] - 1];
        ok := ProcessFreeSlot(v);
        if !ok {
          return false;
        }
      }
      return true;
    }

    // -------------------------------------------------------------- held-slot limits

    /** Halves the buffer size once for every bit of `active - 1`. */
    static method Shift(size: nat, active: nat) returns (slots: nat)
      requires active > 0
      ensures slots == Halved(size, active - 1)
    {
      var i := active - 1;
      slots := size;
      while i > 0
        invariant i >= 0 && Halved(slots, i) == Halved(size, active - 1)
        decreases i
      {
        slots := slots / 2;
        i := i / 2;
      }
    }

    method UpdateHeld()
      requires Valid() && activeVcs > 0
      modifies this`maxHeldSlots
      ensures View() == old(View()).(held := HeldFor(config, activeVcs, old(maxHeldSlots)))
    {
      if config.policy.Dynamic? {
        Arith.RemainderIs(config.size, activeVcs);
        maxHeldSlots := config.size / activeVcs;
      } else if config.policy.Shifting? {
        maxHeldSlots := Shift(config.size, activeVcs);
      }
    }

    // -------------------------------------------------------------- policy dispatch

    method PolicySendingFlit(v: nat, tail: bool) returns (ok: bool)
      requires Valid() && v < config.vcs
      modifies this
      ensures ok == PolicySend(config, old(View()), v, tail).Some?
      ensures ok ==> Valid() && View() == PolicySend(config, old(View()), v, tail).value
    {
      if config.policy.Private? {
        return vcOccupancy[v] <= config.policy.vcSize;
      }
      ok := SharedSendingFlit(v, tail);
      if !ok || !Counts(config.policy) {
        return ok;
      }
      if tail {
        activeVcs := activeVcs - 1;
        if activeVcs > 0 {
          UpdateHeld();
        }
      }
      return activeVcs >= 0 && (config.policy.Limited? || maxHeldSlots > 0);
    }

    method PolicyTakeBuffer() returns (ok: bool)
      requires Valid()
      modifies this
      ensures ok == PolicyTake(config, old(View())).Some?
      ensures ok ==> Valid() && View() == PolicyTake(config, old(View())).value
    {
      if !Counts(config.policy) {
        return true;
      }
      activeVcs := activeVcs + 1;
      if activeVcs > config.vcs {
        return false;
      }
      if activeVcs > 0 {
        UpdateHeld();
      }
      return config.policy.Limited? || (activeVcs > 0 && maxHeldSlots > 0);
    }

    method FreeSlotFor(v: nat) returns (ok: bool)
      requires Valid() && v < config.vcs
      modifies this
      ensures ok == PolicyFree(config, old(View()), v).Some?
      ensures ok ==> Valid() && View() == PolicyFree(config, old(View()), v).value
    {
      if config.policy.Private? {
        return true;
      }
      if inUse[v] && vcOccupancy[v] == 0 {
        reserved := reserved[v := reserved[v] + 1];
        ok := true;
      } else {
        ok := ProcessFreeSlot(v);
      }
    }

    // -------------------------------------------------------------- the interface

    method TakeBuffer(v: nat) returns (ok: bool)
      requires Valid() && v < config.vcs
      modifies this
      ensures ok == CreditBook.TakeBuffer(config, old(View()), v).Some?
      ensures ok ==> Valid() && View() == CreditBook.TakeBuffer(config, old(View()), v).value
    {
      if inUse[v] {
        return false;
      }
      inUse := inUse[v := true];
      tailSent := tailSent[v := false];
      ok := PolicyTakeBuffer();
    }

    method SendingFlit(v: nat, tail: bool) returns (ok: bool)
      requires Valid() && v < config.vcs
      modifies this
      ensures ok == CreditBook.SendingFlit(config, old(View()), v, tail).Some?
      ensures ok ==> Valid() && View() == CreditBook.SendingFlit(config, old(View()), v, tail).value
    {
      occupancy := occupancy + 1;
      if occupancy > config.size {
        return false;
      }
      vcOccupancy := vcOccupancy[v := vcOccupancy[v] + 1];
      ok := PolicySendingFlit(v, tail);
      if !ok {
        return false;
      }
      if tail {
        tailSent := tailSent[v := true];
        if !config.waitForTail {
          if !inUse[v] {
            return false;
          }
          inUse := inUse[v := false];
        }
      }
    }

    method FreeOne(v: nat) returns (ok: bool)
      requires Valid() && v < config.vcs
      modifies this
      ensures ok == FreeSlot(config, old(View()), v).Some?
      ensures ok ==> Valid() && View() == FreeSlot(config, old(View()), v).value
    {
      if config.waitForTail && !inUse[v] {
        return false;
      }
      occupancy := occupancy - 1;
      if occupancy < 0 {
        return false;
      }
      vcOccupancy := vcOccupancy[v := vcOccupancy[v] - 1];
      if vcOccupancy[v] < 0 {
        return false;
      }
      if config.waitForTail && vcOccupancy[v] == 0 && tailSent[v] {
        inUse := inUse[v := false];
      }
      ok := FreeSlotFor(v);
    }

    method ProcessCredit(credit: seq<nat>) returns (ok: bool)
      requires Valid() && forall i :: 0 <= i < |credit| ==> credit[i] < config.vcs
      modifies this
      ensures ok == CreditBook.ProcessCredit(config, old(View()), credit).Some?
      ensures ok ==> Valid() && View() == CreditBook.ProcessCredit(config, old(View()), credit).value
    {
      var i := 0;
      while i < |credit|
        invariant 0 <= i <= |credit| && Valid()
        invariant CreditBook.ProcessCredit(config, View(), credit[i..]) ==
            CreditBook.ProcessCredit(config, old(View()), credit)
      {
        ghost var rest := credit[i..];
        assert rest[0] == credit[i] && rest[1..] == credit[i + 1..];
        ok := FreeOne(credit[i]);
        if !ok {
          return false;
        }
        i := i + 1;
      }
      return true;
    }

    predicate FullFor(v: nat)
      requires Valid() && v < config.vcs
      reads this
    {
      IsFullFor(config, View(), v)
    }

    predicate AvailableFor(v: nat)
      requires Valid() && v < config.vcs
      reads this
    {
      !inUse[v]
    }
  }
}
