/** Translation between system cycles and memory cycles, in exact integer arithmetic. The
    64-bit overflow of very long simulations is not modelled. */
module DdrClock {
  import Arith

  /** What the constructor's check lets through. */
  predicate FrequenciesOk(sysKHz: nat, memKHz: nat) {
    memKHz > 0 && memKHz < sysKHz / 2
  }

  function SysToMem(sysKHz: nat, memKHz: nat, sysCycle: nat): nat
    requires sysKHz > 0
  {
    sysCycle * memKHz / sysKHz + 1
  }

  function MemToSys(sysKHz: nat, memKHz: nat, memCycle: nat): nat
    requires memKHz > 0
  {
    (memCycle + 1) * sysKHz / memKHz
  }

  /** A system cycle that should translate back to `memCycle`. */
  function MatchingMemToSys(sysKHz: nat, memKHz: nat, memCycle: nat): nat
    requires memKHz > 0 && memCycle >= 1
  {
    (2 * memCycle - 1) * sysKHz / memKHz / 2
  }

  lemma DivIs(y: nat, d: nat, k: nat)
    requires d > 0 && k * d <= y < (k + 1) * d
    ensures y / d == k
  {
    Arith.DivModIs(y - k * d, d, k);
  }

  /** Cancels a factor. */
  lemma MulLess(a: nat, b: nat, d: nat)
    requires a * d < b * d
    ensures a < b
  {
  }

  lemma DivMonotone(x: nat, y: nat, d: nat)
    requires d > 0 && x <= y
    ensures x / d <= y / d
  {
    assert x == x / d * d + x % d && y == y / d * d + y % d;
    assert (y / d + 1) * d == y / d * d + d;
    MulLess(x / d, y / d + 1, d);
  }

  lemma SysToMemMonotone(sysKHz: nat, memKHz: nat, a: nat, b: nat)
    requires sysKHz > 0 && a <= b
    ensures SysToMem(sysKHz, memKHz, a) <= SysToMem(sysKHz, memKHz, b)
  {
    assert a * memKHz <= b * memKHz;
    DivMonotone(a * memKHz, b * memKHz, sysKHz);
  }

  /** The two roundings, taken apart: halving a quotient loses less than two divisors. */
  lemma HalfQuotient(a: nat, d: nat)
    requires d > 0
    ensures var q := a / d / 2; 2 * (q * d) <= a < 2 * (q * d) + 2 * d
  {
    var x := a / d;
    var q := x / 2;
    assert a == x * d + a % d;
    assert x == 2 * q || x == 2 * q + 1;
    assert x == 2 * q ==> x * d == 2 * (q * d);
    assert x == 2 * q + 1 ==> x * d == 2 * (q * d) + d;
  }

  /** Every memory cycle from 1 on survives the round trip through system cycles. */
  lemma RoundTrip(sysKHz: nat, memKHz: nat, m: nat)
    requires FrequenciesOk(sysKHz, memKHz) && m >= 1
    ensures SysToMem(sysKHz, memKHz, MatchingMemToSys(sysKHz, memKHz, m)) == m
  {
    var a := (2 * m - 1) * sysKHz;
    var q := MatchingMemToSys(sysKHz, memKHz, m);
    HalfQuotient(a, memKHz);
    assert 2 * memKHz < sysKHz;
    var b := (m - 1) * sysKHz;
    assert a == 2 * b + sysKHz;
    assert m * sysKHz == b + sysKHz;
    DivIs(q * memKHz, sysKHz, m - 1);
  }

  /** The controller wakes itself for memory cycle `m` at the later of the matching system cycle
      and now. It then finds itself at memory cycle `m` exactly when `m` is not already past. */
  lemma WakeUpMatches(sysKHz: nat, memKHz: nat, m: nat, now: nat)
    requires FrequenciesOk(sysKHz, memKHz) && m >= 1
    ensures var back := MatchingMemToSys(sysKHz, memKHz, m);
      SysToMem(sysKHz, memKHz, if back >= now then back else now) == m <==> SysToMem(sysKHz, memKHz, now) <= m
  {
    var back := MatchingMemToSys(sysKHz, memKHz, m);
    RoundTrip(sysKHz, memKHz, m);
    if back >= now {
      SysToMemMonotone(sysKHz, memKHz, now, back);
    } else {
      SysToMemMonotone(sysKHz, memKHz, back, now);
    }
  }

  /** A burst that ends in the current memory cycle or later answers no earlier than now. */
  lemma BurstNotPast(sysKHz: nat, memKHz: nat, now: nat, m: nat)
    requires FrequenciesOk(sysKHz, memKHz) && m >= SysToMem(sysKHz, memKHz, now)
    ensures MemToSys(sysKHz, memKHz, m) >= now
  {
    var a := now * memKHz;
    assert a == a / sysKHz * sysKHz + a % sysKHz;
    Arith.MulLe(sysKHz, a / sysKHz + 1, m + 1);
    assert (a / sysKHz + 1) * sysKHz == a / sysKHz * sysKHz + sysKHz;
    DivMonotone(a, (m + 1) * sysKHz, memKHz);
    DivIs(a, memKHz, now);
  }

  /** No wake-up is ever due at system cycle 0, which the event would take for none. */
  lemma MatchingPositive(sysKHz: nat, memKHz: nat, m: nat)
    requires FrequenciesOk(sysKHz, memKHz) && m >= 1
    ensures MatchingMemToSys(sysKHz, memKHz, m) > 0
  {
    Arith.MulLe(sysKHz, 1, 2 * m - 1);
    DivMonotone(2 * memKHz, (2 * m - 1) * sysKHz, memKHz);
    DivIs(2 * memKHz, memKHz, 2);
  }

  /** The controller's pending wake-up: the memory cycle it is for and the system cycle it was
      queued at. */
  datatype Alarm = Alarm(memCycle: nat, sysCycle: nat)
}
