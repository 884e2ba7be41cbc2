/** Command timing of the DDR controller. Serving a request issues at most one ACT and exactly
    one column command; a log of all commands issued lets the timing rules be stated over
    whole runs. All cycles are memory cycles. */
module DdrTimingSpec {
  import opened ActWindowSpec

  datatype Tech = Tech(
    tBL: nat, tCL: nat, tRCD: nat, tRTP: nat, tRP: nat, tRRD: nat, tRAS: nat, tFAW: nat,
    tWTR: nat, tWR: nat, tRFC: nat)

  /** What the source asserts of the parameters. */
  predicate TechOk(t: Tech) {
    && t.tBL > 0 && t.tCL > 0 && t.tRCD > 0 && t.tRTP > 0 && t.tRP > 0 && t.tRRD > 0 && t.tRAS > 0
    && t.tFAW > 0 && t.tWTR > 0 && t.tWR > 0 && t.tRFC >= t.tRP
  }

  datatype Bank = Bank(openRow: nat, open: bool, minPre: nat, lastAct: nat, lastCmd: nat, curHits: nat)

  datatype Req = Req(rank: nat, bank: nat, row: nat, write: bool, arrival: nat, hit: nat)

  datatype Cmd =
    | Act(rank: nat, bank: nat, row: nat, cycle: nat)
    | Col(rank: nat, bank: nat, row: nat, write: bool, cycle: nat)
    | Ref(done: nat)

  datatype State = State(
    banks: seq<seq<Bank>>, windows: seq<seq<nat>>, minResp: nat, lastWrite: bool, log: seq<Cmd>)

  predicate Shape(s: State) {
    |s.windows| == |s.banks| && forall i | 0 <= i < |s.windows| :: |s.windows[i]| == 4
  }

  predicate Located(s: State, r: Req) {
    Shape(s) && r.rank < |s.banks| && r.bank < |s.banks[r.rank]|
  }

  function Max(a: nat, b: nat): nat { if a >= b then a else b }

  // ---------------------------------------------------------------- when a request can go

  function BankOf(s: State, r: Req): Bank
    requires Located(s, r)
  {
    s.banks[r.rank][r.bank]
  }

  predicate RowHit(b: Bank, row: nat) { row == b.openRow && b.open }

  function PreCycle(b: Bank, r: Req): nat {
    if b.open then Max(r.arrival, b.minPre) else b.minPre
  }

  /** The cycle of the ACT a row miss needs. */
  function ActCycle(t: Tech, s: State, r: Req): nat
    requires Located(s, r)
  {
    var b := BankOf(s, r);
    Max(Max(r.arrival, Max(PreCycle(b, r) + t.tRP, b.lastAct + t.tRRD)), s.windows[r.rank][0] + t.tFAW)
  }

  /** The earliest cycle the request's column command is ready for. */
  function MinCmdCycle(t: Tech, s: State, r: Req): nat
    requires Located(s, r)
  {
    if RowHit(BankOf(s, r), r.row) then Max(r.arrival, BankOf(s, r).lastCmd + 1)
    else ActCycle(t, s, r) + t.tRCD
  }

  // ---------------------------------------------------------------- serving a request

  function SetBank(s: State, rank: nat, bank: nat, b: Bank): State
    requires rank < |s.banks| && bank < |s.banks[rank]|
  {
    s.(banks := s.banks[rank := s.banks[rank][bank := b]])
  }

  /** A row miss precharges if necessary and activates the row. */
  function Activate(t: Tech, s: State, r: Req): (s': State)
    requires Located(s, r)
    ensures Located(s', r)
  {
    var b := BankOf(s, r);
    var act := ActCycle(t, s, r);
    var b' := b.(open := true, openRow := r.row, lastAct := act,
                 minPre := if b.open then PreCycle(b, r) + t.tRAS else b.minPre);
    SetBank(s, r.rank, r.bank, b').(
      windows := s.windows[r.rank := Add(s.windows[r.rank], act)],
      log := s.log + [Act(r.rank, r.bank, r.row, act)])
  }

  /** Issues the column command no earlier than `floor`. `close` is auto-precharge. */
  function Issue(t: Tech, s: State, r: Req, floor: nat, close: bool): (s': State)
    requires Located(s, r)
    ensures Located(s', r)
  {
    var b := BankOf(s, r);
    var cmd := Max(floor, if s.minResp >= t.tCL then s.minResp - t.tCL else 0);
    var resp := cmd + t.tCL + t.tBL;
    var pre := Max(b.minPre, Max(b.lastAct + t.tRAS, if r.write then resp + t.tWR else cmd + t.tRTP));
    SetBank(s, r.rank, r.bank, b.(open := b.open && !close, minPre := pre, lastCmd := cmd, curHits := r.hit)).(
      minResp := resp, lastWrite := r.write,
      log := s.log + [Col(r.rank, r.bank, r.row, r.write, cmd)])
  }

  /** Bus constraints that do not depend on the bank. */
  function BusFloor(t: Tech, s: State, r: Req, cur: nat): nat {
    var free := Max(cur, if s.minResp >= t.tCL then s.minResp - t.tCL else 0);
    if s.lastWrite && !r.write then Max(free, s.minResp + t.tWTR) else free
  }

  function Serve(t: Tech, s: State, r: Req, cur: nat, close: bool): (s': State)
    requires Located(s, r)
    ensures Located(s', r)
  {
    var floor := BusFloor(t, s, r, cur);
    if RowHit(BankOf(s, r), r.row) then Issue(t, s, r, floor, close)
    else Issue(t, Activate(t, s, r), r, Max(floor, ActCycle(t, s, r) + t.tRCD), close)
  }

  // ---------------------------------------------------------------- refresh

  function RankReady(rank: seq<Bank>, n: nat, acc: nat): (m: nat)
    requires n <= |rank|
    ensures m >= acc && forall i :: 0 <= i < n ==> m >= rank[i].minPre && m >= rank[i].lastCmd
  {
    if n == 0 then acc
    else Max(RankReady(rank, n - 1, acc), Max(rank[n - 1].minPre, rank[n - 1].lastCmd))
  }

  /** The first cycle at which all banks of the first `n` ranks can be refreshed. */
  function AllReady(banks: seq<seq<Bank>>, n: nat, acc: nat): (m: nat)
    requires n <= |banks|
    ensures m >= acc && forall k, i :: 0 <= k < n && 0 <= i < |banks[k]| ==>
        m >= banks[k][i].minPre && m >= banks[k][i].lastCmd
  {
    if n == 0 then acc else RankReady(banks[n - 1], |banks[n - 1]|, AllReady(banks, n - 1, acc))
  }

  function RefreshBank(b: Bank, pre: nat): Bank { b.(minPre := pre, open := false) }

  function RefreshRank(rank: seq<Bank>, pre: nat): (r: seq<Bank>)
    ensures |r| == |rank|
  {
    seq(|rank|, i requires 0 <= i < |rank| => RefreshBank(rank[i], pre))
  }

  function Refresh(t: Tech, s: State, cur: nat): (s': State)
    requires Shape(s) && t.tRFC >= t.tRP
    ensures Shape(s')
  {
    var done := AllReady(s.banks, |s.banks|, cur) + t.tRFC;
    s.(banks := seq(|s.banks|, k requires 0 <= k < |s.banks| => RefreshRank(s.banks[k], done - t.tRP)),
       log := s.log + [Ref(done)])
  }

  // ---------------------------------------------------------------- the timing rules

  predicate SameBank(a: Cmd, b: Cmd)
    requires !a.Ref? && !b.Ref?
  {
    a.rank == b.rank && a.bank == b.bank
  }

  /** How long after a column command its bank may be precharged. */
  function Recovery(t: Tech, write: bool): nat {
    if write then t.tCL + t.tBL + t.tWR else t.tRTP
  }

  /** The rules between an earlier command `a` and a later one `b` of the log. */
  predicate PairOk(t: Tech, a: Cmd, b: Cmd) {
    // data bursts never overlap
    && (a.Col? && b.Col? ==> b.cycle >= a.cycle + t.tBL)
    // a read after a write waits for the end of the burst and tWTR
    && (a.Col? && b.Col? && a.write && !b.write ==> b.cycle >= a.cycle + t.tCL + t.tBL + t.tWTR)
    // a bank's ACTs leave room for the row to be open and to be precharged
    && (a.Act? && b.Act? && SameBank(a, b) ==> b.cycle >= a.cycle + t.tRAS + t.tRP)
    // a bank is activated only after its last access has recovered and been precharged
    && (a.Col? && b.Act? && SameBank(a, b) ==> b.cycle >= a.cycle + Recovery(t, a.write) + t.tRP)
    // nothing is activated before a refresh is over
    && (a.Ref? && b.Act? ==> b.cycle >= a.done)
  }

  /** The row of column command `j` was activated at least tRCD before, and its bank was neither
      activated again nor refreshed in between. */
  ghost predicate Opened(t: Tech, log: seq<Cmd>, j: nat, c: Cmd)
    requires j <= |log| && c.Col?
  {
    exists i :: 0 <= i < j && Opener(log, i, j, c) && c.cycle >= log[i].cycle + t.tRCD
  }

  predicate Opener(log: seq<Cmd>, i: nat, j: nat, c: Cmd)
    requires i < j <= |log| && c.Col?
  {
    && log[i].Act? && SameBank(log[i], c) && log[i].row == c.row
    && forall k | i < k < j :: log[k].Col? || (log[k].Act? && !SameBank(log[k], c))
  }

  ghost predicate LogOk(t: Tech, log: seq<Cmd>) {
    && (forall i, j :: 0 <= i < j < |log| ==> PairOk(t, log[i], log[j]))
    && (forall j :: 0 <= j < |log| && log[j].Col? ==> Opened(t, log, j, log[j]))
  }

  /** The ACT cycles of one rank, in issue order. */
  function Acts(log: seq<Cmd>, rank: nat): seq<nat> {
    if log == [] then []
    else
      var c := log[|log| - 1];
      Acts(log[..|log| - 1], rank) + if c.Act? && c.rank == rank then [c.cycle] else []
  }

  // ---------------------------------------------------------------- the invariant

  /** What bank `(k, m)` remembers of the commands issued so far. */
  ghost predicate BankOk(t: Tech, b: Bank, k: nat, m: nat, log: seq<Cmd>) {
    && b.lastCmd <= b.minPre
    && (forall i :: 0 <= i < |log| ==> Remembered(t, b, k, m, log[i]))
    && (b.open ==> exists i :: 0 <= i < |log| && OpenedBy(b, k, m, log, i))
    && (b.open ==> b.lastCmd >= b.lastAct + t.tRCD)
  }

  predicate Remembered(t: Tech, b: Bank, k: nat, m: nat, c: Cmd) {
    && (c.Act? && c.rank == k && c.bank == m ==> c.cycle + t.tRAS <= b.minPre && c.cycle <= b.lastAct)
    && (c.Col? && c.rank == k && c.bank == m ==> c.cycle + Recovery(t, c.write) <= b.minPre)
    && (c.Ref? ==> c.done <= b.minPre + t.tRP)
  }

  /** Log entry `i` opened the bank's current row. */
  predicate OpenedBy(b: Bank, k: nat, m: nat, log: seq<Cmd>, i: nat)
    requires i < |log|
  {
    && log[i] == Act(k, m, b.openRow, b.lastAct)
    && forall j | i < j < |log| :: log[j].Col? || (log[j].Act? && !(log[j].rank == k && log[j].bank == m))
  }

  /** What the bus remembers. */
  ghost predicate BusOk(t: Tech, s: State) {
    && s.minResp >= t.tCL + t.tBL
    && forall i :: 0 <= i < |s.log| && s.log[i].Col? ==>
         && s.log[i].cycle + t.tCL + t.tBL <= s.minResp
         && (s.log[i].write && !s.lastWrite ==> s.log[i].cycle + t.tCL + t.tBL + t.tWTR + t.tCL <= s.minResp)
  }

  ghost predicate WindowsOk(t: Tech, s: State)
    requires Shape(s)
  {
    forall k :: 0 <= k < |s.windows| ==>
      Spaced(4, t.tFAW, Acts(s.log, k)) && s.windows[k] == After(4, Acts(s.log, k))
  }

  ghost predicate Good(t: Tech, s: State) {
    && Shape(s) && LogOk(t, s.log) && BusOk(t, s) && WindowsOk(t, s)
    && forall k, m :: 0 <= k < |s.banks| && 0 <= m < |s.banks[k]| ==> BankOk(t, s.banks[k][m], k, m, s.log)
  }

  // ---------------------------------------------------------------- extending the log

  lemma ActsAppend(log: seq<Cmd>, c: Cmd, rank: nat)
    ensures Acts(log + [c], rank) == Acts(log, rank) + if c.Act? && c.rank == rank then [c.cycle] else []
  {
    assert (log + [c])[..|log|] == log;
  }

  lemma AppendAct(t: Tech, log: seq<Cmd>, a: Cmd)
    requires LogOk(t, log) && a.Act?
    requires forall i :: 0 <= i < |log| ==> PairOk(t, log[i], a)
    ensures LogOk(t, log + [a])
  {
    OpenedStays(t, log, a);
  }

  lemma AppendRef(t: Tech, log: seq<Cmd>, a: Cmd)
    requires LogOk(t, log) && a.Ref?
    ensures LogOk(t, log + [a])
  {
    OpenedStays(t, log, a);
  }

  lemma AppendCol(t: Tech, log: seq<Cmd>, a: Cmd)
    requires LogOk(t, log) && a.Col?
    requires forall i :: 0 <= i < |log| ==> PairOk(t, log[i], a)
    requires Opened(t, log, |log|, a)
    ensures LogOk(t, log + [a])
  {
    OpenedStays(t, log, a);
    OpenedSame(t, log, log + [a], |log|, a);
  }

  lemma OpenedSame(t: Tech, log: seq<Cmd>, log': seq<Cmd>, j: nat, c: Cmd)
    requires j <= |log| && j <= |log'| && log[..j] == log'[..j] && c.Col? && Opened(t, log, j, c)
    ensures Opened(t, log', j, c)
  {
    var i :| 0 <= i < j && Opener(log, i, j, c) && c.cycle >= log[i].cycle + t.tRCD;
    assert forall k :: 0 <= k < j ==> log[..j][k] == log[k] && log'[..j][k] == log'[k];
    assert Opener(log', i, j, c);
  }

  lemma OpenedStays(t: Tech, log: seq<Cmd>, a: Cmd)
    requires LogOk(t, log)
    ensures forall j :: 0 <= j < |log| && log[j].Col? ==> Opened(t, log + [a], j, log[j])
  {
    forall j | 0 <= j < |log| && log[j].Col?
      ensures Opened(t, log + [a], j, log[j])
    {
      OpenedSame(t, log, log + [a], j, log[j]);
    }
  }

  // ---------------------------------------------------------------- activation

  /** The ACT of a row miss meets every rule against everything issued before. */
  lemma ActFits(t: Tech, s: State, r: Req)
    requires Good(t, s) && Located(s, r)
    ensures forall i :: 0 <= i < |s.log| ==> PairOk(t, s.log[i], Act(r.rank, r.bank, r.row, ActCycle(t, s, r)))
  {
    var b := BankOf(s, r);
    assert BankOk(t, b, r.rank, r.bank, s.log);
    forall i | 0 <= i < |s.log|
      ensures PairOk(t, s.log[i], Act(r.rank, r.bank, r.row, ActCycle(t, s, r)))
    {
      assert Remembered(t, b, r.rank, r.bank, s.log[i]);
    }
  }

  lemma ActivateWindows(t: Tech, s: State, r: Req)
    requires Shape(s) && WindowsOk(t, s) && Located(s, r)
    ensures WindowsOk(t, Activate(t, s, r))
  {
    var s' := Activate(t, s, r);
    var a := Act(r.rank, r.bank, r.row, ActCycle(t, s, r));
    forall k | 0 <= k < |s'.windows|
      ensures Spaced(4, t.tFAW, Acts(s'.log, k)) && s'.windows[k] == After(4, Acts(s'.log, k))
    {
      ActsAppend(s.log, a, k);
      if k == r.rank {
        assert Acts(s'.log, k)[..|Acts(s'.log, k)| - 1] == Acts(s.log, k);
      } else {
        assert Acts(s'.log, k) == Acts(s.log, k);
      }
    }
  }

  /** A bank is untouched by a command that belongs to another bank. */
  lemma OtherBankOk(t: Tech, b: Bank, k: nat, m: nat, log: seq<Cmd>, c: Cmd)
    requires BankOk(t, b, k, m, log)
    requires c.Col? || c.Act?
    requires c.rank != k || c.bank != m
    ensures BankOk(t, b, k, m, log + [c])
  {
    if b.open {
      var i :| 0 <= i < |log| && OpenedBy(b, k, m, log, i);
      assert OpenedBy(b, k, m, log + [c], i);
    }
  }

  /** The state between the ACT and the column command of one request. */
  ghost predicate Activated(t: Tech, s: State, r: Req) {
    && Located(s, r) && LogOk(t, s.log) && BusOk(t, s) && WindowsOk(t, s)
    && (forall k, m :: 0 <= k < |s.banks| && 0 <= m < |s.banks[k]| && (k != r.rank || m != r.bank) ==>
          BankOk(t, s.banks[k][m], k, m, s.log))
    && BankReady(t, BankOf(s, r), r, s.log)
  }

  /** What the request's own bank must offer for its column command. */
  ghost predicate BankReady(t: Tech, b: Bank, r: Req, log: seq<Cmd>) {
    && RowHit(b, r.row)
    && b.lastCmd <= b.minPre
    && (forall i :: 0 <= i < |log| ==>
        Remembered(t, b.(minPre := Max(b.minPre, b.lastAct + t.tRAS)), r.rank, r.bank, log[i]))
    && exists i :: 0 <= i < |log| && OpenedBy(b, r.rank, r.bank, log, i)
  }

  lemma ActivateReady(t: Tech, s: State, r: Req)
    requires Good(t, s) && Located(s, r)
    ensures var s' := Activate(t, s, r); BankReady(t, BankOf(s', r), r, s'.log)
  {
    var b := BankOf(s, r);
    var s' := Activate(t, s, r);
    var b' := BankOf(s', r);
    assert BankOk(t, b, r.rank, r.bank, s.log);
    assert OpenedBy(b', r.rank, r.bank, s'.log, |s.log|);
    forall i | 0 <= i < |s'.log|
      ensures Remembered(t, b'.(minPre := Max(b'.minPre, b'.lastAct + t.tRAS)), r.rank, r.bank, s'.log[i])
    {
      if i < |s.log| { assert Remembered(t, b, r.rank, r.bank, s.log[i]); }
    }
  }

  lemma ActivateGood(t: Tech, s: State, r: Req)
    requires Good(t, s) && Located(s, r)
    ensures Activated(t, Activate(t, s, r), r)
  {
    var s' := Activate(t, s, r);
    var a := Act(r.rank, r.bank, r.row, ActCycle(t, s, r));
    ActFits(t, s, r);
    AppendAct(t, s.log, a);
    ActivateWindows(t, s, r);
    ActivateReady(t, s, r);
    forall k, m | 0 <= k < |s'.banks| && 0 <= m < |s'.banks[k]| && (k != r.rank || m != r.bank)
      ensures BankOk(t, s'.banks[k][m], k, m, s'.log)
    {
      assert s'.banks[k][m] == s.banks[k][m];
      OtherBankOk(t, s.banks[k][m], k, m, s.log, a);
    }
  }

  // ---------------------------------------------------------------- the column command

  lemma ColFits(t: Tech, s: State, r: Req, cmd: nat)
    requires BusOk(t, s) && cmd + t.tCL >= s.minResp
    requires s.lastWrite && !r.write ==> cmd >= s.minResp + t.tWTR
    ensures forall i :: 0 <= i < |s.log| ==> PairOk(t, s.log[i], Col(r.rank, r.bank, r.row, r.write, cmd))
  {
  }

  lemma IssueGood(t: Tech, s: State, r: Req, floor: nat, close: bool)
    requires TechOk(t) && Activated(t, s, r)
    requires floor >= BankOf(s, r).lastAct + t.tRCD
    requires s.lastWrite && !r.write ==> floor >= s.minResp + t.tWTR
    ensures Good(t, Issue(t, s, r, floor, close))
  {
    var s' := Issue(t, s, r, floor, close);
    var b := BankOf(s, r);
    var cmd := Max(floor, s.minResp - t.tCL);
    var c := Col(r.rank, r.bank, r.row, r.write, cmd);
    assert s'.log == s.log + [c];
    ColFits(t, s, r, cmd);
    var i :| 0 <= i < |s.log| && OpenedBy(b, r.rank, r.bank, s.log, i);
    assert Opener(s.log, i, |s.log|, c);
    AppendCol(t, s.log, c);
    assert BusOk(t, s');
    IssueWindows(t, s, s', c);
    IssueBank(t, b, BankOf(s', r), r, s.log, c);
    forall k, m | 0 <= k < |s'.banks| && 0 <= m < |s'.banks[k]|
      ensures BankOk(t, s'.banks[k][m], k, m, s'.log)
    {
      if k != r.rank || m != r.bank {
        assert s'.banks[k][m] == s.banks[k][m];
        OtherBankOk(t, s.banks[k][m], k, m, s.log, c);
      }
    }
  }

  lemma IssueWindows(t: Tech, s: State, s': State, c: Cmd)
    requires Shape(s) && Shape(s') && WindowsOk(t, s) && s'.windows == s.windows && s'.log == s.log + [c] && !c.Act?
    ensures WindowsOk(t, s')
  {
    forall k | 0 <= k < |s'.windows|
      ensures Acts(s'.log, k) == Acts(s.log, k)
    {
      ActsAppend(s.log, c, k);
    }
  }

  lemma IssueBank(t: Tech, b: Bank, b': Bank, r: Req, log: seq<Cmd>, c: Cmd)
    requires BankReady(t, b, r, log) && c.Col? && c.rank == r.rank && c.bank == r.bank
    requires c.cycle >= b.lastAct + t.tRCD
    requires b'.openRow == b.openRow && b'.lastAct == b.lastAct && (b'.open ==> b.open)
    requires b'.lastCmd == c.cycle && b'.minPre >= c.cycle + Recovery(t, c.write)
    requires b'.minPre >= b.minPre && b'.minPre >= b.lastAct + t.tRAS
    ensures BankOk(t, b', r.rank, r.bank, log + [c])
  {
    forall i | 0 <= i < |log|
      ensures Remembered(t, b', r.rank, r.bank, log[i])
    {
      assert Remembered(t, b.(minPre := Max(b.minPre, b.lastAct + t.tRAS)), r.rank, r.bank, log[i]);
    }
    var i :| 0 <= i < |log| && OpenedBy(b, r.rank, r.bank, log, i);
    assert b'.open ==> OpenedBy(b', r.rank, r.bank, log + [c], i);
  }

  // ---------------------------------------------------------------- each step, proved

  /** When the controller serves a request: it is ready, and the bus is not booked too far ahead. */
  predicate CanServe(t: Tech, s: State, r: Req, cur: nat) {
    Located(s, r) && MinCmdCycle(t, s, r) <= cur && cur + t.tCL >= s.minResp
  }

  /** Serving any ready request keeps every rule, and the column command it issues is later
      than the bank's previous one, as the source asserts. */
  lemma ServeGood(t: Tech, s: State, r: Req, cur: nat, close: bool)
    requires TechOk(t) && Good(t, s) && CanServe(t, s, r, cur)
    ensures Good(t, Serve(t, s, r, cur, close))
    ensures BankOf(s, r).lastCmd < BankOf(Serve(t, s, r, cur, close), r).lastCmd
  {
    var b := BankOf(s, r);
    assert BankOk(t, b, r.rank, r.bank, s.log);
    if RowHit(b, r.row) {
      assert Activated(t, s, r) by {
        forall i | 0 <= i < |s.log|
          ensures Remembered(t, b.(minPre := Max(b.minPre, b.lastAct + t.tRAS)), r.rank, r.bank, s.log[i])
        {
          assert Remembered(t, b, r.rank, r.bank, s.log[i]);
        }
      }
      IssueGood(t, s, r, BusFloor(t, s, r, cur), close);
    } else {
      ActivateGood(t, s, r);
      IssueGood(t, Activate(t, s, r), r, Max(BusFloor(t, s, r, cur), ActCycle(t, s, r) + t.tRCD), close);
    }
  }

  /** Refreshing closes every bank and keeps every rule; no later ACT can precede its end. */
  lemma RefreshGood(t: Tech, s: State, cur: nat)
    requires TechOk(t) && Good(t, s)
    ensures Good(t, Refresh(t, s, cur))
  {
    var s' := Refresh(t, s, cur);
    var done := AllReady(s.banks, |s.banks|, cur) + t.tRFC;
    AppendRef(t, s.log, Ref(done));
    IssueWindows(t, s, s', Ref(done));
    forall k, m | 0 <= k < |s'.banks| && 0 <= m < |s'.banks[k]|
      ensures BankOk(t, s'.banks[k][m], k, m, s'.log)
    {
      var b := s.banks[k][m];
      assert s'.banks[k][m] == RefreshBank(b, done - t.tRP);
      assert BankOk(t, b, k, m, s.log);
      forall i | 0 <= i < |s'.log|
        ensures Remembered(t, s'.banks[k][m], k, m, s'.log[i])
      {
        if i < |s.log| { assert Remembered(t, b, k, m, s.log[i]); }
      }
    }
  }

  // ---------------------------------------------------------------- whole runs

  datatype Event = ServeIt(r: Req, cur: nat, close: bool) | RefreshIt(cur: nat)

  predicate Enabled(t: Tech, s: State, e: Event) {
    match e
    case ServeIt(r, cur, _) => CanServe(t, s, r, cur)
    case RefreshIt(_) => Shape(s)
  }

  function Next(t: Tech, s: State, e: Event): State
    requires TechOk(t) && Enabled(t, s, e)
  {
    match e
    case ServeIt(r, cur, close) => Serve(t, s, r, cur, close)
    case RefreshIt(cur) => Refresh(t, s, cur)
  }

  ghost predicate IsRun(t: Tech, trace: seq<State>, es: seq<Event>)
    requires TechOk(t)
  {
    && |trace| == |es| + 1
    && forall k :: 0 <= k < |es| ==> Enabled(t, trace[k], es[k]) && trace[k + 1] == Next(t, trace[k], es[k])
  }

  function Initial(t: Tech, ranks: nat, banks: nat): State {
    State(seq(ranks, k => seq(banks, m => Bank(0, false, 0, 0, 0, 0))), seq(ranks, k => Zeros(4)),
          t.tCL + t.tBL + 1, false, [])
  }

  lemma InitialGood(t: Tech, ranks: nat, banks: nat)
    ensures Good(t, Initial(t, ranks, banks))
  {
  }

  /** Over every run of served requests and refreshes, whatever the requests, the cycles and
      the page policy: all timing rules hold between all commands issued. */
  lemma {:induction false} EveryRunInTime(t: Tech, trace: seq<State>, es: seq<Event>, k: nat)
    requires TechOk(t) && IsRun(t, trace, es) && Good(t, trace[0]) && k < |trace|
    ensures Good(t, trace[k]) && LogOk(t, trace[k].log)
  {
    if k > 0 {
      EveryRunInTime(t, trace, es, k - 1);
      match es[k - 1]
      case ServeIt(r, cur, close) => ServeGood(t, trace[k - 1], r, cur, close);
      case RefreshIt(cur) => RefreshGood(t, trace[k - 1], cur);
    }
  }

  /** No five activations of a rank fit into less than tFAW, in any run. */
  lemma FourActivateWindow(t: Tech, trace: seq<State>, es: seq<Event>, k: nat, rank: nat, pick: seq<nat>)
    requires TechOk(t) && IsRun(t, trace, es) && Good(t, trace[0]) && k < |trace| && rank < |trace[k].banks|
    requires |pick| == 5 && forall i :: 0 <= i < 5 ==> pick[i] < |Acts(trace[k].log, rank)|
    requires forall i, j :: 0 <= i < j < 5 ==> pick[i] < pick[j]
    ensures var a := Acts(trace[k].log, rank);
      exists i, j :: 0 <= i < j < 5 && a[pick[j]] >= a[pick[i]] + t.tFAW
  {
    EveryRunInTime(t, trace, es, k);
    WindowHolds(4, t.tFAW, Acts(trace[k].log, rank), pick);
  }
}
