/** The DDR controller is as fast as its rules allow: every command it issues comes at the least
    cycle that they permit, given the commands issued before. */
module DdrEarliest {
  import opened Option
  import opened ActWindowSpec
  import opened DdrTimingSpec

  // ---------------------------------------------------------------- what the log asks of a bank

  /** How long a command keeps the bank from being precharged. */
  function Holds(t: Tech, c: Cmd, k: nat, m: nat): nat {
    match c
    case Act(rank, bank, _, cycle) => if rank == k && bank == m then cycle + t.tRAS else 0
    case Col(rank, bank, _, write, cycle) => if rank == k && bank == m then cycle + Recovery(t, write) else 0
    case Ref(done) => if done >= t.tRP then done - t.tRP else 0
  }

  /** The earliest precharge the log allows. */
  function LogPre(t: Tech, log: seq<Cmd>, k: nat, m: nat): nat {
    if log == [] then 0
    else Max(LogPre(t, log[..|log| - 1], k, m), Holds(t, log[|log| - 1], k, m))
  }

  /** The bank's last activation, 0 if it has had none. */
  function LogAct(log: seq<Cmd>, k: nat, m: nat): nat {
    if log == [] then 0
    else
      var c := log[|log| - 1];
      if c.Act? && c.rank == k && c.bank == m then c.cycle else LogAct(log[..|log| - 1], k, m)
  }

  /** The last column command. */
  function LastCol(log: seq<Cmd>): Option<Cmd> {
    if log == [] then None
    else if log[|log| - 1].Col? then Some(log[|log| - 1])
    else LastCol(log[..|log| - 1])
  }

  /** What a bank remembers is no more than the log asks. */
  ghost predicate BankTight(t: Tech, b: Bank, k: nat, m: nat, log: seq<Cmd>) {
    b.minPre == LogPre(t, log, k, m) && b.lastAct == LogAct(log, k, m)
  }

  ghost predicate BusTight(t: Tech, s: State) {
    match LastCol(s.log)
    case None => s.minResp == t.tCL + t.tBL + 1 && !s.lastWrite
    case Some(c) => c.Col? && s.minResp == c.cycle + t.tCL + t.tBL && s.lastWrite == c.write && c.cycle >= t.tBL + 1
  }

  ghost predicate Tight(t: Tech, s: State) {
    && Good(t, s) && BusTight(t, s)
    && forall k, m :: 0 <= k < |s.banks| && 0 <= m < |s.banks[k]| ==> BankTight(t, s.banks[k][m], k, m, s.log)
  }

  lemma Extended(t: Tech, log: seq<Cmd>, c: Cmd, k: nat, m: nat)
    ensures LogPre(t, log + [c], k, m) == Max(LogPre(t, log, k, m), Holds(t, c, k, m))
    ensures LogAct(log + [c], k, m) == if c.Act? && c.rank == k && c.bank == m then c.cycle else LogAct(log, k, m)
    ensures LastCol(log + [c]) == if c.Col? then Some(c) else LastCol(log)
  {
    assert (log + [c])[..|log|] == log;
  }

  // ---------------------------------------------------------------- the log's demands, rule by rule

  /** The rules against everything issued before, put together: an activation may come at cycle x
      exactly when the bank's earliest precharge and tRP are behind it. */
  lemma {:induction false} ActPairsIff(t: Tech, log: seq<Cmd>, k: nat, m: nat, row: nat, x: nat)
    ensures (x >= t.tRP && forall i :: 0 <= i < |log| ==> PairOk(t, log[i], Act(k, m, row, x))) <==>
            x >= LogPre(t, log, k, m) + t.tRP
  {
    if log != [] {
      var n := |log| - 1;
      ActPairsIff(t, log[..n], k, m, row, x);
      assert forall i :: 0 <= i < n ==> log[..n][i] == log[i];
      assert x >= t.tRP ==> (PairOk(t, log[n], Act(k, m, row, x)) <==> x >= Holds(t, log[n], k, m) + t.tRP);
    }
  }

  /** An activation comes at the least cycle that meets: every rule against the commands issued
      before, the distance from the bank's last activation, the four-activate window, the request's
      own arrival, and a precharge, which is not issued for it before it has arrived. */
  lemma ActIsEarliest(t: Tech, s: State, r: Req, x: nat)
    requires Tight(t, s) && Located(s, r)
    ensures x >= ActCycle(t, s, r) <==>
      && x >= r.arrival + (if BankOf(s, r).open then t.tRP else 0) && x >= t.tRP
      && (forall i :: 0 <= i < |s.log| ==> PairOk(t, s.log[i], Act(r.rank, r.bank, r.row, x)))
      && x >= LogAct(s.log, r.rank, r.bank) + t.tRRD
      && x >= After(4, Acts(s.log, r.rank))[0] + t.tFAW
  {
    assert BankTight(t, BankOf(s, r), r.rank, r.bank, s.log);
    ActPairsIff(t, s.log, r.rank, r.bank, r.row, x);
  }

  lemma {:induction false} LastColIsLatest(t: Tech, log: seq<Cmd>, i: nat)
    requires (forall i, j :: 0 <= i < j < |log| ==> PairOk(t, log[i], log[j])) && i < |log| && log[i].Col?
    ensures LastCol(log).Some? && LastCol(log).value.Col?
    ensures var c := LastCol(log).value; c == log[i] || PairOk(t, log[i], c)
  {
    var n := |log| - 1;
    if !log[n].Col? { LastColIsLatest(t, log[..n], i); }
  }

  lemma {:induction false} LastColIsThere(log: seq<Cmd>)
    ensures LastCol(log).None? ==> forall i :: 0 <= i < |log| ==> !log[i].Col?
    ensures LastCol(log).Some? ==> LastCol(log).value.Col? && exists i :: 0 <= i < |log| && log[i] == LastCol(log).value
  {
    if log != [] {
      var n := |log| - 1;
      LastColIsThere(log[..n]);
      if !log[n].Col? && LastCol(log[..n]).Some? {
        var i :| 0 <= i < n && log[..n][i] == LastCol(log[..n]).value;
        assert log[i] == LastCol(log).value;
      }
    }
  }

  /** The rules between column commands, put together. */
  lemma ColPairsIff(t: Tech, s: State, r: Req, x: nat)
    requires Good(t, s) && BusTight(t, s)
    ensures (&& x >= t.tBL + 1
             && forall i :: 0 <= i < |s.log| ==> PairOk(t, s.log[i], Col(r.rank, r.bank, r.row, r.write, x))) <==>
            x + t.tCL >= s.minResp && (s.lastWrite && !r.write ==> x >= s.minResp + t.tWTR)
  {
    LastColIsThere(s.log);
    if LastCol(s.log).Some? {
      var c := LastCol(s.log).value;
      var i :| 0 <= i < |s.log| && s.log[i] == c;
      if x + t.tCL >= s.minResp && (s.lastWrite && !r.write ==> x >= s.minResp + t.tWTR) {
        forall j | 0 <= j < |s.log|
          ensures PairOk(t, s.log[j], Col(r.rank, r.bank, r.row, r.write, x))
        {
          if s.log[j].Col? { LastColIsLatest(t, s.log, j); }
        }
      }
      assert PairOk(t, s.log[i], Col(r.rank, r.bank, r.row, r.write, x)) ==>
        x >= c.cycle + t.tBL && (c.write && !r.write ==> x >= c.cycle + t.tCL + t.tBL + t.tWTR);
    }
  }

  /** The cycle of the column command that serving r issues. */
  function ColCycle(t: Tech, s: State, r: Req, cur: nat): nat
    requires Located(s, r)
  {
    var s' := Serve(t, s, r, cur, false);
    if s'.log != [] && s'.log[|s'.log| - 1].Col? then s'.log[|s'.log| - 1].cycle else 0
  }

  /** Serving a request issues its column command at the least cycle that meets: every rule against
      the commands issued before, the current cycle, and, after an activation, tRCD. */
  lemma ColIsEarliest(t: Tech, s: State, r: Req, cur: nat, x: nat)
    requires TechOk(t) && Tight(t, s) && Located(s, r)
    ensures x >= ColCycle(t, s, r, cur) <==>
      && x >= cur && x >= t.tBL + 1
      && (!RowHit(BankOf(s, r), r.row) ==> x >= ActCycle(t, s, r) + t.tRCD)
      && forall i :: 0 <= i < |s.log| ==> PairOk(t, s.log[i], Col(r.rank, r.bank, r.row, r.write, x))
  {
    ColPairsIff(t, s, r, x);
  }

  /** A refresh ends tRFC after the least cycle, from now on, at which every bank can be precharged
      and has had its last command. */
  lemma {:induction false} RankReadyIff(rank: seq<Bank>, n: nat, acc: nat, x: nat)
    requires n <= |rank|
    ensures x >= RankReady(rank, n, acc) <==>
      x >= acc && forall i :: 0 <= i < n ==> x >= rank[i].minPre && x >= rank[i].lastCmd
  {
    if n > 0 { RankReadyIff(rank, n - 1, acc, x); }
  }

  lemma {:induction false} RefreshIsEarliest(banks: seq<seq<Bank>>, n: nat, cur: nat, x: nat)
    requires n <= |banks|
    ensures x >= AllReady(banks, n, cur) <==>
      && x >= cur
      && forall k, i :: 0 <= k < n && 0 <= i < |banks[k]| ==> x >= banks[k][i].minPre && x >= banks[k][i].lastCmd
  {
    if n > 0 {
      RefreshIsEarliest(banks, n - 1, cur, x);
      RankReadyIff(banks[n - 1], |banks[n - 1]|, AllReady(banks, n - 1, cur), x);
    }
  }

  // ---------------------------------------------------------------- every step keeps the record tight

  lemma InitialTight(t: Tech, ranks: nat, banks: nat)
    requires TechOk(t)
    ensures Tight(t, Initial(t, ranks, banks))
  {
    InitialGood(t, ranks, banks);
  }

  /** The record just before a column command: an activation is counted as holding the bank for tRAS. */
  ghost predicate ReadyToIssue(t: Tech, b: Bank, k: nat, m: nat, log: seq<Cmd>) {
    Max(b.minPre, b.lastAct + t.tRAS) == LogPre(t, log, k, m) && b.lastAct == LogAct(log, k, m)
  }

  lemma HitReady(t: Tech, b: Bank, k: nat, m: nat, log: seq<Cmd>)
    requires BankTight(t, b, k, m, log) && BankOk(t, b, k, m, log) && b.open
    ensures ReadyToIssue(t, b, k, m, log)
  {
    var i :| 0 <= i < |log| && OpenedBy(b, k, m, log, i);
    assert Remembered(t, b, k, m, log[i]);
  }

  lemma MissReady(t: Tech, s: State, r: Req)
    requires Located(s, r) && BankTight(t, BankOf(s, r), r.rank, r.bank, s.log)
    ensures var s1 := Activate(t, s, r); ReadyToIssue(t, BankOf(s1, r), r.rank, r.bank, s1.log)
  {
    Extended(t, s.log, Act(r.rank, r.bank, r.row, ActCycle(t, s, r)), r.rank, r.bank);
  }

  lemma IssueTight(t: Tech, s: State, r: Req, floor: nat, close: bool)
    requires Located(s, r) && s.minResp >= t.tCL + t.tBL + 1 && ReadyToIssue(t, BankOf(s, r), r.rank, r.bank, s.log)
    ensures var s' := Issue(t, s, r, floor, close);
      BankTight(t, BankOf(s', r), r.rank, r.bank, s'.log) && BusTight(t, s')
  {
    var s' := Issue(t, s, r, floor, close);
    Extended(t, s.log, s'.log[|s.log|], r.rank, r.bank);
    assert s'.log == s.log + [s'.log[|s.log|]];
  }

  /** Commands to other banks leave a bank's record alone. */
  lemma OthersTight(t: Tech, b: Bank, k: nat, m: nat, log: seq<Cmd>, c: Cmd)
    requires BankTight(t, b, k, m, log) && !c.Ref? && (c.rank != k || c.bank != m)
    ensures BankTight(t, b, k, m, log + [c])
  {
    Extended(t, log, c, k, m);
  }

  lemma ServedBankTight(t: Tech, s: State, r: Req, cur: nat, close: bool)
    requires Located(s, r) && s.minResp >= t.tCL + t.tBL + 1
    requires BankTight(t, BankOf(s, r), r.rank, r.bank, s.log) && BankOk(t, BankOf(s, r), r.rank, r.bank, s.log)
    ensures var s' := Serve(t, s, r, cur, close); BankTight(t, BankOf(s', r), r.rank, r.bank, s'.log) && BusTight(t, s')
  {
    if RowHit(BankOf(s, r), r.row) {
      HitReady(t, BankOf(s, r), r.rank, r.bank, s.log);
      IssueTight(t, s, r, BusFloor(t, s, r, cur), close);
    } else {
      MissTight(t, s, r, Max(BusFloor(t, s, r, cur), ActCycle(t, s, r) + t.tRCD), close);
    }
  }

  lemma MissTight(t: Tech, s: State, r: Req, floor: nat, close: bool)
    requires Located(s, r) && s.minResp >= t.tCL + t.tBL + 1 && BankTight(t, BankOf(s, r), r.rank, r.bank, s.log)
    ensures var s' := Issue(t, Activate(t, s, r), r, floor, close);
      BankTight(t, BankOf(s', r), r.rank, r.bank, s'.log) && BusTight(t, s')
  {
    MissReady(t, s, r);
    IssueTight(t, Activate(t, s, r), r, floor, close);
  }

  lemma OtherBankTight(t: Tech, s: State, r: Req, cur: nat, close: bool, k: nat, m: nat)
    requires Located(s, r) && k < |s.banks| && m < |s.banks[k]| && (k != r.rank || m != r.bank)
    requires BankTight(t, s.banks[k][m], k, m, s.log)
    ensures var s' := Serve(t, s, r, cur, close);
      |s'.banks| == |s.banks| && |s'.banks[k]| == |s.banks[k]| && BankTight(t, s'.banks[k][m], k, m, s'.log)
  {
    var s' := Serve(t, s, r, cur, close);
    if RowHit(BankOf(s, r), r.row) {
      OthersTight(t, s.banks[k][m], k, m, s.log, s'.log[|s.log|]);
    } else {
      var s1 := Activate(t, s, r);
      OthersTight(t, s.banks[k][m], k, m, s.log, s1.log[|s.log|]);
      OthersTight(t, s.banks[k][m], k, m, s1.log, s'.log[|s1.log|]);
    }
  }

  lemma ServeTight(t: Tech, s: State, r: Req, cur: nat, close: bool)
    requires TechOk(t) && Tight(t, s) && CanServe(t, s, r, cur)
    ensures Tight(t, Serve(t, s, r, cur, close))
  {
    var s' := Serve(t, s, r, cur, close);
    ServeGood(t, s, r, cur, close);
    assert BankTight(t, BankOf(s, r), r.rank, r.bank, s.log) && BankOk(t, BankOf(s, r), r.rank, r.bank, s.log);
    ServedBankTight(t, s, r, cur, close);
    forall k, m | 0 <= k < |s'.banks| && 0 <= m < |s'.banks[k]|
      ensures BankTight(t, s'.banks[k][m], k, m, s'.log)
    {
      if k != r.rank || m != r.bank {
        assert BankTight(t, s.banks[k][m], k, m, s.log);
        OtherBankTight(t, s, r, cur, close, k, m);
      }
    }
  }

  lemma RefreshedBankTight(t: Tech, b: Bank, k: nat, m: nat, log: seq<Cmd>, done: nat)
    requires BankTight(t, b, k, m, log) && done >= t.tRP && done - t.tRP >= b.minPre
    ensures BankTight(t, RefreshBank(b, done - t.tRP), k, m, log + [Ref(done)])
  {
    Extended(t, log, Ref(done), k, m);
  }

  lemma RefreshTight(t: Tech, s: State, cur: nat)
    requires TechOk(t) && Tight(t, s)
    ensures Tight(t, Refresh(t, s, cur))
  {
    RefreshGood(t, s, cur);
    Extended(t, s.log, Ref(AllReady(s.banks, |s.banks|, cur) + t.tRFC), 0, 0);
    RefreshedBanksTight(t, s, cur);
  }

  lemma RefreshedBanksTight(t: Tech, s: State, cur: nat)
    requires Shape(s) && t.tRFC >= t.tRP
    requires forall k, m :: 0 <= k < |s.banks| && 0 <= m < |s.banks[k]| ==> BankTight(t, s.banks[k][m], k, m, s.log)
    ensures var s' := Refresh(t, s, cur);
      forall k, m :: 0 <= k < |s'.banks| && 0 <= m < |s'.banks[k]| ==> BankTight(t, s'.banks[k][m], k, m, s'.log)
  {
    var s' := Refresh(t, s, cur);
    forall k, m | 0 <= k < |s'.banks| && 0 <= m < |s'.banks[k]|
      ensures BankTight(t, s'.banks[k][m], k, m, s'.log)
    {
      assert BankTight(t, s.banks[k][m], k, m, s.log);
      RefreshedBankTight(t, s.banks[k][m], k, m, s.log, AllReady(s.banks, |s.banks|, cur) + t.tRFC);
    }
  }

  /** In every run of served requests and refreshes every command is thus as early as the rules
      allow. */
  lemma {:induction false} EveryRunTight(t: Tech, trace: seq<State>, es: seq<Event>, k: nat)
    requires TechOk(t) && IsRun(t, trace, es) && Tight(t, trace[0]) && k < |trace|
    ensures Tight(t, trace[k])
  {
    if k > 0 {
      EveryRunTight(t, trace, es, k - 1);
      match es[k - 1]
      case ServeIt(r, cur, close) => ServeTight(t, trace[k - 1], r, cur, close);
      case RefreshIt(cur) => RefreshTight(t, trace[k - 1], cur);
    }
  }
}
