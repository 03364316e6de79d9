/**
 The credit repository and the credit service as objects. A service call reads
 the balance first and acts afterwards; `others` are the atomic calls that other
 requests get in between the two.
 */
module CreditService {
  import opened Options
  import opened CreditLedger
  import opened CreditAccounting

  const CYCLE := 30 * 24 * 60 * 60 * 1000
  const HOLD_EXPIRY := 2 * 60 * 60 * 1000

  datatype UsageLog = UsageLog(user: UserId, task: Option<TaskId>, used: nat, success: bool)

  /** Which database access of one service call fails; a failed transaction leaves no trace. */
  datatype Faults = Faults(read: bool, write: bool, log: bool)

  datatype Outcome = Ok | Insufficient(available: int) | Upstream

  lemma {:induction false} RunKeepsRows(l: Ledger, ops: seq<Op>)
    ensures l.txs <= Run(l, ops).txs && l.accounts.Keys <= Run(l, ops).accounts.Keys
  {
    if ops != [] {
      RunKeepsRows(l, ops[..|ops| - 1]);
    }
  }

  lemma {:induction false} HoldIndexExtends(txs: seq<Tx>, longer: seq<Tx>, task: TaskId)
    requires txs <= longer && Held(txs, task)
    ensures HoldIndex(longer, task) == HoldIndex(txs, task)
  {
    if |longer| > |txs| {
      HoldIndexExtends(txs, longer[..|longer| - 1], task);
    }
  }

  /** One account is stored and these rows are appended; all else is as before. */
  ghost predicate Stores(l: Ledger, l': Ledger, user: UserId, a: Account, rows: seq<Tx>) {
    l' == Ledger(l.accounts[user := a], l.txs + rows)
  }

  /** The first HOLD row of the task. */
  ghost predicate IsFirstHold(txs: seq<Tx>, task: TaskId, i: nat) {
    i < |txs| && txs[i].Hold? && txs[i].task == task && forall j | 0 <= j < i :: !(txs[j].Hold? && txs[j].task == task)
  }

  /** The hold is taken off the account, the amount off the balance as well if it is spent, and one row tells so. */
  ghost predicate SettlesHold(l: Ledger, l': Ledger, hold: Tx, spent: bool)
    requires hold.Hold?
  {
    && hold.user in l.accounts
    && var a := l.accounts[hold.user];
       if spent then
         Stores(l, l', hold.user, a.(balance := a.balance - hold.amount, hold := a.hold - hold.amount),
                [Commit(hold.user, hold.amount, hold.task)])
       else
         Stores(l, l', hold.user, a.(hold := a.hold - hold.amount), [Rollback(hold.user, hold.amount, hold.task)])
  }

  class CreditRepository {
    var l: Ledger
    var usage: seq<UsageLog>

    constructor ()
      ensures l == EMPTY_LEDGER && usage == []
    {
      l, usage := EMPTY_LEDGER, [];
    }

    /** Other requests run their atomic calls. */
    method OtherRequests(ops: seq<Op>)
      modifies this`l
      ensures l == Run(old(l), ops)
    {
      for n := 0 to |ops|
        invariant l == Run(old(l), ops[..n])
      {
        assert ops[..n + 1][..n] == ops[..n];
        l := Exec(l, ops[n]);
      }
      assert ops[..|ops|] == ops;
    }

    method CreateBalance(user: UserId, cycleEnd: int) returns (a: Account)
      requires user !in l.accounts
      modifies this`l
      ensures l == Exec(old(l), CreditLedger.CreateBalance(user, cycleEnd))
      ensures a == Account(PlanLimit(FREE), 0, FREE, cycleEnd) && Stores(old(l), l, user, a, [])
    {
      a := Account(PlanLimit(FREE), 0, FREE, cycleEnd);
      l := l.(accounts := l.accounts[user := a]);
    }

    method DeductBalance(user: UserId, cost: nat) returns (success: bool, availableAfter: int)
      modifies this`l
      ensures l == Exec(old(l), CreditLedger.DeductBalance(user, cost))
      ensures success == Accepts(old(l), CreditLedger.DeductBalance(user, cost)) && availableAfter == Available(l, user)
      ensures success <==> user in old(l).accounts && old(l).accounts[user].balance - old(l).accounts[user].hold >= cost
      ensures success ==> var a := old(l).accounts[user];
                          Stores(old(l), l, user, a.(balance := a.balance - cost), [Deduct(user, cost)])
      ensures !success ==> l == old(l)
    {
      if user !in l.accounts {
        return false, 0;
      }
      var a := l.accounts[user];
      var available := a.balance - a.hold;
      if available < cost {
        return false, available;
      }
      l := Ledger(l.accounts[user := a.(balance := a.balance - cost)], l.txs + [Deduct(user, cost)]);
      return true, a.balance - cost - a.hold;
    }

    method HoldBalance(user: UserId, cost: nat, task: TaskId, expiresAt: int)
      returns (success: bool, availableAfter: int)
      modifies this`l
      ensures l == Exec(old(l), CreditLedger.HoldBalance(user, cost, task, expiresAt))
      ensures success == Accepts(old(l), CreditLedger.HoldBalance(user, cost, task, expiresAt))
      ensures availableAfter == Available(l, user)
      ensures success <==> user in old(l).accounts && old(l).accounts[user].balance - old(l).accounts[user].hold >= cost
      ensures success ==> var a := old(l).accounts[user];
                          Stores(old(l), l, user, a.(hold := a.hold + cost), [Hold(user, cost, task, expiresAt)])
      ensures !success ==> l == old(l)
    {
      if user !in l.accounts {
        return false, 0;
      }
      var a := l.accounts[user];
      var available := a.balance - a.hold;
      if available < cost {
        return false, available;
      }
      l := Ledger(l.accounts[user := a.(hold := a.hold + cost)], l.txs + [Hold(user, cost, task, expiresAt)]);
      return true, available - cost;
    }

    /**
     The hold is looked up before the transaction and the settlement is checked
     again inside it; together that is one atomic commit, at the time of the transaction.
     */
    method CommitHold(task: TaskId, others: seq<Op>) returns (committed: bool)
      requires Inv(l)
      modifies this`l
      ensures Inv(l)
      ensures l == if Open(old(l).txs, task) then Exec(Run(old(l), others), CreditLedger.CommitHold(task)) else old(l)
      ensures committed <==> Open(old(l).txs, task) && Accepts(Run(old(l), others), CreditLedger.CommitHold(task))
      ensures committed <==> Open(old(l).txs, task) && !Settled(Run(old(l), others).txs, task)
      ensures committed ==>
                var i := HoldIndex(old(l).txs, task);
                IsFirstHold(old(l).txs, task, i) && SettlesHold(Run(old(l), others), l, old(l).txs[i], true)
    {
      var i := HoldIndex(l.txs, task);
      if i == |l.txs| {
        return false;
      }
      if Settled(l.txs, task) {
        return false;
      }
      var hold := l.txs[i];
      OtherRequests(others);
      SettlingOnValues(old(l), others, CreditLedger.CommitHold(task), task);
      if Settled(l.txs, task) {
        return false;
      }
      var a := l.accounts[hold.user];
      l := Ledger(l.accounts[hold.user := a.(balance := a.balance - hold.amount, hold := a.hold - hold.amount)],
                  l.txs + [Commit(hold.user, hold.amount, task)]);
      return true;
    }

    method RollbackHold(task: TaskId, others: seq<Op>) returns (rolledBack: bool)
      requires Inv(l)
      modifies this`l
      ensures Inv(l)
      ensures l == if Open(old(l).txs, task) then Exec(Run(old(l), others), CreditLedger.RollbackHold(task)) else old(l)
      ensures rolledBack <==> Open(old(l).txs, task) && Accepts(Run(old(l), others), CreditLedger.RollbackHold(task))
      ensures rolledBack <==> Open(old(l).txs, task) && !Settled(Run(old(l), others).txs, task)
      ensures rolledBack ==>
                var i := HoldIndex(old(l).txs, task);
                IsFirstHold(old(l).txs, task, i) && SettlesHold(Run(old(l), others), l, old(l).txs[i], false)
    {
      var i := HoldIndex(l.txs, task);
      if i == |l.txs| {
        return false;
      }
      if Settled(l.txs, task) {
        return false;
      }
      var hold := l.txs[i];
      OtherRequests(others);
      SettlingOnValues(old(l), others, CreditLedger.RollbackHold(task), task);
      if Settled(l.txs, task) {
        return false;
      }
      var a := l.accounts[hold.user];
      l := Ledger(l.accounts[hold.user := a.(hold := a.hold - hold.amount)],
                  l.txs + [Rollback(hold.user, hold.amount, task)]);
      return true;
    }

    /** The update fails on a missing row. */
    method RefundBalance(user: UserId, amount: nat) returns (ok: bool)
      modifies this`l
      ensures l == Exec(old(l), CreditLedger.RefundBalance(user, amount)) && (ok <==> user in old(l).accounts)
      ensures ok ==> var a := old(l).accounts[user];
                     Stores(old(l), l, user, a.(balance := a.balance + amount), [CreditLedger.Refund(user, amount)])
      ensures !ok ==> l == old(l)
    {
      ok := user in l.accounts;
      if ok {
        var a := l.accounts[user];
        l := Ledger(l.accounts[user := a.(balance := a.balance + amount)], l.txs + [Refund(user, amount)]);
      }
    }

    method RefillBalance(user: UserId, plan: PlanType, cycleEnd: int) returns (ok: bool)
      modifies this`l
      ensures l == Exec(old(l), CreditLedger.RefillBalance(user, plan, cycleEnd)) && (ok <==> user in old(l).accounts)
      ensures ok ==> Stores(old(l), l, user, Account(PlanLimit(plan), 0, plan, cycleEnd),
                            [Refill(user, PlanLimit(plan) - old(l).accounts[user].balance, plan)])
      ensures !ok ==> l == old(l)
    {
      ok := user in l.accounts;
      if ok {
        var previous := l.accounts[user].balance;
        l := Ledger(l.accounts[user := Account(PlanLimit(plan), 0, plan, cycleEnd)],
                    l.txs + [Refill(user, PlanLimit(plan) - previous, plan)]);
      }
    }

    method CreateUsageLog(user: UserId, task: Option<TaskId>, used: nat, success: bool)
      modifies this`usage
      ensures usage == old(usage) + [UsageLog(user, task, used, success)]
    {
      usage := usage + [UsageLog(user, task, used, success)];
    }
  }

  /** Other requests neither move nor change the hold row of a task, and keep its account. */
  lemma SameHold(l: Ledger, ops: seq<Op>, task: TaskId)
    requires Inv(l) && Held(l.txs, task)
    ensures
      var l', i := Run(l, ops), HoldIndex(l.txs, task);
      && HoldIndex(l'.txs, task) == i < |l'.txs| && l'.txs[i] == l.txs[i] && l.txs[i].user in l'.accounts && Inv(l')
  {
    RunKeepsRows(l, ops);
    RunKeepsInv(l, ops);
    HoldIndexExtends(l.txs, Run(l, ops).txs, task);
  }

  /** What a settlement does among other requests: it takes the hold as it was first placed. */
  lemma SettlingOnValues(l: Ledger, others: seq<Op>, op: Op, task: TaskId)
    requires Inv(l) && Open(l.txs, task)
    requires op == CreditLedger.CommitHold(task) || op == CreditLedger.RollbackHold(task)
    ensures
      var mid, i := Run(l, others), HoldIndex(l.txs, task);
      && IsFirstHold(l.txs, task, i) && Inv(mid) && Inv(Exec(mid, op))
      && (Accepts(mid, op) <==> !Settled(mid.txs, task))
      && if Accepts(mid, op) then SettlesHold(mid, Exec(mid, op), l.txs[i], op.CommitHold?) else Exec(mid, op) == mid
  {
    SameHold(l, others, task);
    ExecKeepsInv(Run(l, others), op);
  }

  /** The ledger once the user has a balance row. */
  function Ensured(l: Ledger, user: UserId, now: int): Ledger {
    Exec(l, CreateBalance(user, now + CYCLE))
  }

  /** The ledger once the balance was read, refilled if the row first read was past its cycle's end. */
  function AfterBalanceRead(l: Ledger, user: UserId, now: int, before: seq<Op>, after: seq<Op>, fails: bool): Ledger {
    var l0 := Ensured(l, user, now);
    if l0.accounts[user].cycleEnd >= now then l0
    else if fails then Run(Run(l0, before), after)
    else Run(Exec(Run(l0, before), RefillBalance(user, l0.accounts[user].plan, now + CYCLE)), after)
  }

  /**
   The refill moves the cycle on: after a read that refilled, reads at any time up to the
   end of the new cycle leave the ledger as it is, so what is spent stays spent.
   */
  lemma RefilledOncePerCycle(l: Ledger, user: UserId, now: int, later: int, before: seq<Op>, after: seq<Op>,
                             fails: bool)
    requires user in l.accounts && l.accounts[user].cycleEnd < now && later <= now + CYCLE
    ensures var refilled := AfterBalanceRead(l, user, now, [], [], false);
            && refilled.accounts[user].cycleEnd == now + CYCLE
            && AfterBalanceRead(refilled, user, later, before, after, fails) == refilled
  {
  }

  /** The same after a first read, which creates the balance row. */
  lemma FreshForOneCycle(l: Ledger, user: UserId, now: int, later: int, before: seq<Op>, after: seq<Op>, fails: bool)
    requires user !in l.accounts && later <= now + CYCLE
    ensures var created := AfterBalanceRead(l, user, now, [], [], false);
            AfterBalanceRead(created, user, later, before, after, fails) == created
  {
  }

  /**
   A read that saw the old cycle refills however late: what other requests spent of a
   cycle that another read has started meanwhile comes back.
   */
  lemma LateRefillForgets(l: Ledger, user: UserId, now: int, before: seq<Op>)
    requires user in l.accounts && l.accounts[user].cycleEnd < now
    ensures var plan, refilled := l.accounts[user].plan, AfterBalanceRead(l, user, now, before, [], false);
            user in refilled.accounts && refilled.accounts[user] == Account(PlanLimit(plan), 0, plan, now + CYCLE)
  {
    RunKeepsRows(l, before);
  }

  /** The HOLD rows due at `now`, settled ones included, as their task ids. */
  function ExpiredHolds(txs: seq<Tx>, now: int): seq<TaskId> {
    if txs == [] then []
    else
      var tx := txs[|txs| - 1];
      ExpiredHolds(txs[..|txs| - 1], now) + if tx.Hold? && tx.expiresAt <= now then [tx.task] else []
  }

  class CreditService {
    const repo: CreditRepository

    constructor (repo: CreditRepository)
      ensures this.repo == repo
    {
      this.repo := repo;
    }

    method EnsureBalance(user: UserId, now: int) returns (a: Account)
      modifies repo`l
      ensures repo.l == Ensured(old(repo.l), user, now) && user in repo.l.accounts && a == repo.l.accounts[user]
      ensures user in old(repo.l).accounts ==> repo.l == old(repo.l)
      ensures user !in old(repo.l).accounts ==>
                a == Account(PlanLimit(FREE), 0, FREE, now + CYCLE) && Stores(old(repo.l), repo.l, user, a, [])
    {
      if user in repo.l.accounts {
        return repo.l.accounts[user];
      }
      a := repo.CreateBalance(user, now + CYCLE);
    }

    /**
     The user is charged exactly when the guarded update succeeds, and told Ok
     exactly when the usage log could be written as well.
     */
    method Deduct(user: UserId, cost: nat, now: int, others: seq<Op>, f: Faults) returns (r: Outcome)
      modifies repo
      ensures
        var l0 := Ensured(old(repo.l), user, now);
        var mid := Run(l0, others);
        var charge := CreditLedger.DeductBalance(user, cost);
        if f.read then r == Upstream && repo.l == old(repo.l)
        else if Available(l0, user) < cost then r == Insufficient(Available(l0, user)) && repo.l == l0
        else if f.write then r == Upstream && repo.l == mid
        else if !Accepts(mid, charge) then r == Insufficient(Available(mid, user)) && repo.l == mid
        else repo.l == Exec(mid, charge) && r == (if f.log then Upstream else Ok)
      ensures repo.usage == old(repo.usage) + if r.Ok? then [UsageLog(user, None, cost, true)] else []
    {
      if f.read {
        return Upstream;
      }
      var balance := EnsureBalance(user, now);
      var available := balance.balance - balance.hold;
      if available < cost {
        return Insufficient(available);
      }
      repo.OtherRequests(others);
      if f.write {
        return Upstream;
      }
      var success, availableAfter := repo.DeductBalance(user, cost);
      if !success {
        return Insufficient(availableAfter);
      }
      if f.log {
        return Upstream;
      }
      repo.CreateUsageLog(user, None, cost, true);
      return Ok;
    }

    method Hold(user: UserId, cost: nat, task: TaskId, now: int, others: seq<Op>, f: Faults) returns (r: Outcome)
      modifies repo`l
      ensures
        var l0 := Ensured(old(repo.l), user, now);
        var mid := Run(l0, others);
        var hold := CreditLedger.HoldBalance(user, cost, task, now + HOLD_EXPIRY);
        if f.read then r == Upstream && repo.l == old(repo.l)
        else if Available(l0, user) < cost then r == Insufficient(Available(l0, user)) && repo.l == l0
        else if f.write then r == Upstream && repo.l == mid
        else if !Accepts(mid, hold) then r == Insufficient(Available(mid, user)) && repo.l == mid
        else r == Ok && repo.l == Exec(mid, hold)
    {
      if f.read {
        return Upstream;
      }
      var balance := EnsureBalance(user, now);
      var available := balance.balance - balance.hold;
      if available < cost {
        return Insufficient(available);
      }
      repo.OtherRequests(others);
      if f.write {
        return Upstream;
      }
      var success, availableAfter := repo.HoldBalance(user, cost, task, now + HOLD_EXPIRY);
      if !success {
        return Insufficient(availableAfter);
      }
      return Ok;
    }

    /** Errors are swallowed; one usage row per hold that this call commits. */
    method CommitByTaskId(task: TaskId, others: seq<Op>, f: Faults)
      requires Inv(repo.l)
      modifies repo
      ensures Inv(repo.l)
      ensures
        var committed := !f.write && Open(old(repo.l).txs, task)
                         && Accepts(Run(old(repo.l), others), CreditLedger.CommitHold(task));
        && repo.l == (if f.write || !Open(old(repo.l).txs, task) then old(repo.l)
                      else Exec(Run(old(repo.l), others), CreditLedger.CommitHold(task)))
        && repo.usage == old(repo.usage)
             + if committed && !f.log then
                 var h := old(repo.l).txs[HoldIndex(old(repo.l).txs, task)];
                 [UsageLog(h.user, Some(task), h.amount, true)]
               else []
    {
      if f.write {
        return;
      }
      var committed := repo.CommitHold(task, others);
      if !committed || f.log {
        return;
      }
      SettledHoldRow(old(repo.l), others, CreditLedger.CommitHold(task), task);
      var hold := repo.l.txs[HoldIndex(repo.l.txs, task)];
      repo.CreateUsageLog(hold.user, Some(task), hold.amount, true);
    }

    method RollbackByTaskId(task: TaskId, others: seq<Op>, f: Faults)
      requires Inv(repo.l)
      modifies repo
      ensures Inv(repo.l)
      ensures
        var rolledBack := !f.write && Open(old(repo.l).txs, task)
                          && Accepts(Run(old(repo.l), others), CreditLedger.RollbackHold(task));
        && repo.l == (if f.write || !Open(old(repo.l).txs, task) then old(repo.l)
                      else Exec(Run(old(repo.l), others), CreditLedger.RollbackHold(task)))
        && repo.usage == old(repo.usage)
             + if rolledBack && !f.log then
                 [UsageLog(old(repo.l).txs[HoldIndex(old(repo.l).txs, task)].user, Some(task), 0, false)]
               else []
    {
      if f.write {
        return;
      }
      var rolledBack := repo.RollbackHold(task, others);
      if !rolledBack || f.log {
        return;
      }
      SettledHoldRow(old(repo.l), others, CreditLedger.RollbackHold(task), task);
      var hold := repo.l.txs[HoldIndex(repo.l.txs, task)];
      repo.CreateUsageLog(hold.user, Some(task), 0, false);
    }

    /** A failed refund is only logged. */
    method Refund(user: UserId, amount: nat, f: Faults)
      modifies repo`l
      ensures repo.l == if f.write then old(repo.l) else Exec(old(repo.l), CreditLedger.RefundBalance(user, amount))
      ensures if f.write || user !in old(repo.l).accounts then repo.l == old(repo.l)
              else var a := old(repo.l).accounts[user];
                   Stores(old(repo.l), repo.l, user, a.(balance := a.balance + amount),
                          [CreditLedger.Refund(user, amount)])
    {
      if !f.write {
        var _ := repo.RefundBalance(user, amount);
      }
    }

    method Refill(user: UserId, plan: PlanType, now: int, f: Faults) returns (ok: bool)
      modifies repo`l
      ensures repo.l == if f.write then old(repo.l)
                        else Exec(old(repo.l), CreditLedger.RefillBalance(user, plan, now + CYCLE))
      ensures ok <==> !f.write && user in old(repo.l).accounts
      ensures ok ==> Stores(old(repo.l), repo.l, user, Account(PlanLimit(plan), 0, plan, now + CYCLE),
                            [CreditLedger.Refill(user, PlanLimit(plan) - old(repo.l).accounts[user].balance, plan)])
      ensures !ok ==> repo.l == old(repo.l)
    {
      if f.write {
        return false;
      }
      ok := repo.RefillBalance(user, plan, now + CYCLE);
    }

    /**
     Refills just in time when the cycle is over, by the row as first read, whatever
     other requests do before the refill and before the row is read again; a failed
     refill reports the balance as it is then.
     */
    method GetBalance(user: UserId, now: int, before: seq<Op>, after: seq<Op>, f: Faults)
      returns (a: Account, availableBalance: int)
      modifies repo`l
      ensures user in repo.l.accounts && a == repo.l.accounts[user] && availableBalance == a.balance - a.hold
      ensures repo.l == AfterBalanceRead(old(repo.l), user, now, before, after, f.write)
      ensures before == [] && after == [] && user in old(repo.l).accounts ==>
                var a0 := old(repo.l).accounts[user];
                if a0.cycleEnd < now && !f.write then a == Account(PlanLimit(a0.plan), 0, a0.plan, now + CYCLE)
                else a == a0 && repo.l == old(repo.l)
      ensures user !in old(repo.l).accounts ==> a == Account(PlanLimit(FREE), 0, FREE, now + CYCLE)
    {
      a := EnsureBalance(user, now);
      if a.cycleEnd < now {
        repo.OtherRequests(before);
        var _ := Refill(user, a.plan, now, f);
        ghost var refilled := repo.l;
        repo.OtherRequests(after);
        RunKeepsRows(Ensured(old(repo.l), user, now), before);
        RunKeepsRows(refilled, after);
        a := repo.l.accounts[user];
      }
      availableBalance := a.balance - a.hold;
    }

    /**
     Whatever other requests do during the sweep (`others(n)` during its n-th rollback),
     afterwards no hold that was due is open, unless its own rollback failed, and a hold
     that was not due is settled only if one of them settled it. If they do nothing, due
     holds are released and nothing else changes.
     */
    method ExpireStaleHolds(now: int, failing: set<TaskId>, others: nat -> seq<Op>)
      requires Inv(repo.l)
      modifies repo`l
      ensures Inv(repo.l) && old(repo.l).txs <= repo.l.txs
      ensures forall i | 0 <= i < |old(repo.l).txs| :: var tx := old(repo.l).txs[i];
                tx.Hold? && tx.expiresAt <= now && tx.task !in failing ==> Settled(repo.l.txs, tx.task)
      ensures forall t :: Settled(repo.l.txs, t) ==>
                || Settled(old(repo.l).txs, t) || HasDueHold(old(repo.l).txs, t, now)
                || exists n: nat :: Settling(others(n), t)
      ensures (forall n :: others(n) == []) ==>
                && OnlyReleases(old(repo.l), repo.l, now)
                && forall t :: Open(old(repo.l).txs, t) && !HasDueHold(old(repo.l).txs, t, now) ==> Open(repo.l.txs, t)
    {
      var expired := ExpiredHolds(repo.l.txs, now);
      for n := 0 to |expired|
        invariant Inv(repo.l) && old(repo.l).txs <= repo.l.txs
        invariant forall m | 0 <= m < n :: expired[m] in failing || Settled(repo.l.txs, expired[m])
        invariant SettledFor(old(repo.l), repo.l, now, others)
        invariant (forall n :: others(n) == []) ==> OnlyReleases(old(repo.l), repo.l, now)
      {
        if expired[n] !in failing {
          SweepStep(old(repo.l), repo.l, now, expired[n], others, n);
          var _ := repo.RollbackHold(expired[n], others(n));
        }
      }
      forall i | 0 <= i < |old(repo.l).txs|
        ensures var tx := old(repo.l).txs[i];
          tx.Hold? && tx.expiresAt <= now && tx.task !in failing ==> Settled(repo.l.txs, tx.task) {
        DueIsExpired(old(repo.l).txs, now, i);
      }
      OpenStaysOpen(old(repo.l), repo.l, now, others);
    }
  }

  // ---- the sweep ----

  predicate HasDueHold(txs: seq<Tx>, task: TaskId, now: int) {
    exists i | 0 <= i < |txs| :: txs[i].Hold? && txs[i].task == task && txs[i].expiresAt <= now
  }

  /** One of the calls settles the task. */
  predicate Settling(ops: seq<Op>, task: TaskId) {
    exists n | 0 <= n < |ops| :: (ops[n].CommitHold? || ops[n].RollbackHold?) && ops[n].task == task
  }

  /** Every settled task was settled before, was due, or is settled by others. */
  ghost predicate SettledFor(l0: Ledger, l: Ledger, now: int, others: nat -> seq<Op>) {
    forall t :: Settled(l.txs, t) ==>
      Settled(l0.txs, t) || HasDueHold(l0.txs, t, now) || exists n: nat :: Settling(others(n), t)
  }

  /** What the rows from the given one on released for a user. */
  function Released(txs: seq<Tx>, from: nat, user: UserId): nat {
    if |txs| <= from then 0
    else
      var tx := txs[|txs| - 1];
      Released(txs[..|txs| - 1], from, user) + if tx.Rollback? && tx.user == user then tx.amount else 0
  }

  /** Only rollbacks of due holds were appended, and each account has just their amounts taken off its hold. */
  ghost predicate OnlyReleases(l0: Ledger, l: Ledger, now: int) {
    && l0.txs <= l.txs && l.accounts.Keys == l0.accounts.Keys
    && (forall i | |l0.txs| <= i < |l.txs| :: l.txs[i].Rollback? && HasDueHold(l0.txs, l.txs[i].task, now))
    && (forall u <- l.accounts ::
          l.accounts[u] == l0.accounts[u].(hold := l0.accounts[u].hold - Released(l.txs, |l0.txs|, u)))
  }

  /** Whatever others did meanwhile, the task is settled, and no row is lost. */
  ghost predicate SettledAmongOthers(l: Ledger, l': Ledger, task: TaskId) {
    && l.txs <= l'.txs && Settled(l'.txs, task) && (forall t :: Settled(l.txs, t) ==> Settled(l'.txs, t))
  }

  /** What rolling back one held task does on its own, settled already or not. */
  ghost predicate RolledBack(l: Ledger, l': Ledger, task: TaskId) {
    l' == l || exists hold: Tx :: hold.Hold? && hold.task == task && SettlesHold(l, l', hold, false)
  }

  /** One rollback of the sweep. */
  lemma SweepStep(l0: Ledger, l: Ledger, now: int, task: TaskId, others: nat -> seq<Op>, n: nat)
    requires Inv(l) && l0.txs <= l.txs && task in ExpiredHolds(l0.txs, now) && SettledFor(l0, l, now, others)
    ensures var l' := if Open(l.txs, task) then Exec(Run(l, others(n)), CreditLedger.RollbackHold(task)) else l;
            && SettledAmongOthers(l, l', task) && SettledFor(l0, l', now, others)
            && (others(n) == [] && OnlyReleases(l0, l, now) ==> OnlyReleases(l0, l', now))
  {
    var l' := if Open(l.txs, task) then Exec(Run(l, others(n)), CreditLedger.RollbackHold(task)) else l;
    ExpiredAreDue(l0.txs, now, task);
    DueIsHeld(l0.txs, now, task);
    HoldIndexExtends(l0.txs, l.txs, task);
    RollbackSettles(l, others(n), task);
    forall t | Settled(l'.txs, t) && t != task ensures Settled(l.txs, t) || Settling(others(n), t) {
      if Open(l.txs, task) {
        RollbackSettlesOne(Run(l, others(n)), task, t);
        OthersSettle(l, others(n), t);
      }
    }
    if others(n) == [] && OnlyReleases(l0, l, now) {
      ReleaseStep(l0, l, l', now, task);
    }
  }

  lemma ReleaseStep(l0: Ledger, l: Ledger, l': Ledger, now: int, task: TaskId)
    requires OnlyReleases(l0, l, now) && RolledBack(l, l', task) && HasDueHold(l0.txs, task, now)
    ensures OnlyReleases(l0, l', now)
  {
    if l' != l {
      var hold: Tx :| hold.Hold? && hold.task == task && SettlesHold(l, l', hold, false);
      assert l'.txs[..|l'.txs| - 1] == l.txs;
    }
  }

  lemma RollbackSettlesOne(l: Ledger, task: TaskId, t: TaskId)
    requires t != task && Settled(Exec(l, CreditLedger.RollbackHold(task)).txs, t)
    ensures Settled(l.txs, t)
  {
    if Accepts(l, CreditLedger.RollbackHold(task)) {
      SettledAppend(l.txs, NewTx(l, CreditLedger.RollbackHold(task)).value, t);
    }
  }

  lemma {:induction false} OthersSettle(l: Ledger, ops: seq<Op>, t: TaskId)
    requires Settled(Run(l, ops).txs, t)
    ensures Settled(l.txs, t) || Settling(ops, t)
  {
    if ops != [] {
      var init, op := ops[..|ops| - 1], ops[|ops| - 1];
      var mid := Run(l, init);
      if Accepts(mid, op) && NewTx(mid, op).Some? {
        SettledAppend(mid.txs, NewTx(mid, op).value, t);
      }
      if Settled(mid.txs, t) {
        OthersSettle(l, init, t);
      }
    }
  }

  lemma OpenStaysOpen(l0: Ledger, l: Ledger, now: int, others: nat -> seq<Op>)
    requires l0.txs <= l.txs && SettledFor(l0, l, now, others)
    ensures (forall n :: others(n) == []) ==>
              forall t :: Open(l0.txs, t) && !HasDueHold(l0.txs, t, now) ==> Open(l.txs, t)
  {
    forall t | Open(l0.txs, t) ensures Held(l.txs, t) {
      HoldIndexExtends(l0.txs, l.txs, t);
    }
  }

  /** Settling appends a row, so the hold row of the task stays where it was. */
  lemma SettledHoldRow(l: Ledger, others: seq<Op>, op: Op, task: TaskId)
    requires Inv(l) && Open(l.txs, task)
    requires op == CreditLedger.CommitHold(task) || op == CreditLedger.RollbackHold(task)
    ensures
      var txs := Exec(Run(l, others), op).txs;
      Held(txs, task) && txs[HoldIndex(txs, task)] == l.txs[HoldIndex(l.txs, task)]
  {
    SameHold(l, others, task);
    var mid := Run(l, others);
    if Accepts(mid, op) {
      HoldIndexAppend(mid.txs, NewTx(mid, op).value, task);
    }
  }

  lemma RollbackSettles(l: Ledger, others: seq<Op>, task: TaskId)
    requires Inv(l) && Held(l.txs, task)
    ensures
      var l' := if Open(l.txs, task) then Exec(Run(l, others), CreditLedger.RollbackHold(task)) else l;
      SettledAmongOthers(l, l', task) && (others == [] ==> RolledBack(l, l', task))
  {
    if Open(l.txs, task) {
      var mid := Run(l, others);
      SameHold(l, others, task);
      RunKeepsRows(l, others);
      if Open(mid.txs, task) {
        SettlingEffect(mid, CreditLedger.RollbackHold(task), task);
      }
      SettledStays(l.txs, Exec(mid, CreditLedger.RollbackHold(task)).txs);
    }
  }

  lemma SettledStays(txs: seq<Tx>, longer: seq<Tx>)
    requires txs <= longer
    ensures forall t :: Settled(txs, t) ==> Settled(longer, t)
  {
    forall t | Settled(txs, t) ensures Settled(longer, t) {
      var i :| 0 <= i < |txs| && txs[i].Settles(t);
      assert longer[i].Settles(t);
    }
  }

  lemma {:induction false} ExpiredAreDue(txs: seq<Tx>, now: int, task: TaskId)
    requires task in ExpiredHolds(txs, now)
    ensures HasDueHold(txs, task, now)
  {
    var n := |txs| - 1;
    if task in ExpiredHolds(txs[..n], now) {
      ExpiredAreDue(txs[..n], now, task);
    }
  }

  lemma DueIsHeld(txs: seq<Tx>, now: int, task: TaskId)
    requires HasDueHold(txs, task, now)
    ensures Held(txs, task)
  {
    var i :| 0 <= i < |txs| && txs[i].Hold? && txs[i].task == task && txs[i].expiresAt <= now;
    assert txs[i].Holds(task);
  }

  lemma {:induction false} DueIsExpired(txs: seq<Tx>, now: int, i: nat)
    requires i < |txs|
    ensures txs[i].Hold? && txs[i].expiresAt <= now ==> txs[i].task in ExpiredHolds(txs, now)
  {
    if i < |txs| - 1 {
      DueIsExpired(txs[..|txs| - 1], now, i);
    }
  }
}
