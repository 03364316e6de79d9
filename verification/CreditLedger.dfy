/**
 The credit tables: one balance row per user and the append-only transaction
 ledger, with the effect of each repository call as one atomic step.
 */
module CreditLedger {
  import opened Options

  type UserId = string
  type TaskId = string

  datatype PlanType = FREE | PRO | ENTERPRISE

  function PlanLimit(plan: PlanType): nat {
    match plan
    case FREE => 30
    case PRO => 500
    case ENTERPRISE => 9999
  }

  datatype Account = Account(balance: int, hold: int, plan: PlanType, cycleEnd: int) {
    function Available(): int { balance - hold }
  }

  datatype Tx =
    | Deduct(user: UserId, amount: nat)
    | Hold(user: UserId, amount: nat, task: TaskId, expiresAt: int)
    | Commit(user: UserId, amount: nat, task: TaskId)
    | Rollback(user: UserId, amount: nat, task: TaskId)
    | Refund(user: UserId, amount: nat)
    | Refill(user: UserId, delta: int, plan: PlanType)
  {
    predicate Settles(t: TaskId) { (Commit? || Rollback?) && task == t }
    predicate Holds(t: TaskId) { Hold? && task == t }
  }

  datatype Ledger = Ledger(accounts: map<UserId, Account>, txs: seq<Tx>)

  const EMPTY_LEDGER := Ledger(map[], [])

  /** The atomic repository calls. */
  datatype Op =
    | CreateBalance(user: UserId, cycleEnd: int)
    | DeductBalance(user: UserId, cost: nat)
    | HoldBalance(user: UserId, cost: nat, task: TaskId, expiresAt: int)
    | CommitHold(task: TaskId)
    | RollbackHold(task: TaskId)
    | RefundBalance(user: UserId, amount: nat)
    | RefillBalance(user: UserId, plan: PlanType, cycleEnd: int)

  /** The HOLD row of a task: the index of the first one, or the length of the ledger. */
  function HoldIndex(txs: seq<Tx>, task: TaskId): (i: nat)
    ensures i <= |txs|
    ensures i < |txs| ==> txs[i].Holds(task)
    ensures forall j | 0 <= j < i :: !txs[j].Holds(task)
  {
    if txs == [] then 0
    else
      var i := HoldIndex(txs[..|txs| - 1], task);
      if i < |txs| - 1 || txs[|txs| - 1].Holds(task) then i else |txs|
  }

  predicate Held(txs: seq<Tx>, task: TaskId) { HoldIndex(txs, task) < |txs| }

  predicate Settled(txs: seq<Tx>, task: TaskId) { exists i | 0 <= i < |txs| :: txs[i].Settles(task) }

  predicate Open(txs: seq<Tx>, task: TaskId) { Held(txs, task) && !Settled(txs, task) }

  function Available(l: Ledger, user: UserId): int {
    if user in l.accounts then l.accounts[user].Available() else 0
  }

  /** Whether the call has an effect; a rejected call changes nothing. */
  predicate Accepts(l: Ledger, op: Op) {
    match op
    case CreateBalance(user, _) => user !in l.accounts
    case DeductBalance(user, cost) => user in l.accounts && l.accounts[user].Available() >= cost
    case HoldBalance(user, cost, _, _) => user in l.accounts && l.accounts[user].Available() >= cost
    case CommitHold(task) => Open(l.txs, task) && l.txs[HoldIndex(l.txs, task)].user in l.accounts
    case RollbackHold(task) => Open(l.txs, task) && l.txs[HoldIndex(l.txs, task)].user in l.accounts
    case RefundBalance(user, _) => user in l.accounts
    case RefillBalance(user, _, _) => user in l.accounts
  }

  /** The row the call appends; creating a balance writes none. */
  function NewTx(l: Ledger, op: Op): Option<Tx>
    requires Accepts(l, op)
  {
    match op
    case CreateBalance(_, _) => None
    case DeductBalance(user, cost) => Some(Deduct(user, cost))
    case HoldBalance(user, cost, task, expiresAt) => Some(Hold(user, cost, task, expiresAt))
    case CommitHold(task) => var h := l.txs[HoldIndex(l.txs, task)]; Some(Commit(h.user, h.amount, task))
    case RollbackHold(task) => var h := l.txs[HoldIndex(l.txs, task)]; Some(Rollback(h.user, h.amount, task))
    case RefundBalance(user, amount) => Some(Refund(user, amount))
    case RefillBalance(user, plan, _) => Some(Refill(user, PlanLimit(plan) - l.accounts[user].balance, plan))
  }

  function NewAccount(l: Ledger, op: Op): (UserId, Account)
    requires Accepts(l, op)
  {
    match op
    case CreateBalance(user, cycleEnd) => (user, Account(PlanLimit(FREE), 0, FREE, cycleEnd))
    case DeductBalance(user, cost) =>
      var a := l.accounts[user]; (user, a.(balance := a.balance - cost))
    case HoldBalance(user, cost, _, _) =>
      var a := l.accounts[user]; (user, a.(hold := a.hold + cost))
    case CommitHold(task) =>
      var h := l.txs[HoldIndex(l.txs, task)];
      var a := l.accounts[h.user];
      (h.user, a.(balance := a.balance - h.amount, hold := a.hold - h.amount))
    case RollbackHold(task) =>
      var h := l.txs[HoldIndex(l.txs, task)];
      var a := l.accounts[h.user];
      (h.user, a.(hold := a.hold - h.amount))
    case RefundBalance(user, amount) =>
      var a := l.accounts[user]; (user, a.(balance := a.balance + amount))
    case RefillBalance(user, plan, cycleEnd) =>
      (user, Account(PlanLimit(plan), 0, plan, cycleEnd))
  }

  function Exec(l: Ledger, op: Op): Ledger {
    if Accepts(l, op) then
      var (user, account) := NewAccount(l, op);
      Ledger(l.accounts[user := account],
             match NewTx(l, op) case None => l.txs case Some(tx) => l.txs + [tx])
    else l
  }

  /** Any interleaving of requests is a sequence of atomic calls. */
  function Run(l: Ledger, ops: seq<Op>): Ledger {
    if ops == [] then l else Exec(Run(l, ops[..|ops| - 1]), ops[|ops| - 1])
  }
}
