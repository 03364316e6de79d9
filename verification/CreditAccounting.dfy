/**
 What every run of the credit ledger keeps: available credit is never negative,
 a hold settles at most once, and both stored counters are accounted for exactly,
 across refills that reset the hold counter while old holds stay open.
 */
module CreditAccounting {
  import opened CreditLedger

  // ---- the invariant of every run ----

  ghost predicate SettledOnce(txs: seq<Tx>) {
    forall i, j, t {:trigger txs[i].Settles(t), txs[j].Settles(t)} ::
      0 <= i < |txs| && 0 <= j < |txs| && txs[i].Settles(t) && txs[j].Settles(t) ==> i == j
  }

  /** A settlement names a hold that precedes it, with the user and amount of that hold. */
  ghost predicate SettlesAHold(txs: seq<Tx>, i: nat)
    requires i < |txs|
  {
    forall t :: txs[i].Settles(t) ==>
      var h := HoldIndex(txs, t); h < i && txs[h].user == txs[i].user && txs[h].amount == txs[i].amount
  }

  ghost predicate Inv(l: Ledger) {
    && (forall i | 0 <= i < |l.txs| :: l.txs[i].user in l.accounts)
    && (forall u <- l.accounts :: l.accounts[u].Available() >= 0)
    && SettledOnce(l.txs)
    && (forall i | 0 <= i < |l.txs| :: SettlesAHold(l.txs, i))
  }

  lemma HoldIndexAppend(txs: seq<Tx>, tx: Tx, task: TaskId)
    ensures Held(txs, task) ==> HoldIndex(txs + [tx], task) == HoldIndex(txs, task)
    ensures !Held(txs, task) ==> HoldIndex(txs + [tx], task) == |txs| + (if tx.Holds(task) then 0 else 1)
  {
    assert (txs + [tx])[..|txs|] == txs;
  }

  lemma SettledAppend(txs: seq<Tx>, tx: Tx, task: TaskId)
    ensures Settled(txs + [tx], task) <==> Settled(txs, task) || tx.Settles(task)
  {
    if Settled(txs, task) {
      var i :| 0 <= i < |txs| && txs[i].Settles(task);
      assert (txs + [tx])[i].Settles(task);
    }
    if tx.Settles(task) {
      assert (txs + [tx])[|txs|].Settles(task);
    }
    if Settled(txs + [tx], task) {
      var i :| 0 <= i < |txs| + 1 && (txs + [tx])[i].Settles(task);
      assert i < |txs| ==> txs[i].Settles(task);
    }
  }

  lemma AppendKeepsSettlesAHold(l: Ledger, op: Op)
    requires Inv(l) && Accepts(l, op) && NewTx(l, op).Some?
    ensures forall i | 0 <= i < |Exec(l, op).txs| :: SettlesAHold(Exec(l, op).txs, i)
  {
    var tx, txs := NewTx(l, op).value, Exec(l, op).txs;
    forall i, t | 0 <= i < |txs| && txs[i].Settles(t)
      ensures var h := HoldIndex(txs, t); h < i && txs[h].user == txs[i].user && txs[h].amount == txs[i].amount {
      HoldIndexAppend(l.txs, tx, t);
      if i < |l.txs| {
        assert l.txs[i].Settles(t) && SettlesAHold(l.txs, i);
      }
    }
  }

  lemma AppendKeepsSettledOnce(txs: seq<Tx>, tx: Tx)
    requires SettledOnce(txs) && forall t :: tx.Settles(t) ==> !Settled(txs, t)
    ensures SettledOnce(txs + [tx])
  {
    var txs' := txs + [tx];
    forall i, j, t | 0 <= i < |txs'| && 0 <= j < |txs'| && txs'[i].Settles(t) && txs'[j].Settles(t) ensures i == j {
      assert i < |txs| ==> txs[i].Settles(t);
      assert j < |txs| ==> txs[j].Settles(t);
    }
  }

  lemma ExecKeepsInv(l: Ledger, op: Op)
    requires Inv(l)
    ensures Inv(Exec(l, op))
  {
    if Accepts(l, op) && NewTx(l, op).Some? {
      AppendKeepsSettlesAHold(l, op);
      AppendKeepsSettledOnce(l.txs, NewTx(l, op).value);
    }
  }

  lemma {:induction false} RunKeepsInv(l: Ledger, ops: seq<Op>)
    requires Inv(l)
    ensures Inv(Run(l, ops))
  {
    if ops != [] {
      RunKeepsInv(l, ops[..|ops| - 1]);
      ExecKeepsInv(Run(l, ops[..|ops| - 1]), ops[|ops| - 1]);
    }
  }

  /** Available credit is never negative, whatever the requests and their interleaving. */
  lemma {:induction false} AvailableNeverNegative(ops: seq<Op>, user: UserId)
    ensures Available(Run(EMPTY_LEDGER, ops), user) >= 0
  {
    RunKeepsInv(EMPTY_LEDGER, ops);
  }

  /** The stored counters themselves do go below zero: a hold committed after a refill spent its credit. */
  lemma LateCommitOverdraws(user: UserId, task: TaskId)
    ensures
      var l := Run(EMPTY_LEDGER, [CreateBalance(user, 0), HoldBalance(user, 30, task, 0), RefillBalance(user, FREE, 0),
                           DeductBalance(user, 30), CommitHold(task)]);
      l.accounts == map[user := Account(-30, -30, FREE, 0)]
  {
    RunFive(EMPTY_LEDGER, CreateBalance(user, 0), HoldBalance(user, 30, task, 0), RefillBalance(user, FREE, 0),
            DeductBalance(user, 30), CommitHold(task));
    HoldThenRefill(user, task);
    var held := Exec(Exec(EMPTY_LEDGER, CreateBalance(user, 0)), HoldBalance(user, 30, task, 0));
    LateCommit(Exec(held, RefillBalance(user, FREE, 0)), user, task);
  }

  lemma HoldThenRefill(user: UserId, task: TaskId)
    ensures Exec(Exec(Exec(EMPTY_LEDGER, CreateBalance(user, 0)), HoldBalance(user, 30, task, 0)),
                 RefillBalance(user, FREE, 0))
         == Ledger(map[user := Account(30, 0, FREE, 0)], [Hold(user, 30, task, 0), Refill(user, 0, FREE)])
  {
    var l := Exec(Exec(EMPTY_LEDGER, CreateBalance(user, 0)), HoldBalance(user, 30, task, 0));
    assert l == Ledger(map[user := Account(30, 30, FREE, 0)], [Hold(user, 30, task, 0)]);
  }

  lemma LateCommit(l: Ledger, user: UserId, task: TaskId)
    requires l == Ledger(map[user := Account(30, 0, FREE, 0)], [Hold(user, 30, task, 0), Refill(user, 0, FREE)])
    ensures Exec(Exec(l, DeductBalance(user, 30)), CommitHold(task)).accounts == map[user := Account(-30, -30, FREE, 0)]
  {
    var l' := Exec(l, DeductBalance(user, 30));
    assert l'.txs[0].Holds(task);
    assert Open(l'.txs, task);
  }

  lemma RunFive(l: Ledger, a: Op, b: Op, c: Op, d: Op, e: Op)
    ensures Run(l, [a, b, c, d, e]) == Exec(Exec(Exec(Exec(Exec(l, a), b), c), d), e)
  {
    assert [a, b, c, d, e][..4] == [a, b, c, d];
    assert [a, b, c, d][..3] == [a, b, c];
    assert [a, b, c][..2] == [a, b];
    assert [a, b][..1] == [a];
    assert [a][..0] == [];
    assert Run(l, [a]) == Exec(l, a);
    assert Run(l, [a, b]) == Exec(Run(l, [a]), b);
    assert Run(l, [a, b, c]) == Exec(Run(l, [a, b]), c);
  }

  // ---- a hold settles at most once ----

  /** Settling an open hold takes its amount from the hold counter, and from the balance iff it is a commit. */
  lemma SettlingEffect(l: Ledger, op: Op, task: TaskId)
    requires Inv(l) && Open(l.txs, task) && (op == CommitHold(task) || op == RollbackHold(task))
    ensures
      var h, l' := l.txs[HoldIndex(l.txs, task)], Exec(l, op);
      && h.user in l.accounts && l'.accounts.Keys == l.accounts.Keys
      && l'.accounts[h.user].hold == l.accounts[h.user].hold - h.amount
      && l'.accounts[h.user].balance == l.accounts[h.user].balance - (if op.CommitHold? then h.amount else 0)
      && (forall u <- l.accounts :: u != h.user ==> l'.accounts[u] == l.accounts[u])
      && Settled(l'.txs, task)
  {
    SettledAppend(l.txs, NewTx(l, op).value, task);
  }

  /** Once settled, a task stays settled the same way under every later run, and settling it again is a no-op. */
  lemma {:induction false} FirstSettlementWins(l: Ledger, ops: seq<Op>, task: TaskId, i: nat)
    requires Inv(l) && i < |l.txs| && l.txs[i].Settles(task)
    ensures i < |Run(l, ops).txs| && Run(l, ops).txs[i] == l.txs[i]
    ensures forall j | 0 <= j < |Run(l, ops).txs| :: Run(l, ops).txs[j].Settles(task) ==> j == i
    ensures Exec(Run(l, ops), CommitHold(task)) == Run(l, ops)
    ensures Exec(Run(l, ops), RollbackHold(task)) == Run(l, ops)
  {
    if ops != [] {
      FirstSettlementWins(l, ops[..|ops| - 1], task, i);
    }
    RunKeepsInv(l, ops);
    assert Run(l, ops).txs[i].Settles(task);
  }

  // ---- exact accounting ----

  /** Task ids are unique per request: no call holds a task the ledger already holds. */
  ghost predicate FreshHolds(l: Ledger, ops: seq<Op>) {
    forall n | 0 <= n < |ops| :: ops[n].HoldBalance? ==> !Held(Run(l, ops[..n]).txs, ops[n].task)
  }

  ghost predicate HeldOnce(txs: seq<Tx>) {
    forall i | 0 <= i < |txs| :: txs[i].Hold? ==> HoldIndex(txs, txs[i].task) == i
  }

  /** The index just after the user's last refill, or 0. */
  function SinceRefill(txs: seq<Tx>, user: UserId): (n: nat)
    ensures n <= |txs|
    ensures n > 0 ==> txs[n - 1].Refill? && txs[n - 1].user == user
    ensures forall i | n <= i < |txs| :: !(txs[i].Refill? && txs[i].user == user)
  {
    if txs == [] then 0
    else if txs[|txs| - 1].Refill? && txs[|txs| - 1].user == user then |txs|
    else SinceRefill(txs[..|txs| - 1], user)
  }

  /** The credit the current cycle started with. */
  function Grant(txs: seq<Tx>, user: UserId): nat {
    var n := SinceRefill(txs, user);
    if n == 0 then PlanLimit(FREE) else PlanLimit(txs[n - 1].plan)
  }

  predicate Committed(txs: seq<Tx>, task: TaskId) {
    exists i | 0 <= i < |txs| :: txs[i].Commit? && txs[i].Settles(task)
  }

  datatype Bucket = Deducted | Refunded | OpenNew | CommittedNew | EarlierCommitted | EarlierRolledBack

  /** What row i of the current cycle contributes; "earlier" holds were placed before the last refill. */
  function Value(txs: seq<Tx>, user: UserId, b: Bucket, i: nat): nat
    requires i < |txs|
  {
    var tx := txs[i];
    if tx.user != user || i < SinceRefill(txs, user) then 0
    else match b
      case Deducted => if tx.Deduct? then tx.amount else 0
      case Refunded => if tx.Refund? then tx.amount else 0
      case OpenNew => if tx.Hold? && !Settled(txs, tx.task) then tx.amount else 0
      case CommittedNew => if tx.Hold? && Committed(txs, tx.task) then tx.amount else 0
      case EarlierCommitted => if tx.Commit? && HoldIndex(txs, tx.task) < SinceRefill(txs, user) then tx.amount else 0
      case EarlierRolledBack =>
        if tx.Rollback? && HoldIndex(txs, tx.task) < SinceRefill(txs, user) then tx.amount else 0
  }

  function Total(txs: seq<Tx>, user: UserId, b: Bucket, n: nat): nat
    requires n <= |txs|
  {
    if n == 0 then 0 else Total(txs, user, b, n - 1) + Value(txs, user, b, n - 1)
  }

  function Sum(txs: seq<Tx>, user: UserId, b: Bucket): nat { Total(txs, user, b, |txs|) }

  ghost predicate Accounted(l: Ledger, user: UserId) {
    user in l.accounts ==>
      && l.accounts[user].hold
         == Sum(l.txs, user, OpenNew) - Sum(l.txs, user, EarlierCommitted) - Sum(l.txs, user, EarlierRolledBack)
      && l.accounts[user].Available()
         == Grant(l.txs, user) + Sum(l.txs, user, Refunded) + Sum(l.txs, user, EarlierRolledBack)
            - Sum(l.txs, user, Deducted) - Sum(l.txs, user, CommittedNew) - Sum(l.txs, user, OpenNew)
  }

  /** Appending a row that is no refill of the user changes a total by the new row and, at most, by row h. */
  lemma {:induction false} TotalAppend(txs: seq<Tx>, tx: Tx, user: UserId, b: Bucket, h: nat, n: nat)
    requires n <= |txs|
    requires forall i | 0 <= i < |txs| && i != h :: Value(txs + [tx], user, b, i) == Value(txs, user, b, i)
    ensures Total(txs + [tx], user, b, n) == Total(txs, user, b, n)
            + (if h < n then Value(txs + [tx], user, b, h) - Value(txs, user, b, h) else 0)
  {
    if n > 0 {
      TotalAppend(txs, tx, user, b, h, n - 1);
    }
  }

  lemma {:induction false} TotalBeforeRefill(txs: seq<Tx>, user: UserId, b: Bucket, n: nat)
    requires n <= |txs| && n <= SinceRefill(txs, user)
    ensures Total(txs, user, b, n) == 0
  {
    if n > 0 {
      TotalBeforeRefill(txs, user, b, n - 1);
    }
  }

  /** How one new row changes every bucket: row h is the hold it settles, if it settles one. */
  lemma SumAppend(txs: seq<Tx>, tx: Tx, user: UserId, b: Bucket, h: nat)
    requires !(tx.Refill? && tx.user == user)
    requires forall i | 0 <= i < |txs| :: SettlesAHold(txs, i)
    requires HeldOnce(txs) && (tx.Hold? ==> !Held(txs, tx.task))
    requires tx.Commit? || tx.Rollback? ==> h == HoldIndex(txs, tx.task) < |txs|
    requires !(tx.Commit? || tx.Rollback?) ==> h == |txs|
    ensures SinceRefill(txs + [tx], user) == SinceRefill(txs, user) && Grant(txs + [tx], user) == Grant(txs, user)
    ensures Sum(txs + [tx], user, b) == Sum(txs, user, b) + Value(txs + [tx], user, b, |txs|)
            + (if h < |txs| then Value(txs + [tx], user, b, h) - Value(txs, user, b, h) else 0)
  {
    assert (txs + [tx])[..|txs|] == txs;
    forall i | 0 <= i < |txs| && i != h ensures Value(txs + [tx], user, b, i) == Value(txs, user, b, i) {
      ValueAppend(txs, tx, user, b, i);
    }
    TotalAppend(txs, tx, user, b, h, |txs|);
  }

  /** An old row keeps its value, unless it is the hold the new row settles. */
  lemma ValueAppend(txs: seq<Tx>, tx: Tx, user: UserId, b: Bucket, i: nat)
    requires i < |txs| && !(tx.Refill? && tx.user == user)
    requires HeldOnce(txs) && SettlesAHold(txs, i)
    requires txs[i].Hold? ==> !tx.Settles(txs[i].task)
    ensures Value(txs + [tx], user, b, i) == Value(txs, user, b, i)
  {
    assert (txs + [tx])[..|txs|] == txs;
    assert SinceRefill(txs + [tx], user) == SinceRefill(txs, user);
    if txs[i].Hold? {
      SettledAppend(txs, tx, txs[i].task);
      CommittedAppend(txs, tx, txs[i].task);
    } else if txs[i].Commit? || txs[i].Rollback? {
      assert txs[i].Settles(txs[i].task);
      HoldIndexAppend(txs, tx, txs[i].task);
    }
  }

  lemma CommittedIsSettled(txs: seq<Tx>, task: TaskId)
    ensures Committed(txs, task) ==> Settled(txs, task)
  {
  }

  lemma CommittedAppend(txs: seq<Tx>, tx: Tx, task: TaskId)
    ensures Committed(txs + [tx], task) <==> Committed(txs, task) || (tx.Commit? && tx.Settles(task))
  {
    if Committed(txs, task) {
      var i :| 0 <= i < |txs| && txs[i].Commit? && txs[i].Settles(task);
      assert (txs + [tx])[i].Settles(task);
    }
    if tx.Commit? && tx.Settles(task) {
      assert (txs + [tx])[|txs|].Settles(task);
    }
    if Committed(txs + [tx], task) {
      var i :| 0 <= i < |txs| + 1 && (txs + [tx])[i].Commit? && (txs + [tx])[i].Settles(task);
      assert i < |txs| ==> txs[i].Settles(task);
    }
  }

  lemma RefillAccounted(l: Ledger, op: Op, user: UserId)
    requires Accepts(l, op) && op.RefillBalance? && op.user == user
    ensures Accounted(Exec(l, op), user)
  {
    var txs := Exec(l, op).txs;
    assert SinceRefill(txs, user) == |txs|;
    forall b ensures Sum(txs, user, b) == 0 {
      TotalBeforeRefill(txs, user, b, |txs|);
    }
  }

  /** A user whose balance row does not exist yet has no row in the ledger. */
  lemma {:induction false} NoRowsNoTotal(txs: seq<Tx>, user: UserId, b: Bucket, n: nat)
    requires n <= |txs| && forall i | 0 <= i < |txs| :: txs[i].user != user
    ensures Total(txs, user, b, n) == 0
  {
    if n > 0 {
      NoRowsNoTotal(txs, user, b, n - 1);
    }
  }

  lemma ExecAccounted(l: Ledger, op: Op, user: UserId)
    requires Inv(l) && HeldOnce(l.txs) && Accounted(l, user)
    requires op.HoldBalance? ==> !Held(l.txs, op.task)
    ensures Accounted(Exec(l, op), user)
  {
    if Accepts(l, op) {
      if op.CreateBalance? {
        if op.user == user {
          assert SinceRefill(l.txs, user) == 0;
          forall b ensures Sum(l.txs, user, b) == 0 {
            NoRowsNoTotal(l.txs, user, b, |l.txs|);
          }
        }
      } else if op.RefillBalance? && op.user == user {
        RefillAccounted(l, op, user);
      } else {
        RowAccounted(l, op, user);
      }
    }
  }

  /** What a new row of the user adds to each bucket; `isNew` tells whether the hold it settles is of this cycle. */
  function Delta(tx: Tx, b: Bucket, isNew: bool): int {
    var settles := tx.Commit? || tx.Rollback?;
    var amount: int := if tx.Refill? then 0 else tx.amount;
    match b
    case Deducted => if tx.Deduct? then amount else 0
    case Refunded => if tx.Refund? then amount else 0
    case OpenNew => if tx.Hold? then amount else if settles && isNew then -amount else 0
    case CommittedNew => if tx.Commit? && isNew then amount else 0
    case EarlierCommitted => if tx.Commit? && !isNew then amount else 0
    case EarlierRolledBack => if tx.Rollback? && !isNew then amount else 0
  }

  lemma BucketChanges(l: Ledger, op: Op, user: UserId, b: Bucket)
    requires Inv(l) && HeldOnce(l.txs) && Accepts(l, op) && NewTx(l, op).Some?
    requires !(op.RefillBalance? && op.user == user)
    requires op.HoldBalance? ==> !Held(l.txs, op.task)
    ensures
      var tx, txs' := NewTx(l, op).value, Exec(l, op).txs;
      var isNew := (tx.Commit? || tx.Rollback?) && HoldIndex(l.txs, tx.task) >= SinceRefill(l.txs, user);
      && Grant(txs', user) == Grant(l.txs, user)
      && Sum(txs', user, b) == Sum(l.txs, user, b) + (if tx.user == user then Delta(tx, b, isNew) else 0)
  {
    var txs, tx := l.txs, NewTx(l, op).value;
    if tx.Commit? || tx.Rollback? {
      SettlingAppend(txs, tx, user, b);
    } else {
      PlainAppend(txs, tx, user, b);
    }
  }

  /** A settlement moves the amount of its hold between buckets. */
  lemma SettlingAppend(txs: seq<Tx>, tx: Tx, user: UserId, b: Bucket)
    requires HeldOnce(txs) && (forall i | 0 <= i < |txs| :: SettlesAHold(txs, i))
    requires (tx.Commit? || tx.Rollback?) && Open(txs, tx.task)
    requires var h := txs[HoldIndex(txs, tx.task)]; h.user == tx.user && h.amount == tx.amount
    ensures
      var isNew := HoldIndex(txs, tx.task) >= SinceRefill(txs, user);
      && Grant(txs + [tx], user) == Grant(txs, user)
      && Sum(txs + [tx], user, b) == Sum(txs, user, b) + (if tx.user == user then Delta(tx, b, isNew) else 0)
  {
    SumAppend(txs, tx, user, b, HoldIndex(txs, tx.task));
    SettledAppend(txs, tx, tx.task);
    CommittedAppend(txs, tx, tx.task);
    HoldIndexAppend(txs, tx, tx.task);
    CommittedIsSettled(txs, tx.task);
  }

  lemma PlainAppend(txs: seq<Tx>, tx: Tx, user: UserId, b: Bucket)
    requires HeldOnce(txs) && (forall i | 0 <= i < |txs| :: SettlesAHold(txs, i))
    requires !tx.Commit? && !tx.Rollback? && !(tx.Refill? && tx.user == user) && (tx.Hold? ==> !Held(txs, tx.task))
    ensures Grant(txs + [tx], user) == Grant(txs, user)
    ensures Sum(txs + [tx], user, b) == Sum(txs, user, b) + (if tx.user == user then Delta(tx, b, false) else 0)
  {
    SumAppend(txs, tx, user, b, |txs|);
    if tx.Hold? {
      NotHeldNotSettled(txs, tx.task);
      SettledAppend(txs, tx, tx.task);
      CommittedAppend(txs, tx, tx.task);
      CommittedIsSettled(txs, tx.task);
    }
  }

  lemma NotHeldNotSettled(txs: seq<Tx>, task: TaskId)
    requires forall i | 0 <= i < |txs| :: SettlesAHold(txs, i)
    ensures !Held(txs, task) ==> !Settled(txs, task)
  {
    if i :| 0 <= i < |txs| && txs[i].Settles(task) {
      assert SettlesAHold(txs, i);
    }
  }

  /** What a row does to the user's counters, however old the hold it settles. */
  lemma CountersChange(l: Ledger, op: Op, user: UserId, isNew: bool)
    requires Accepts(l, op) && !op.CreateBalance? && !(op.RefillBalance? && op.user == user) && user in l.accounts
    ensures
      var tx, a, a' := NewTx(l, op).value, l.accounts[user], Exec(l, op).accounts[user];
      if tx.user == user then
        && a'.hold - a.hold
           == Delta(tx, OpenNew, isNew) - Delta(tx, EarlierCommitted, isNew) - Delta(tx, EarlierRolledBack, isNew)
        && a'.Available() - a.Available()
           == Delta(tx, Refunded, isNew) + Delta(tx, EarlierRolledBack, isNew)
              - Delta(tx, Deducted, isNew) - Delta(tx, CommittedNew, isNew) - Delta(tx, OpenNew, isNew)
      else a' == a
  {
  }

  lemma RowAccounted(l: Ledger, op: Op, user: UserId)
    requires Inv(l) && HeldOnce(l.txs) && Accounted(l, user) && Accepts(l, op)
    requires !op.CreateBalance? && !(op.RefillBalance? && op.user == user)
    requires op.HoldBalance? ==> !Held(l.txs, op.task)
    ensures Accounted(Exec(l, op), user)
  {
    if user in l.accounts {
      var tx := NewTx(l, op).value;
      var isNew := (tx.Commit? || tx.Rollback?) && HoldIndex(l.txs, tx.task) >= SinceRefill(l.txs, user);
      CountersChange(l, op, user, isNew);
      forall b { BucketChanges(l, op, user, b); }
    }
  }

  lemma ExecKeepsHeldOnce(l: Ledger, op: Op)
    requires HeldOnce(l.txs) && (op.HoldBalance? ==> !Held(l.txs, op.task))
    ensures HeldOnce(Exec(l, op).txs)
  {
    if Accepts(l, op) && NewTx(l, op).Some? {
      var tx, txs := NewTx(l, op).value, Exec(l, op).txs;
      forall i | 0 <= i < |txs| && txs[i].Hold? ensures HoldIndex(txs, txs[i].task) == i {
        HoldIndexAppend(l.txs, tx, txs[i].task);
        assert i < |l.txs| ==> l.txs[i].Hold?;
      }
    }
  }

  /**
   On every run with unique task ids and for every user, the hold counter is the
   open holds of this cycle minus the earlier holds settled in it, and available
   credit is the grant plus refunds and rolled-back earlier holds, minus deducts
   and the holds of this cycle that are committed or still open.
   */
  lemma {:induction false} EveryRunIsAccounted(ops: seq<Op>, user: UserId)
    requires FreshHolds(EMPTY_LEDGER, ops)
    ensures HeldOnce(Run(EMPTY_LEDGER, ops).txs) && Accounted(Run(EMPTY_LEDGER, ops), user)
  {
    if ops != [] {
      var n := |ops| - 1;
      assert forall m | 0 <= m < n :: ops[..n][..m] == ops[..m];
      EveryRunIsAccounted(ops[..n], user);
      RunKeepsInv(EMPTY_LEDGER, ops[..n]);
      ExecAccounted(Run(EMPTY_LEDGER, ops[..n]), ops[n], user);
      ExecKeepsHeldOnce(Run(EMPTY_LEDGER, ops[..n]), ops[n]);
    }
  }

  /**
   So the stored counters fall below zero exactly so: the hold counter when the earlier
   holds settled since the refill exceed the open new ones, the balance when what was
   deducted and committed since, earlier holds included, exceeds the grant and refunds.
   */
  lemma NegativeCountersIff(ops: seq<Op>, user: UserId)
    requires FreshHolds(EMPTY_LEDGER, ops) && user in Run(EMPTY_LEDGER, ops).accounts
    ensures
      var l := Run(EMPTY_LEDGER, ops);
      var a, txs := l.accounts[user], l.txs;
      && (a.hold < 0 <==>
            Sum(txs, user, EarlierCommitted) + Sum(txs, user, EarlierRolledBack) > Sum(txs, user, OpenNew))
      && (a.balance < 0 <==>
            Sum(txs, user, Deducted) + Sum(txs, user, CommittedNew) + Sum(txs, user, EarlierCommitted)
              > Grant(txs, user) + Sum(txs, user, Refunded))
  {
    EveryRunIsAccounted(ops, user);
  }
}
