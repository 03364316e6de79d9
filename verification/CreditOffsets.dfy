/**
 Two runs of the ledger that differ in what one user has paid: the difference stays
 through all calls of other requests, until a refill of that user levels it.
 */
module CreditOffsets {
  import opened CreditLedger
  import opened CreditAccounting

  function Paying(a: Account, paid: int): Account { a.(balance := a.balance - paid) }

  /** The two ledgers agree on every hold and on whether it is settled. */
  ghost predicate SameHolds(txs: seq<Tx>, txs': seq<Tx>) {
    forall t :: SameHold(txs, txs', t)
  }

  ghost predicate SameHold(txs: seq<Tx>, txs': seq<Tx>, t: TaskId) {
    && (Held(txs, t) <==> Held(txs', t)) && (Settled(txs, t) <==> Settled(txs', t))
    && (Held(txs, t) ==> txs[HoldIndex(txs, t)] == txs'[HoldIndex(txs', t)])
  }

  /** The second ledger is the first with `paid` less on the user's balance. */
  ghost predicate Offset(l: Ledger, l': Ledger, user: UserId, paid: int) {
    && SameHolds(l.txs, l'.txs) && l'.accounts.Keys == l.accounts.Keys
    && forall v <- l.accounts :: l'.accounts[v] == Paying(l.accounts[v], if v == user then paid else 0)
  }

  /** No call is refused in one of the runs only. */
  ghost predicate SameVerdicts(l: Ledger, l': Ledger, ops: seq<Op>) {
    forall n | 0 <= n < |ops| :: Accepts(Run(l, ops[..n]), ops[n]) <==> Accepts(Run(l', ops[..n]), ops[n])
  }

  predicate Refills(op: Op, user: UserId) { op.RefillBalance? && op.user == user }

  predicate Refilled(ops: seq<Op>, user: UserId) { exists n | 0 <= n < |ops| :: Refills(ops[n], user) }

  lemma SameHoldAppend(txs: seq<Tx>, txs': seq<Tx>, tx: Tx, tx': Tx, t: TaskId)
    requires SameHold(txs, txs', t) && (tx == tx' || (tx.Refill? && tx'.Refill?))
    ensures SameHold(txs + [tx], txs' + [tx'], t)
  {
    HoldIndexAppend(txs, tx, t);
    HoldIndexAppend(txs', tx', t);
    SettledAppend(txs, tx, t);
    SettledAppend(txs', tx', t);
  }

  /** A row that is no hold and no settlement tells nothing about holds. */
  lemma SameHoldsWithout(txs: seq<Tx>, tx: Tx)
    requires tx.Deduct? || tx.Refund? || tx.Refill?
    ensures SameHolds(txs, txs + [tx])
  {
    forall t ensures SameHold(txs, txs + [tx], t) {
      HoldIndexAppend(txs, tx, t);
      SettledAppend(txs, tx, t);
    }
  }

  lemma HoldsStep(l: Ledger, l': Ledger, op: Op)
    requires SameHolds(l.txs, l'.txs) && Accepts(l, op) && Accepts(l', op) && !op.CreateBalance?
    ensures SameHolds(Exec(l, op).txs, Exec(l', op).txs)
  {
    assert op.CommitHold? || op.RollbackHold? ==> SameHold(l.txs, l'.txs, op.task);
    var tx, tx' := NewTx(l, op).value, NewTx(l', op).value;
    forall t ensures SameHold(l.txs + [tx], l'.txs + [tx'], t) {
      SameHoldAppend(l.txs, l'.txs, tx, tx', t);
    }
  }

  lemma AccountsStep(l: Ledger, l': Ledger, user: UserId, paid: int, op: Op)
    requires Offset(l, l', user, paid) && user in l.accounts && Accepts(l, op) && Accepts(l', op)
    ensures var (v, a), (v', a') := NewAccount(l, op), NewAccount(l', op);
            v == v' && a' == Paying(a, if v == user && !Refills(op, user) then paid else 0)
  {
    assert op.CommitHold? || op.RollbackHold? ==> SameHold(l.txs, l'.txs, op.task);
  }

  lemma OffsetStep(l: Ledger, l': Ledger, user: UserId, paid: int, op: Op)
    requires Offset(l, l', user, paid) && user in l.accounts && (Accepts(l, op) <==> Accepts(l', op))
    ensures Offset(Exec(l, op), Exec(l', op), user, if Refills(op, user) then 0 else paid)
  {
    if Accepts(l, op) {
      AccountsStep(l, l', user, paid, op);
      if !op.CreateBalance? {
        HoldsStep(l, l', op);
      }
    }
  }

  lemma Prefixes(l: Ledger, l': Ledger, user: UserId, ops: seq<Op>, op: Op)
    requires SameVerdicts(l, l', ops + [op])
    ensures SameVerdicts(l, l', ops) && (Accepts(Run(l, ops), op) <==> Accepts(Run(l', ops), op))
    ensures Refilled(ops + [op], user) <==> Refilled(ops, user) || Refills(op, user)
  {
    var all := ops + [op];
    assert forall m | 0 <= m <= |ops| :: all[..m] == ops[..m];
    assert ops[..|ops|] == ops && all[|ops|] == op;
    if Refilled(ops, user) {
      var n :| 0 <= n < |ops| && Refills(ops[n], user);
      assert Refills(all[n], user);
    }
  }

  lemma {:induction false} OffsetRun(l: Ledger, l': Ledger, user: UserId, paid: int, ops: seq<Op>)
    requires Offset(l, l', user, paid) && user in l.accounts && SameVerdicts(l, l', ops)
    ensures user in Run(l, ops).accounts
    ensures Offset(Run(l, ops), Run(l', ops), user, if Refilled(ops, user) then 0 else paid)
  {
    if ops != [] {
      var rest, op := ops[..|ops| - 1], ops[|ops| - 1];
      assert ops == rest + [op];
      Prefixes(l, l', user, rest, op);
      OffsetRun(l, l', user, paid, rest);
      OffsetStep(Run(l, rest), Run(l', rest), user, if Refilled(rest, user) then 0 else paid, op);
    }
  }

  /** A charge offsets everything after it by its cost, up to the next refill of the user. */
  lemma ChargeIsAnOffset(l: Ledger, user: UserId, cost: nat, ops: seq<Op>)
    requires Accepts(l, DeductBalance(user, cost)) && SameVerdicts(l, Exec(l, DeductBalance(user, cost)), ops)
    ensures Offset(Run(l, ops), Run(Exec(l, DeductBalance(user, cost)), ops), user,
                   if Refilled(ops, user) then 0 else cost)
    ensures user in Run(l, ops).accounts
  {
    var charged := Exec(l, DeductBalance(user, cost));
    SameHoldsWithout(l.txs, Deduct(user, cost));
    OffsetRun(l, charged, user, cost, ops);
  }

  /** And a refund at the end takes its amount off the difference. */
  lemma RefundTakesBack(l: Ledger, l': Ledger, user: UserId, paid: int, amount: nat)
    requires Offset(l, l', user, paid) && user in l.accounts
    ensures Offset(l, Exec(l', RefundBalance(user, amount)), user, paid - amount)
  {
    SameHoldsWithout(l'.txs, Refund(user, amount));
    var refunded := Exec(l', RefundBalance(user, amount));
    forall t ensures SameHold(l.txs, refunded.txs, t) {
      assert SameHold(l.txs, l'.txs, t) && SameHold(l'.txs, refunded.txs, t);
    }
  }
}
