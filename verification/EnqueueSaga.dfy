/**
 Queueing a graph generation or an add-node job: credit is held first, the
 message is sent last, and the catch block rolls the hold back if it was not sent.
 */
module EnqueueSaga {
  import opened CreditLedger
  import opened CreditAccounting
  import opened CreditService

  /** The external calls of the two requests; each may finally fail. */
  datatype Step =
    | GetStats | ListConversations | FindNotes | ListFiles | FindNotionPages
    | SaveStats | UploadInput | UploadNotes | UploadNotionPages | ListClusters | UploadBatch | CopyFiles
    | GetLanguage | SendMessage | NotifyRequested

  predicate NoneFails(fails: Step -> bool, steps: set<Step>) { forall s <- steps :: !fails(s) }

  /** The calls before the hold, and those between the hold and the end of the send. */
  function Gathering(notion: bool): set<Step> {
    {ListConversations, FindNotes, ListFiles} + if notion then {FindNotionPages} else {}
  }

  function Preparing(notion: bool): set<Step> {
    {SaveStats, UploadInput, UploadNotes, CopyFiles, GetLanguage, SendMessage}
    + if notion then {UploadNotionPages} else {}
  }

  const ADD_NODE_GATHERING: set<Step> := {GetStats, ListConversations, FindNotes, ListFiles}

  function AddNodePreparing(work: Work): set<Step> {
    {ListClusters, UploadBatch, GetLanguage, SaveStats, SendMessage} + if work.files > 0 then {CopyFiles} else {}
  }

  lemma StepsOf(fails: Step -> bool, notion: bool)
    ensures NoneFails(fails, Gathering(notion)) <==>
            !(fails(ListConversations) || fails(FindNotes) || fails(ListFiles) || (notion && fails(FindNotionPages)))
    ensures NoneFails(fails, Preparing(notion)) <==>
            !(fails(SaveStats) || fails(UploadInput) || fails(UploadNotes) || (notion && fails(UploadNotionPages))
              || fails(CopyFiles) || fails(GetLanguage) || fails(SendMessage))
  {
  }

  lemma AddNodeStepsOf(fails: Step -> bool, work: Work)
    ensures NoneFails(fails, ADD_NODE_GATHERING) <==>
            !(fails(GetStats) || fails(ListConversations) || fails(FindNotes) || fails(ListFiles))
    ensures NoneFails(fails, AddNodePreparing(work)) <==>
            !(fails(ListClusters) || fails(UploadBatch) || (work.files > 0 && fails(CopyFiles))
              || fails(GetLanguage) || fails(SaveStats) || fails(SendMessage))
  {
  }

  datatype RequestResult = Queued(task: TaskId) | Nothing | Threw

  /** What the user has in the library that is due for processing. */
  datatype Work = Work(conversations: nat, notes: nat, files: nat, notionPages: nat)

  // ---- the rows of one task ----

  /** A task id minted for this request is in no ledger row yet. */
  ghost predicate Fresh(l: Ledger, task: TaskId) { RowsOf(l.txs, task) == [] }

  /** Other requests do not know the task id, so none of their calls names it. */
  predicate Spares(ops: seq<Op>, task: TaskId) {
    forall n | 0 <= n < |ops| ::
      ops[n].HoldBalance? || ops[n].CommitHold? || ops[n].RollbackHold? ==> ops[n].task != task
  }

  function RowsOf(txs: seq<Tx>, task: TaskId): seq<Tx> {
    if txs == [] then []
    else
      var tx := txs[|txs| - 1];
      RowsOf(txs[..|txs| - 1], task) + if tx.Holds(task) || tx.Settles(task) then [tx] else []
  }

  lemma RowsAppend(txs: seq<Tx>, tx: Tx, task: TaskId)
    ensures RowsOf(txs + [tx], task) == RowsOf(txs, task) + if tx.Holds(task) || tx.Settles(task) then [tx] else []
  {
    assert (txs + [tx])[..|txs|] == txs;
  }

  lemma {:induction false} OthersSpareRows(l: Ledger, ops: seq<Op>, task: TaskId)
    requires Spares(ops, task)
    ensures RowsOf(Run(l, ops).txs, task) == RowsOf(l.txs, task)
  {
    if ops != [] {
      var n := |ops| - 1;
      var mid := Run(l, ops[..n]);
      OthersSpareRows(l, ops[..n], task);
      if Accepts(mid, ops[n]) && NewTx(mid, ops[n]).Some? {
        RowsAppend(mid.txs, NewTx(mid, ops[n]).value, task);
      }
    }
  }

  predicate AnyHold(rows: seq<Tx>) { exists i | 0 <= i < |rows| :: rows[i].Hold? }

  predicate AnySettling(rows: seq<Tx>) { exists i | 0 <= i < |rows| :: !rows[i].Hold? }

  /** The rows of a task tell whether it is held and settled, and by which hold. */
  lemma {:induction false} RowsTell(txs: seq<Tx>, task: TaskId)
    ensures Held(txs, task) <==> AnyHold(RowsOf(txs, task))
    ensures Settled(txs, task) <==> AnySettling(RowsOf(txs, task))
    ensures Held(txs, task) && RowsOf(txs, task)[0].Hold? ==> txs[HoldIndex(txs, task)] == RowsOf(txs, task)[0]
  {
    if txs != [] {
      var rest, tx := txs[..|txs| - 1], txs[|txs| - 1];
      assert txs == rest + [tx];
      RowsTell(rest, task);
      HoldIndexAppend(rest, tx, task);
      SettledAppend(rest, tx, task);
      if tx.Holds(task) || tx.Settles(task) {
        AnyAppend(RowsOf(rest, task), tx);
      } else {
        assert RowsOf(txs, task) == RowsOf(rest, task);
      }
    }
  }

  lemma AnyAppend(rows: seq<Tx>, tx: Tx)
    ensures AnyHold(rows + [tx]) <==> AnyHold(rows) || tx.Hold?
    ensures AnySettling(rows + [tx]) <==> AnySettling(rows) || !tx.Hold?
  {
    assert (rows + [tx])[|rows|] == tx;
    if i :| 0 <= i < |rows| && rows[i].Hold? {
      assert (rows + [tx])[i].Hold?;
    }
    if i :| 0 <= i < |rows| && !rows[i].Hold? {
      assert !(rows + [tx])[i].Hold?;
    }
  }

  // ---- how a request ends ----

  /** Who asks, at what price, and the task id minted for it. */
  datatype Request = Request(user: UserId, cost: nat, task: TaskId, now: int) {
    function HoldOp(): Op { CreditLedger.HoldBalance(user, cost, task, now + HOLD_EXPIRY) }
    function HoldRow(): Tx { CreditLedger.Hold(user, cost, task, now + HOLD_EXPIRY) }
    function RollbackRow(): Tx { CreditLedger.Rollback(user, cost, task) }
  }

  /** What other requests do between the check and the hold, until the send, and during the rollback. */
  datatype Others = Others(before: seq<Op>, during: seq<Op>, late: seq<Op>) {
    predicate Spare(task: TaskId) { Spares(before, task) && Spares(during, task) && Spares(late, task) }
  }

  /** The credit suffices when it is read, and still does after what others do before the update. */
  predicate Holds(l: Ledger, rq: Request, before: seq<Op>, f: Faults) {
    && !f.read && !f.write && Available(Ensured(l, rq.user, rq.now), rq.user) >= rq.cost
    && Accepts(Run(Ensured(l, rq.user, rq.now), before), rq.HoldOp())
  }

  /** The ledger after the hold was tried. */
  function HoldTried(l: Ledger, rq: Request, before: seq<Op>, f: Faults): Ledger {
    var l1 := Ensured(l, rq.user, rq.now);
    if f.read then l
    else if Available(l1, rq.user) < rq.cost then l1
    else if f.write then Run(l1, before)
    else Exec(Run(l1, before), rq.HoldOp())
  }

  /** The ledger once the request is over. */
  function EndLedger(l0: Ledger, rq: Request, o: Others, f: Faults, reached: bool, stays: bool): Ledger {
    var tried := HoldTried(l0, rq, o.before, f);
    if !reached then l0
    else if !Holds(l0, rq, o.before, f) then tried
    else if stays then Run(tried, o.during)
    else Exec(Run(Run(tried, o.during), o.late), CreditLedger.RollbackHold(rq.task))
  }

  /** The user has this much more on hold; every account is as it was in all else. */
  ghost predicate HeldFor(l0: Ledger, l: Ledger, user: UserId, amount: nat) {
    forall u <- l0.accounts :: u in l.accounts
      && l.accounts[u] == l0.accounts[u].(hold := l0.accounts[u].hold + if u == user then amount else 0)
  }

  /**
   The request wrote no row, an open hold, or a hold and its rollback, whatever rows of
   others lie between; the hold is open iff the message was sent or the rollback failed.
   Without others, an open hold has taken the price from what its user can spend, and
   all else is as it was.
   */
  ghost predicate SagaEnd(l0: Ledger, l: Ledger, rq: Request, o: Others, f: Faults,
                          reached: bool, sent: bool, rollbackFails: bool) {
    var held, stays := reached && Holds(l0, rq, o.before, f), sent || rollbackFails;
    && (sent ==> held) && l == EndLedger(l0, rq, o, f, reached, stays) && RowsEnd(l, rq, held, stays)
    && (o == Others([], [], []) ==> HeldFor(l0, l, rq.user, if held && stays then rq.cost else 0))
  }

  ghost predicate RowsEnd(l: Ledger, rq: Request, held: bool, stays: bool) {
    var hold := CreditLedger.Hold(rq.user, rq.cost, rq.task, rq.now + HOLD_EXPIRY);
    && Inv(l)
    && RowsOf(l.txs, rq.task) == (if !held then [] else if stays then [hold]
                                  else [hold, CreditLedger.Rollback(rq.user, rq.cost, rq.task)])
    && (Held(l.txs, rq.task) <==> held) && (Open(l.txs, rq.task) <==> held && stays)
  }

  /** What is known while the hold is open. */
  ghost predicate Holding(l0: Ledger, l: Ledger, rq: Request, o: Others, f: Faults) {
    && Holds(l0, rq, o.before, f) && l == Run(HoldTried(l0, rq, o.before, f), o.during)
    && Inv(l) && RowsOf(l.txs, rq.task) == [rq.HoldRow()]
  }

  /** Others do not touch the rows of the task. */
  lemma OthersKeepRows(l: Ledger, ops: seq<Op>, task: TaskId)
    requires Inv(l) && Spares(ops, task)
    ensures Inv(Run(l, ops)) && RowsOf(Run(l, ops).txs, task) == RowsOf(l.txs, task)
  {
    RunKeepsInv(l, ops);
    OthersSpareRows(l, ops, task);
  }

  lemma TryingHolds(l: Ledger, rq: Request, before: seq<Op>, f: Faults)
    requires Inv(l) && Fresh(l, rq.task) && Spares(before, rq.task)
    ensures Inv(HoldTried(l, rq, before, f))
    ensures RowsOf(HoldTried(l, rq, before, f).txs, rq.task) == if Holds(l, rq, before, f) then [rq.HoldRow()] else []
  {
    var l1 := Ensured(l, rq.user, rq.now);
    ExecKeepsInv(l, CreateBalance(rq.user, rq.now + CYCLE));
    OthersKeepRows(l1, before, rq.task);
    HoldingAddsRow(Run(l1, before), rq);
  }

  lemma HoldingAddsRow(l: Ledger, rq: Request)
    requires Inv(l) && Fresh(l, rq.task)
    ensures Inv(Exec(l, rq.HoldOp()))
    ensures RowsOf(Exec(l, rq.HoldOp()).txs, rq.task) == if Accepts(l, rq.HoldOp()) then [rq.HoldRow()] else []
  {
    ExecKeepsInv(l, rq.HoldOp());
    RowsAppend(l.txs, rq.HoldRow(), rq.task);
  }

  lemma RowsOpen(l: Ledger, rq: Request)
    ensures RowsOf(l.txs, rq.task) == [] ==> !Held(l.txs, rq.task)
    ensures RowsOf(l.txs, rq.task) == [rq.HoldRow()] ==>
              Open(l.txs, rq.task) && l.txs[HoldIndex(l.txs, rq.task)] == rq.HoldRow()
    ensures RowsOf(l.txs, rq.task) == [rq.HoldRow(), rq.RollbackRow()] ==>
              Held(l.txs, rq.task) && !Open(l.txs, rq.task)
  {
    RowsTell(l.txs, rq.task);
    assert [rq.HoldRow()][0].Hold?;
    assert [rq.HoldRow(), rq.RollbackRow()][0].Hold? && !([rq.HoldRow(), rq.RollbackRow()][1].Hold?);
  }

  lemma NotReached(l: Ledger, rq: Request, o: Others, f: Faults, rollbackFails: bool)
    requires Inv(l) && Fresh(l, rq.task)
    ensures SagaEnd(l, l, rq, o, f, false, false, rollbackFails)
  {
    RowsOpen(l, rq);
  }

  lemma HoldFails(l: Ledger, rq: Request, o: Others, f: Faults, rollbackFails: bool)
    requires Inv(l) && Fresh(l, rq.task) && o.Spare(rq.task) && !Holds(l, rq, o.before, f)
    ensures SagaEnd(l, HoldTried(l, rq, o.before, f), rq, o, f, true, false, rollbackFails)
  {
    TryingHolds(l, rq, o.before, f);
    RowsOpen(HoldTried(l, rq, o.before, f), rq);
  }

  lemma HoldSucceeds(l: Ledger, rq: Request, o: Others, f: Faults)
    requires Inv(l) && Fresh(l, rq.task) && o.Spare(rq.task) && Holds(l, rq, o.before, f)
    ensures Holding(l, Run(HoldTried(l, rq, o.before, f), o.during), rq, o, f)
  {
    TryingHolds(l, rq, o.before, f);
    OthersKeepRows(HoldTried(l, rq, o.before, f), o.during, rq.task);
  }

  lemma HoldStays(l0: Ledger, l: Ledger, rq: Request, o: Others, f: Faults, sent: bool, rollbackFails: bool)
    requires Holding(l0, l, rq, o, f) && (sent || rollbackFails)
    ensures SagaEnd(l0, l, rq, o, f, true, sent, rollbackFails)
  {
    RowsEndOpen(l, rq);
    if o == Others([], [], []) {
      HoldTakesPrice(l0, rq, f);
    }
  }

  lemma RowsEndOpen(l: Ledger, rq: Request)
    requires Inv(l) && RowsOf(l.txs, rq.task) == [rq.HoldRow()]
    ensures RowsEnd(l, rq, true, true)
  {
    RowsOpen(l, rq);
  }

  lemma HoldTakesPrice(l0: Ledger, rq: Request, f: Faults)
    requires Holds(l0, rq, [], f)
    ensures HeldFor(l0, Run(HoldTried(l0, rq, [], f), []), rq.user, rq.cost)
  {
    var l1 := Ensured(l0, rq.user, rq.now);
    assert Run(l1, []) == l1;
    assert HoldTried(l0, rq, [], f) == Exec(l1, rq.HoldOp());
  }

  /** The rollback goes through, whatever others do between its probe and its transaction. */
  lemma RollbackGoesThrough(l: Ledger, rq: Request, late: seq<Op>)
    requires Inv(l) && RowsOf(l.txs, rq.task) == [rq.HoldRow()] && Spares(late, rq.task)
    ensures var end := Exec(Run(l, late), CreditLedger.RollbackHold(rq.task));
            Inv(end) && RowsOf(end.txs, rq.task) == [rq.HoldRow(), rq.RollbackRow()]
  {
    var mid := Run(l, late);
    OthersKeepRows(l, late, rq.task);
    RowsOpen(mid, rq);
    RowsAppend(mid.txs, rq.RollbackRow(), rq.task);
    ExecKeepsInv(mid, CreditLedger.RollbackHold(rq.task));
  }

  lemma RollbackCloses(l0: Ledger, l: Ledger, rq: Request, o: Others, f: Faults)
    requires Inv(l0) && Fresh(l0, rq.task)
    requires Holding(l0, l, rq, o, f) && o.Spare(rq.task)
    ensures Open(l.txs, rq.task)
    ensures SagaEnd(l0, Exec(Run(l, o.late), CreditLedger.RollbackHold(rq.task)), rq, o, f, true, false, false)
  {
    var end := Exec(Run(l, o.late), CreditLedger.RollbackHold(rq.task));
    RowsOpen(l, rq);
    RollbackGoesThrough(l, rq, o.late);
    RowsOpen(end, rq);
    if o == Others([], [], []) {
      HoldIsReleased(l0, rq, f);
    }
  }

  /** With nothing in between, the rollback gives back what the hold took. */
  lemma HoldIsReleased(l0: Ledger, rq: Request, f: Faults)
    requires Inv(l0) && Fresh(l0, rq.task) && Holds(l0, rq, [], f)
    ensures HeldFor(l0, Exec(HoldTried(l0, rq, [], f), CreditLedger.RollbackHold(rq.task)), rq.user, 0)
  {
    TryingHolds(l0, rq, [], f);
    RowsOpen(HoldTried(l0, rq, [], f), rq);
    HeldThenReleased(Ensured(l0, rq.user, rq.now), rq);
  }

  lemma HeldThenReleased(l: Ledger, rq: Request)
    requires Accepts(l, rq.HoldOp())
    requires var held := Exec(l, rq.HoldOp());
             Open(held.txs, rq.task) && held.txs[HoldIndex(held.txs, rq.task)] == rq.HoldRow()
    ensures Exec(Exec(l, rq.HoldOp()), CreditLedger.RollbackHold(rq.task)).accounts == l.accounts
  {
  }

  class GraphGenerationService {
    const credit: CreditService
    var queue: seq<TaskId>

    constructor (credit: CreditService)
      ensures this.credit == credit && queue == []
    {
      this.credit, queue := credit, [];
    }

    method HoldCredit(rq: Request, before: seq<Op>, f: Faults) returns (held: bool)
      modifies credit.repo
      ensures credit.repo.l == HoldTried(old(credit.repo.l), rq, before, f)
      ensures held == Holds(old(credit.repo.l), rq, before, f)
    {
      var r := credit.Hold(rq.user, rq.cost, rq.task, rq.now, before, f);
      held := r == Ok;
    }

    /** The catch block of both requests, when the hold was placed; others may act during the rollback. */
    method OnError(rq: Request, o: Others, rollbackFails: bool, ghost l0: Ledger, ghost f: Faults)
      returns (r: RequestResult)
      requires Inv(l0) && Fresh(l0, rq.task) && o.Spare(rq.task) && Holding(l0, credit.repo.l, rq, o, f)
      modifies credit.repo
      ensures r == Threw && SagaEnd(l0, credit.repo.l, rq, o, f, true, false, rollbackFails)
    {
      RollbackCloses(l0, credit.repo.l, rq, o, f);
      if rollbackFails {
        HoldStays(l0, credit.repo.l, rq, o, f, false, true);
      }
      credit.RollbackByTaskId(rq.task, o.late, Faults(false, rollbackFails, false));
      return Threw;
    }

    /**
     For a fault at any step and whatever others do before the hold, during the request
     and during its rollback: the hold is left open iff the message was sent or the
     rollback cannot be written. It is sent iff there is work, the hold is placed and no
     step up to the send fails; then the caller is told so iff the notification succeeds.
     */
    method RequestGraphGeneration(rq: Request, work: Work, notion: bool, fails: Step -> bool, f: Faults,
                                  rollbackFails: bool, o: Others)
      returns (r: RequestResult, ghost reached: bool)
      requires Inv(credit.repo.l) && Fresh(credit.repo.l, rq.task) && o.Spare(rq.task)
      modifies this`queue, credit.repo
      ensures queue == old(queue) || queue == old(queue) + [rq.task]
      ensures SagaEnd(old(credit.repo.l), credit.repo.l, rq, o, f, reached, |queue| > |old(queue)|, rollbackFails)
      ensures var due := work.conversations + work.notes + work.files + if notion then work.notionPages else 0;
              && (reached <==> NoneFails(fails, Gathering(notion)) && due > 0)
              && (r.Nothing? <==> NoneFails(fails, Gathering(notion)) && due == 0)
      ensures |queue| > |old(queue)| <==>
                reached && Holds(old(credit.repo.l), rq, o.before, f) && NoneFails(fails, Preparing(notion))
      ensures r.Queued? <==> |queue| > |old(queue)| && !fails(NotifyRequested)
      ensures r.Queued? ==> r.task == rq.task
    {
      ghost var l0 := credit.repo.l;
      NotReached(l0, rq, o, f, rollbackFails);
      StepsOf(fails, notion);
      reached := false;
      if fails(ListConversations) || fails(FindNotes) || fails(ListFiles) || (notion && fails(FindNotionPages)) {
        return Threw, false;
      }
      if work.conversations == 0 && work.notes == 0 && work.files == 0 && (!notion || work.notionPages == 0) {
        return Nothing, false;
      }
      reached := true;
      var held := HoldCredit(rq, o.before, f);
      if !held {
        HoldFails(l0, rq, o, f, rollbackFails);
        return Threw, true;
      }
      HoldSucceeds(l0, rq, o, f);
      credit.repo.OtherRequests(o.during);
      if fails(SaveStats) || fails(UploadInput) || fails(UploadNotes) || (notion && fails(UploadNotionPages))
         || fails(CopyFiles) || fails(GetLanguage) || fails(SendMessage) {
        r := OnError(rq, o, rollbackFails, l0, f);
        return;
      }
      queue := queue + [rq.task];
      HoldStays(l0, credit.repo.l, rq, o, f, true, rollbackFails);
      if fails(NotifyRequested) {
        return Threw, true;
      }
      return Queued(rq.task), true;
    }

    method RequestAddNode(rq: Request, work: Work, hasStats: bool, fails: Step -> bool, f: Faults,
                          rollbackFails: bool, o: Others)
      returns (r: RequestResult, ghost reached: bool)
      requires Inv(credit.repo.l) && Fresh(credit.repo.l, rq.task) && o.Spare(rq.task)
      modifies this`queue, credit.repo
      ensures queue == old(queue) || queue == old(queue) + [rq.task]
      ensures SagaEnd(old(credit.repo.l), credit.repo.l, rq, o, f, reached, |queue| > |old(queue)|, rollbackFails)
      ensures var due := work.conversations + work.notes + work.files;
              && (reached <==> hasStats && NoneFails(fails, ADD_NODE_GATHERING) && due > 0)
              && (r.Nothing? <==> hasStats && NoneFails(fails, ADD_NODE_GATHERING) && due == 0)
      ensures |queue| > |old(queue)| <==>
                reached && Holds(old(credit.repo.l), rq, o.before, f) && NoneFails(fails, AddNodePreparing(work))
      ensures r.Queued? <==> |queue| > |old(queue)| && !fails(NotifyRequested)
      ensures r.Queued? ==> r.task == rq.task
    {
      ghost var l0 := credit.repo.l;
      NotReached(l0, rq, o, f, rollbackFails);
      AddNodeStepsOf(fails, work);
      reached := false;
      if fails(GetStats) || !hasStats || fails(ListConversations) || fails(FindNotes) || fails(ListFiles) {
        return Threw, false;
      }
      if work.conversations == 0 && work.notes == 0 && work.files == 0 {
        return Nothing, false;
      }
      reached := true;
      var held := HoldCredit(rq, o.before, f);
      if !held {
        HoldFails(l0, rq, o, f, rollbackFails);
        return Threw, true;
      }
      HoldSucceeds(l0, rq, o, f);
      credit.repo.OtherRequests(o.during);
      if fails(ListClusters) || fails(UploadBatch) || (work.files > 0 && fails(CopyFiles))
         || fails(GetLanguage) || fails(SaveStats) || fails(SendMessage) {
        r := OnError(rq, o, rollbackFails, l0, f);
        return;
      }
      queue := queue + [rq.task];
      HoldStays(l0, credit.repo.l, rq, o, f, true, rollbackFails);
      if fails(NotifyRequested) {
        return Threw, true;
      }
      return Queued(rq.task), true;
    }
  }
}
