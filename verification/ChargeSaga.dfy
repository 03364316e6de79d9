/**
 Chat and agent requests charge before the model is called and refund when they
 fail afterwards. Chat requests also advance the conversation they belong to.
 */
module ChargeSaga {
  import opened Options
  import opened CreditLedger
  import opened CreditOffsets
  import opened CreditService
  import opened ContextWindow
  import opened ChatRuns
  import ToolLoop

  /**
   Two endings return normally without an answer: an agent request found irrelevant is
   rejected and refunded; one that used up its rounds of tools is neither told nor refunded.
   */
  datatype Ending = Answered | Rejected | OutOfRounds | Threw {
    predicate Keeps() { Answered? || OutOfRounds? }
  }

  /** What the user can spend; a missing balance row counts as the one a request would create. */
  function Spendable(l: Ledger, user: UserId, now: int): int { Available(Ensured(l, user, now), user) }

  /**
   The charge goes through: the balance can be read and suffices, and after what other
   requests do `before` the update it still suffices and can be written.
   */
  predicate Charges(l: Ledger, user: UserId, cost: nat, now: int, before: seq<Op>, f: Faults) {
    && !f.read && !f.write && Spendable(l, user, now) >= cost
    && Accepts(CreditLedger.Run(Ensured(l, user, now), before), DeductBalance(user, cost))
  }

  /** The ledger after the charge was tried. */
  function Tried(l: Ledger, user: UserId, cost: nat, now: int, before: seq<Op>, f: Faults): Ledger {
    var l1 := Ensured(l, user, now);
    if f.read then l
    else if Spendable(l, user, now) < cost then l1
    else if f.write then CreditLedger.Run(l1, before)
    else Exec(CreditLedger.Run(l1, before), DeductBalance(user, cost))
  }

  /**
   How a request that gets as far as the charge leaves the ledger: the charge, what other
   requests do `during` the rest of it, and at most one refund, at the very end.
   */
  ghost predicate Nets(l0: Ledger, l: Ledger, user: UserId, cost: nat, now: int, before: seq<Op>, during: seq<Op>,
                       f: Faults, refundFails: bool, ending: Ending) {
    var tried := Tried(l0, user, cost, now, before, f);
    if !Charges(l0, user, cost, now, before, f) || f.log then ending.Threw? && l == tried
    else if ending.Keeps() || cost == 0 || refundFails then l == CreditLedger.Run(tried, during)
    else l == Exec(CreditLedger.Run(tried, during), RefundBalance(user, cost))
  }

  /** The request gave no answer, and the user can spend less than before it. */
  ghost predicate PaidForNothing(l0: Ledger, l: Ledger, user: UserId, now: int, ending: Ending) {
    !ending.Answered? && Spendable(l, user, now) < Spendable(l0, user, now)
  }

  /** The charge of a request that went through and is not given back. */
  predicate StaysCharged(f: Faults, refundFails: bool, ending: Ending) { f.log || ending.Keeps() || refundFails }

  /** Alone, a request costs its price if its charge stays, and nothing otherwise. */
  lemma CostsItsPrice(l0: Ledger, l: Ledger, user: UserId, cost: nat, now: int, f: Faults, refundFails: bool,
                      ending: Ending)
    requires Nets(l0, l, user, cost, now, [], [], f, refundFails, ending)
    ensures Spendable(l, user, now) == Spendable(l0, user, now)
            - if Charges(l0, user, cost, now, [], f) && StaysCharged(f, refundFails, ending) then cost else 0
    ensures forall v :: v != user ==>
              (v in l.accounts <==> v in l0.accounts) && (v in l0.accounts ==> l.accounts[v] == l0.accounts[v])
  {
  }

  lemma PaidWhen(l0: Ledger, l: Ledger, user: UserId, cost: nat, now: int, before: seq<Op>, during: seq<Op>,
                 f: Faults, refundFails: bool, ending: Ending)
    requires Nets(l0, l, user, cost, now, before, during, f, refundFails, ending)
    ensures before == [] && during == [] ==>
              (PaidForNothing(l0, l, user, now, ending) <==>
                 && Charges(l0, user, cost, now, [], f) && cost > 0
                 && StaysCharged(f, refundFails, ending) && !ending.Answered?)
  {
    if before == [] && during == [] {
      CostsItsPrice(l0, l, user, cost, now, f, refundFails, ending);
    }
  }

  /**
   Among other requests, compared with the run they would have had without this one: the
   user is poorer iff the charge stays and no refill followed it, and richer iff it was
   given back after a refill. A failing log ends the request at the charge.
   */
  lemma CostsAmongOthers(l0: Ledger, l: Ledger, user: UserId, cost: nat, now: int, before: seq<Op>, during: seq<Op>,
                         f: Faults, refundFails: bool, ending: Ending)
    requires Nets(l0, l, user, cost, now, before, during, f, refundFails, ending)
    requires Charges(l0, user, cost, now, before, f)
    requires SameVerdicts(CreditLedger.Run(Ensured(l0, user, now), before), Tried(l0, user, cost, now, before, f),
                          during)
    ensures
      var rest := if f.log then [] else during;
      var without := CreditLedger.Run(CreditLedger.Run(Ensured(l0, user, now), before), rest);
      var refilled, stays := Refilled(rest, user), StaysCharged(f, refundFails, ending);
      && Offset(without, l, user, (if refilled then 0 else cost) - if stays then 0 else cost)
      && (Available(l, user) < Available(without, user) <==> cost > 0 && stays && !refilled)
      && (Available(l, user) > Available(without, user) <==> cost > 0 && !stays && refilled)
  {
    var mid := CreditLedger.Run(Ensured(l0, user, now), before);
    var rest := if f.log then [] else during;
    ChargeIsAnOffset(mid, user, cost, rest);
    if !StaysCharged(f, refundFails, ending) && cost > 0 {
      RefundTakesBack(CreditLedger.Run(mid, rest), CreditLedger.Run(Tried(l0, user, cost, now, before, f), rest), user,
                      if Refilled(rest, user) then 0 else cost, cost);
    }
  }

  /** None when the call throws; the cost otherwise. */
  method DeductChatCredit(credit: CreditService, user: UserId, cost: nat, now: int, before: seq<Op>, f: Faults)
    returns (r: Option<nat>)
    modifies credit.repo
    ensures r == if Charges(old(credit.repo.l), user, cost, now, before, f) && !f.log then Some(cost) else None
    ensures credit.repo.l == Tried(old(credit.repo.l), user, cost, now, before, f)
  {
    var outcome := credit.Deduct(user, cost, now, before, f);
    r := if outcome.Ok? then Some(cost) else None;
  }

  /** A failed refund is only logged. */
  method RefundChatCredit(credit: CreditService, user: UserId, cost: nat, fails: bool)
    modifies credit.repo
    ensures credit.repo.l == if fails then old(credit.repo.l) else Exec(old(credit.repo.l), RefundBalance(user, cost))
  {
    credit.Refund(user, cost, Faults(false, fails, false));
  }

  // ---- chats ----

  /** The step a chat makes whose context was built: `asked` tells whether its question was saved. */
  function ChatStep(s: State, id: nat, reply: nat, ok: bool, asked: bool, ending: Ending): State {
    Next(s, if ending.Answered? then Chat(id, reply, ok) else if asked then HalfChat(id, ok) else FailedChat(ok))
  }

  lemma ChatIsAStep(h: seq<Message>, memory: Memory, id: nat, reply: nat, ok: bool, asked: bool, ending: Ending)
    ensures ChatStep(State(h, memory), id, reply, ok, asked, ending)
         == State(h + if ending.Answered? then [Message(id, User)] + [Message(reply, Assistant)]
                      else if asked then [Message(id, User)] else [], Updated(h, memory, ok))
    ensures [Message(id, User)] + [Message(reply, Assistant)] == [Message(id, User), Message(reply, Assistant)]
  {
    assert h + [] == h;
    assert [Message(id, User)] + [Message(reply, Assistant)] == [Message(id, User), Message(reply, Assistant)];
  }

  /** The step a retry makes that is not refused: `sent` tells whether its context was built. */
  function RetryStep(s: State, reply: nat, ok: bool, sent: bool, ending: Ending): State {
    Next(s, if ending.Answered? then Retry(reply, ok) else if sent then FailedRetry(ok) else DroppedReply)
  }

  lemma RetryIsAStep(h: seq<Message>, memory: Memory, memory': Memory, reply: nat, ok: bool, sent: bool, ending: Ending)
    requires h != [] && (ending.Answered? ==> sent)
    requires memory' == if |h| < 2 || !sent then memory else Updated(h[..|h| - 2], memory, ok)
    ensures CanRetry(h) ==>
              RetryStep(State(h, memory), reply, ok, sent, ending)
              == State(h[..|h| - 1] + if ending.Answered? then [Message(reply, Assistant)] else [], memory')
  {
    assert h[..|h| - 1] + [] == h[..|h| - 1];
  }

  lemma TailAtWindow(h: seq<Message>, k: nat, p: nat)
    requires p <= k <= |h|
    ensures h[..k][p..] + h[k..] == h[p..]
  {
    var tail := h[..k][p..] + h[k..];
    forall i | 0 <= i < |tail| ensures tail[i] == h[p..][i] {
    }
  }

  /** Which step of a chat fails; `summary` tells whether a summary call answers with text. */
  datatype ChatFaults = ChatFaults(
    setup: bool, summary: bool, saveSummary: bool, deduct: Faults, generate: bool, saveUser: bool, saveReply: bool,
    refund: bool)

  class AiInteractionService {
    const credit: CreditService
    var history: seq<Message>
    var summary: Memory

    constructor (credit: CreditService)
      ensures this.credit == credit && Conversation() == NEW_CONVERSATION
    {
      this.credit, history, summary := credit, [], [];
    }

    function Conversation(): State
      reads this
    {
      State(history, summary)
    }

    /** None when the new summary cannot be stored. */
    method BuildContextMessages(h: seq<Message>, current: Message, answers: bool, saveFails: bool)
      returns (r: Option<seq<Item>>)
      modifies this`summary
      ensures r.None? <==> AtBoundary(h) && answers && saveFails
      ensures r.None? ==> summary == old(summary)
      ensures r.Some? ==> summary == Updated(h, old(summary), answers) && r.value == Context(h, current, summary)
      ensures r.Some? ==> Lists(r.value, h, Start(h, summary), current, summary)
    {
      ContextLists(h, current, Updated(h, summary, answers));
      var memory := summary;
      if |h| <= MAX_DIRECT_WINDOW {
        assert h[0..] == h;
        return Some(Assemble(memory, h, current));
      }
      var window, expelled := h[|h| - MAX_DIRECT_WINDOW..], h[..|h| - MAX_DIRECT_WINDOW];
      var turns := CountUserTurns(expelled);
      if turns > 0 && turns % SUMMARY_BATCH_TURNS == 0 {
        var batchStart := IndexAfterNUserTurns(expelled, turns - SUMMARY_BATCH_TURNS);
        if answers {
          memory := memory + [expelled[batchStart..]];
          if saveFails {
            return None;
          }
          summary := memory;
        }
      }
      var summarised := if memory != [] then turns / SUMMARY_BATCH_TURNS * SUMMARY_BATCH_TURNS else 0;
      var pendingStart := IndexAfterNUserTurns(expelled, summarised);
      TailAtWindow(h, |expelled|, pendingStart);
      return Some(Assemble(memory, expelled[pendingStart..] + window, current));
    }

    /** Charge, call the model, save; the catch block refunds what was charged. */
    method ChargeAndAnswer(user: UserId, cost: nat, now: int, question: seq<Message>, reply: Message, f: ChatFaults,
                           before: seq<Op>, during: seq<Op>)
      returns (ending: Ending)
      modifies this`history, credit.repo
      ensures Nets(old(credit.repo.l), credit.repo.l, user, cost, now, before, during, f.deduct, f.refund, ending)
      ensures var charged := Charges(old(credit.repo.l), user, cost, now, before, f.deduct) && !f.deduct.log;
              && ending == (if charged && !f.generate && !f.saveUser && !f.saveReply then Answered else Threw)
              && history == old(history) + if ending.Answered? then question + [reply]
                                           else if charged && !f.generate && !f.saveUser then question
                                           else []
    {
      var deducted := DeductChatCredit(credit, user, cost, now, before, f.deduct);
      if deducted.None? {
        return Threw;
      }
      credit.repo.OtherRequests(during);
      if !f.generate && !f.saveUser {
        history := history + question;
        if !f.saveReply {
          history := history + [reply];
          return Answered;
        }
      }
      if deducted.value > 0 {
        RefundChatCredit(credit, user, cost, f.refund);
      }
      return Threw;
    }

    /**
     An answered chat is the `Chat` step of the run; one that throws is no step, a
     `FailedChat` step, or a `HalfChat` step, with the question saved and no reply. The user
     pays without an answer exactly when the usage log or the refund cannot be written.
     */
    method HandleAIChat(user: UserId, cost: nat, now: int, id: nat, replyId: nat, f: ChatFaults,
                        before: seq<Op>, during: seq<Op>)
      returns (ending: Ending, sent: Option<seq<Item>>)
      modifies this, credit.repo
      ensures sent == if f.setup || (AtBoundary(old(history)) && f.summary && f.saveSummary) then None
                      else Some(Context(old(history), Message(id, User),
                                        Updated(old(history), old(summary), f.summary)))
      ensures sent.Some? ==> Lists(sent.value, old(history), Start(old(history), summary), Message(id, User), summary)
      ensures ending.Answered? ==> history == old(history) + [Message(id, User), Message(replyId, Assistant)]
      ensures if sent.None? then credit.repo.l == old(credit.repo.l)
              else Nets(old(credit.repo.l), credit.repo.l, user, cost, now, before, during, f.deduct, f.refund, ending)
      ensures before == [] && during == [] ==>
                (PaidForNothing(old(credit.repo.l), credit.repo.l, user, now, ending) <==>
                   && !f.setup && !(AtBoundary(old(history)) && f.summary && f.saveSummary)
                   && Charges(old(credit.repo.l), user, cost, now, [], f.deduct) && cost > 0
                   && (f.deduct.log || (f.refund && (f.generate || f.saveUser || f.saveReply))))
      ensures Conversation() ==
              if sent.None? then old(Conversation())
              else ChatStep(old(Conversation()), id, replyId, f.summary,
                            && Charges(old(credit.repo.l), user, cost, now, before, f.deduct)
                            && !f.deduct.log && !f.generate && !f.saveUser, ending)
      ensures ending.Answered? <==>
              sent.Some? && Charges(old(credit.repo.l), user, cost, now, before, f.deduct)
              && !f.deduct.log && !f.generate && !f.saveUser && !f.saveReply
    {
      if f.setup {
        return Threw, None;
      }
      var question := Message(id, User);
      sent := BuildContextMessages(history, question, f.summary, f.saveSummary);
      if sent.None? {
        return Threw, None;
      }
      ending := ChargeAndAnswer(user, cost, now, [question], Message(replyId, Assistant), f, before, during);
      ChatIsAStep(old(history), old(summary), id, replyId, f.summary,
                  && Charges(old(credit.repo.l), user, cost, now, before, f.deduct)
                  && !f.deduct.log && !f.generate && !f.saveUser, ending);
      PaidWhen(old(credit.repo.l), credit.repo.l, user, cost, now, before, during, f.deduct, f.refund, ending);
    }

    /** No context is built: the client sends the recent messages along. */
    method HandleRagAIChat(user: UserId, cost: nat, now: int, id: nat, replyId: nat, f: ChatFaults,
                           before: seq<Op>, during: seq<Op>)
      returns (ending: Ending)
      modifies this`history, credit.repo
      ensures if f.setup then credit.repo.l == old(credit.repo.l)
              else Nets(old(credit.repo.l), credit.repo.l, user, cost, now, before, during, f.deduct, f.refund, ending)
      ensures before == [] && during == [] ==>
                (PaidForNothing(old(credit.repo.l), credit.repo.l, user, now, ending) <==>
                   && !f.setup && Charges(old(credit.repo.l), user, cost, now, [], f.deduct) && cost > 0
                   && (f.deduct.log || (f.refund && (f.generate || f.saveUser || f.saveReply))))
      ensures var charged :=
                !f.setup && Charges(old(credit.repo.l), user, cost, now, before, f.deduct) && !f.deduct.log;
              && (ending.Answered? <==> charged && !f.generate && !f.saveUser && !f.saveReply)
              && ending == (if ending.Answered? then Answered else Threw)
              && (ending.Answered? ==> history == old(history) + [Message(id, User), Message(replyId, Assistant)])
              && Conversation() ==
                 if ending.Answered? then Next(old(Conversation()), Rag(id, replyId))
                 else if charged && !f.generate && !f.saveUser then Next(old(Conversation()), HalfRag(id))
                 else old(Conversation())
    {
      if f.setup {
        return Threw;
      }
      var question := Message(id, User);
      ending := ChargeAndAnswer(user, cost, now, [question], Message(replyId, Assistant), f, before, during);
      assert [question] + [Message(replyId, Assistant)] == [Message(id, User), Message(replyId, Assistant)];
      PaidWhen(old(credit.repo.l), credit.repo.l, user, cost, now, before, during, f.deduct, f.refund, ending);
    }

    /** The new summary of a retry cannot be stored. */
    static predicate SummaryFails(h: seq<Message>, f: ChatFaults) {
      |h| >= 2 && AtBoundary(h[..|h| - 2]) && f.summary && f.saveSummary
    }

    /** The rest of a retry, once the last reply of history `h` is gone. */
    method AnswerAgain(ghost h: seq<Message>, user: UserId, cost: nat, now: int, replyId: nat, f: ChatFaults,
                       before: seq<Op>, during: seq<Op>)
      returns (ending: Ending, sent: Option<seq<Item>>)
      requires h != [] && history == h[..|h| - 1]
      modifies this, credit.repo
      ensures sent.None? <==> SummaryFails(h, f)
      ensures |h| >= 2 && sent.Some? ==>
                && sent.value == Context(h[..|h| - 2], h[|h| - 2], summary)
                && Lists(sent.value, h[..|h| - 2], Start(h[..|h| - 2], summary), h[|h| - 2], summary)
      ensures summary == if |h| < 2 || sent.None? then old(summary) else Updated(h[..|h| - 2], old(summary), f.summary)
      ensures history == h[..|h| - 1] + if ending.Answered? then [Message(replyId, Assistant)] else []
      ensures if sent.None? then credit.repo.l == old(credit.repo.l)
              else Nets(old(credit.repo.l), credit.repo.l, user, cost, now, before, during, f.deduct, f.refund, ending)
      ensures ending == if sent.Some? && Charges(old(credit.repo.l), user, cost, now, before, f.deduct)
                           && !f.deduct.log && !f.generate && !f.saveReply then Answered else Threw
    {
      sent := Some([]);
      if history != [] {
        assert history[..|history| - 1] == h[..|h| - 2];
        sent := BuildContextMessages(history[..|history| - 1], history[|history| - 1], f.summary, f.saveSummary);
        if sent.None? {
          return Threw, None;
        }
      }
      ending := ChargeAndAnswer(user, cost, now, [], Message(replyId, Assistant), f.(saveUser := false),
                                before, during);
    }

    /**
     The last reply is deleted first and for good: a retry that fails later leaves the
     question unanswered, and is a `FailedRetry` or a `DroppedReply` step of the run.
     */
    method HandleRetryAIChat(user: UserId, cost: nat, now: int, replyId: nat, files: bool, f: ChatFaults,
                             before: seq<Op>, during: seq<Op>)
      returns (ending: Ending, sent: Option<seq<Item>>)
      modifies this, credit.repo
      ensures if sent.None? then ending.Threw? && credit.repo.l == old(credit.repo.l)
              else Nets(old(credit.repo.l), credit.repo.l, user, cost, now, before, during, f.deduct, f.refund, ending)
      ensures !f.setup && CanRetry(old(history)) ==>
                && Conversation() == RetryStep(old(Conversation()), replyId, f.summary, sent.Some?, ending)
                && (sent.Some? ==>
                      var base, question := old(history)[..|old(history)| - 2], old(history)[|old(history)| - 2];
                      && sent.value == Context(base, question, summary)
                      && Lists(sent.value, base, Start(base, summary), question, summary))
                && (ending.Answered? ==>
                      history == old(history)[..|old(history)| - 1] + [Message(replyId, Assistant)])
      ensures var refused := f.setup || old(history) == [] || old(history)[|old(history)| - 1].role != Assistant;
              && (refused ==> ending.Threw? && Conversation() == old(Conversation()))
              && (!refused && ending.Threw? ==> history == old(history)[..|old(history)| - 1])
              && (sent.Some? <==> !refused && !files && !SummaryFails(old(history), f))
              && (ending.Answered? <==>
                    && sent.Some? && Charges(old(credit.repo.l), user, cost, now, before, f.deduct)
                    && !f.deduct.log && !f.generate && !f.saveReply)
      ensures before == [] && during == [] ==>
                (PaidForNothing(old(credit.repo.l), credit.repo.l, user, now, ending) <==>
                   && sent.Some? && Charges(old(credit.repo.l), user, cost, now, [], f.deduct) && cost > 0
                   && (f.deduct.log || (f.refund && (f.generate || f.saveReply))))
    {
      if f.setup || history == [] || history[|history| - 1].role != Assistant {
        return Threw, None;
      }
      ghost var h := history;
      history := history[..|history| - 1];
      if files {
        RetryIsAStep(h, summary, summary, replyId, f.summary, false, Threw);
        return Threw, None;
      }
      ending, sent := AnswerAgain(h, user, cost, now, replyId, f, before, during);
      RetryIsAStep(h, old(summary), summary, replyId, f.summary, sent.Some?, ending);
      if sent.Some? {
        PaidWhen(old(credit.repo.l), credit.repo.l, user, cost, now, before, during, f.deduct, f.refund, ending);
      }
    }
  }

  // ---- the agent ----

  datatype AgentMode = ChatMode | SummaryMode | NoteMode | Irrelevant

  /** The hint overrides the classifier, unless the request is irrelevant. */
  function ResolveMode(classified: AgentMode, hint: Option<AgentMode>): AgentMode {
    if classified == Irrelevant then Irrelevant
    else if hint == Some(SummaryMode) then SummaryMode
    else if hint == Some(NoteMode) then NoteMode
    else classified
  }

  /** Which step of an agent request fails: before the charge, the classifier, or after the mode is known. */
  datatype AgentFaults = AgentFaults(setup: bool, deduct: Faults, classify: bool, mode: bool, refund: bool)

  /** How a mode ends that is not refused: chats as their rounds of streams say. */
  function ModeEnding(mode: AgentMode, w: ToolLoop.World, fails: bool): Ending {
    if fails then Threw
    else if mode != ChatMode then Answered
    else match ToolLoop.EndsAt(w, 0)
      case Answered(_) => Answered
      case Exhausted => OutOfRounds
      case Threw => Threw
  }

  method RunMode(mode: AgentMode, responses: seq<ToolLoop.Response>, malformed: set<string>, execute: ToolLoop.Tools,
                 fails: bool)
    returns (ending: Ending)
    ensures var w := ToolLoop.World(ToolLoop.Digests(responses), malformed, execute);
            && ending == ModeEnding(mode, w, fails)
            && (ending.OutOfRounds? <==> !fails && mode == ChatMode && ToolLoop.UsesUpRounds(w))
  {
    ghost var w := ToolLoop.World(ToolLoop.Digests(responses), malformed, execute);
    ToolLoop.ExhaustedIff(w, 0);
    if fails {
      return Threw;
    }
    if mode != ChatMode {
      return Answered;
    }
    var loop, rounds, messages, events := ToolLoop.HandleChatMode(responses, malformed, execute);
    return match loop case Answered(_) => Answered case Exhausted => OutOfRounds case Threw => Threw;
  }

  class AgentService {
    const credit: CreditService

    constructor (credit: CreditService)
      ensures this.credit == credit
    {
      this.credit := credit;
    }

    /**
     A request found irrelevant is refunded once, even if reporting that to the client then
     fails. Chat mode ends as its rounds of streams say. One that uses up its rounds of
     tools returns normally and keeps the charge, so besides a failing log or refund that
     is how the user pays for nothing.
     */
    method HandleChatStream(user: UserId, cost: nat, now: int, classified: AgentMode, hint: Option<AgentMode>,
                            responses: seq<ToolLoop.Response>, malformed: set<string>, execute: ToolLoop.Tools,
                            f: AgentFaults, before: seq<Op>, during: seq<Op>)
      returns (ending: Ending, mode: AgentMode)
      modifies credit.repo
      ensures if f.setup then credit.repo.l == old(credit.repo.l)
              else Nets(old(credit.repo.l), credit.repo.l, user, cost, now, before, during, f.deduct, f.refund, ending)
      ensures var w := ToolLoop.World(ToolLoop.Digests(responses), malformed, execute);
              var m := ResolveMode(classified, hint);
              var charged := !f.setup && Charges(old(credit.repo.l), user, cost, now, before, f.deduct);
              var modeFails := f.mode || (m == ChatMode && ToolLoop.EndsAt(w, 0).Threw?);
              var outOfRounds := !f.classify && !f.mode && m == ChatMode && ToolLoop.UsesUpRounds(w);
              && (ending.Threw? <==> !charged || f.deduct.log || f.classify || modeFails)
              && (ending.Rejected? <==> !ending.Threw? && classified == Irrelevant)
              && (ending.OutOfRounds? <==> charged && !f.deduct.log && outOfRounds)
              && (before == [] && during == [] ==>
                    (PaidForNothing(old(credit.repo.l), credit.repo.l, user, now, ending) <==>
                       && charged && cost > 0
                       && (f.deduct.log || outOfRounds
                           || (f.refund && (f.classify || classified == Irrelevant || modeFails)))))
      ensures !ending.Threw? ==>
                mode == if classified != Irrelevant && (hint == Some(SummaryMode) || hint == Some(NoteMode))
                        then hint.value else classified
    {
      var creditDeducted, amount := false, 0;
      mode := ChatMode;
      if f.setup {
        return Threw, mode;
      }
      var deducted := DeductChatCredit(credit, user, cost, now, before, f.deduct);
      if deducted.None? {
        PaidWhen(old(credit.repo.l), credit.repo.l, user, cost, now, before, during, f.deduct, f.refund, Threw);
        return Threw, mode;
      }
      amount := deducted.value;
      creditDeducted := amount > 0;
      credit.repo.OtherRequests(during);
      ending := Threw;
      if !f.classify {
        mode := ResolveMode(classified, hint);
        if mode == Irrelevant {
          if creditDeducted {
            RefundChatCredit(credit, user, amount, f.refund);
            creditDeducted := false;
          }
          ending := if f.mode then Threw else Rejected;
        } else {
          ending := RunMode(mode, responses, malformed, execute, f.mode);
        }
      }
      if ending.Threw? && creditDeducted {
        RefundChatCredit(credit, user, amount, f.refund);
      }
      PaidWhen(old(credit.repo.l), credit.repo.l, user, cost, now, before, during, f.deduct, f.refund, ending);
    }
  }
}
