/**
 Whole runs of one conversation: which batches the memory holds, and exactly when
 a context still covers every message of the history.
 */
module ChatRuns {
  import opened ContextWindow

  datatype State = State(history: seq<Message>, memory: Memory)

  const NEW_CONVERSATION := State([], [])

  /** One request. `ok` tells whether a summary call, if one is due, answers with text. */
  datatype Event =
    | Chat(user: nat, reply: nat, ok: bool)
    | HalfChat(user: nat, ok: bool)  // the question is saved and the reply is not
    | FailedChat(ok: bool)           // fails after the context was built and before a message is saved
    | Rag(user: nat, reply: nat)     // the client brings the recent messages, no context is built
    | HalfRag(user: nat)
    | Retry(reply: nat, ok: bool)
    | FailedRetry(ok: bool)          // the last reply is deleted and no other one saved
    | DroppedReply                   // the same, and no context was built

  predicate CanRetry(h: seq<Message>) { |h| >= 2 && h[|h| - 1].role == Assistant }

  /** The event builds a context. */
  predicate BuildsContext(s: State, e: Event) {
    match e
    case Chat(_, _, _) => true
    case HalfChat(_, _) => true
    case FailedChat(_) => true
    case Retry(_, _) => CanRetry(s.history)
    case FailedRetry(_) => CanRetry(s.history)
    case _ => false
  }

  /** The history it builds the context from. */
  function Base(s: State, e: Event): seq<Message>
    requires BuildsContext(s, e)
  {
    if e.Retry? || e.FailedRetry? then s.history[..|s.history| - 2] else s.history
  }

  function HistoryAfter(h: seq<Message>, e: Event): seq<Message> {
    match e
    case Chat(u, a, _) => h + [Message(u, User), Message(a, Assistant)]
    case HalfChat(u, _) => h + [Message(u, User)]
    case FailedChat(_) => h
    case Rag(u, a) => h + [Message(u, User), Message(a, Assistant)]
    case HalfRag(u) => h + [Message(u, User)]
    case Retry(a, _) => if CanRetry(h) then h[..|h| - 1] + [Message(a, Assistant)] else h
    case FailedRetry(_) => if CanRetry(h) then h[..|h| - 1] else h
    case DroppedReply => if CanRetry(h) then h[..|h| - 1] else h
  }

  function Next(s: State, e: Event): State {
    State(HistoryAfter(s.history, e), if BuildsContext(s, e) then Updated(Base(s, e), s.memory, e.ok) else s.memory)
  }

  /** The run starts from a new conversation, or from an imported history, which has no summary. */
  function Run(h0: seq<Message>, es: seq<Event>): State {
    if es == [] then State(h0, []) else Next(Run(h0, es[..|es| - 1]), es[|es| - 1])
  }

  // ---- what is summarised ----

  /** How many messages are out of the window, and how many user turns they start. */
  function Cut(b: seq<Message>): nat { |Expelled(b)| }

  function Turns(b: seq<Message>): nat { CountUserTurns(Expelled(b)) }

  /** The event stores a summary. */
  predicate Summarises(s: State, e: Event) { BuildsContext(s, e) && e.ok && AtBoundary(Base(s, e)) }

  /** The histories at which the run stored a summary, in order. */
  function Visited(h0: seq<Message>, es: seq<Event>): seq<seq<Message>> {
    if es == [] then []
    else
      var s, e := Run(h0, es[..|es| - 1]), es[|es| - 1];
      Visited(h0, es[..|es| - 1]) + if Summarises(s, e) then [Base(s, e)] else []
  }

  function Batches(vs: seq<seq<Message>>): Memory { seq(|vs|, i requires 0 <= i < |vs| => NewBatch(vs[i])) }

  /** The memory is made of the new batches of these histories, in order. */
  lemma {:induction false} MemoryIsTheVisitedBatches(h0: seq<Message>, es: seq<Event>)
    ensures Run(h0, es).memory == Batches(Visited(h0, es))
  {
    if es != [] {
      MemoryIsTheVisitedBatches(h0, es[..|es| - 1]);
    }
  }

  /** The window starts in the middle of a turn, so the last turn out of it lacks its answer. */
  predicate MidTurn(b: seq<Message>) { Cut(b) > 0 && b[Cut(b)].role != User }

  /** No reply without a question before it. */
  predicate UserLed(h: seq<Message>) {
    && (h != [] ==> h[0].role == User)
    && forall i | 0 < i < |h| :: h[i].role == Assistant ==> h[i - 1].role != Assistant
  }

  /** The part of the history that no request takes back. */
  function Core(h: seq<Message>): seq<Message> {
    if h != [] && h[|h| - 1].role == Assistant then h[..|h| - 1] else h
  }

  lemma CoreGrows(h: seq<Message>, e: Event)
    requires UserLed(h)
    ensures UserLed(HistoryAfter(h, e)) && Core(h) <= Core(HistoryAfter(h, e))
  {
    match e
    case Chat(u, a, _) => AskedAndAnswered(h, u, a);
    case HalfChat(u, _) => Asked(h, u);
    case FailedChat(_) =>
    case Rag(u, a) => AskedAndAnswered(h, u, a);
    case HalfRag(u) => Asked(h, u);
    case Retry(a, _) => if CanRetry(h) { ReplyDropped(h); Answered(h[..|h| - 1], a); }
    case FailedRetry(_) => if CanRetry(h) { ReplyDropped(h); }
    case DroppedReply => if CanRetry(h) { ReplyDropped(h); }
  }

  lemma Asked(h: seq<Message>, u: nat)
    requires UserLed(h)
    ensures var h' := h + [Message(u, User)]; UserLed(h') && Core(h') == h' && Core(h) <= h'
  {
  }

  lemma Answered(h: seq<Message>, a: nat)
    requires UserLed(h) && h != [] && h[|h| - 1].role != Assistant
    ensures var h' := h + [Message(a, Assistant)]; UserLed(h') && Core(h') == h
  {
  }

  lemma AskedAndAnswered(h: seq<Message>, u: nat, a: nat)
    requires UserLed(h)
    ensures var h' := h + [Message(u, User), Message(a, Assistant)]; UserLed(h') && Core(h) <= Core(h')
  {
    Asked(h, u);
    Answered(h + [Message(u, User)], a);
    assert h + [Message(u, User), Message(a, Assistant)] == h + [Message(u, User)] + [Message(a, Assistant)];
  }

  lemma ReplyDropped(h: seq<Message>)
    requires UserLed(h) && CanRetry(h)
    ensures var h' := h[..|h| - 1]; UserLed(h') && Core(h) == h' == Core(h') && h'[|h'| - 1].role != Assistant
  {
  }

  /** What was summarised stands at the start of every later history, with the message behind it. */
  predicate Stands(v: seq<Message>, h: seq<Message>) {
    AtBoundary(v) && v[..Cut(v) + 1] <= h && Cut(v) + 18 <= |h|
  }

  lemma SummarisedStands(s: State, e: Event)
    requires UserLed(s.history) && Summarises(s, e)
    ensures Stands(Base(s, e), Core(HistoryAfter(s.history, e)))
  {
    CoreGrows(s.history, e);
    assert Cut(Base(s, e)) > 0;
    assert Base(s, e)[..Cut(Base(s, e)) + 1] <= Core(s.history);
  }

  lemma {:induction false} VisitedStand(h0: seq<Message>, es: seq<Event>)
    requires UserLed(h0)
    ensures UserLed(Run(h0, es).history) && Core(h0) <= Core(Run(h0, es).history)
    ensures forall v <- Visited(h0, es) :: Stands(v, Core(Run(h0, es).history))
  {
    if es != [] {
      var init, e := es[..|es| - 1], es[|es| - 1];
      VisitedStand(h0, init);
      var s := Run(h0, init);
      CoreGrows(s.history, e);
      if Summarises(s, e) {
        SummarisedStands(s, e);
      }
    }
  }

  // ---- which messages a context covers ----

  predicate NoDuplicates(h: seq<Message>) { forall i, j | 0 <= i < j < |h| :: h[i] != h[j] }

  ghost predicate Covered(ctx: seq<Item>, m: Message) {
    Said(m) in ctx || exists item :: item in ctx && Summarised(item, m)
  }

  ghost predicate Summarised(item: Item, m: Message) {
    item.Summary? && exists b :: b in item.batches && m in b
  }

  /** Where the last five turns out of the window start. */
  function BatchStart(v: seq<Message>): nat { AfterTurns(Expelled(v), Turns(v) - SUMMARY_BATCH_TURNS) }

  predicate InBatch(v: seq<Message>, j: nat) { BatchStart(v) <= j < Cut(v) }

  predicate IsHeld(vs: seq<seq<Message>>, j: nat) { exists v <- vs :: InBatch(v, j) }

  /** A context may build on these summaries: all stand at the start of its history. */
  ghost predicate BuildsOn(b: seq<Message>, vs: seq<seq<Message>>) {
    UserLed(b) && forall v <- vs :: AtBoundary(v) && v[..Cut(v) + 1] <= b
  }

  /** A message is covered iff it is sent verbatim or lies in a summarised batch. */
  lemma CoveredWhen(b: seq<Message>, vs: seq<seq<Message>>, current: Message, j: nat)
    requires BuildsOn(b, vs) && vs != [] && NoDuplicates(b) && current !in b && j < |b|
    ensures Covered(Context(b, current, Batches(vs)), b[j]) <==>
            j >= Start(b, Batches(vs)) || IsHeld(vs, j)
  {
    var memory, p := Batches(vs), Start(b, Batches(vs));
    var ctx := Context(b, current, memory);
    SaidWhen(b, memory, current, p, j);
    assert ctx[0] == Summary(memory);
    forall v | v in vs ensures NewBatch(v) in memory && (b[j] in NewBatch(v) <==> InBatch(v, j)) {
      var i :| 0 <= i < |vs| && vs[i] == v;
      assert memory[i] == NewBatch(v);
      BatchHolds(b, v, j);
    }
    forall c | c in memory ensures exists v <- vs :: c == NewBatch(v) {
      var i :| 0 <= i < |memory| && memory[i] == c;
      assert vs[i] in vs && c == NewBatch(vs[i]);
    }
    assert Summarised(Summary(memory), b[j]) <==> IsHeld(vs, j);
  }

  /** What is said is the current message and what stands behind the start; the memory comes in one piece. */
  lemma SaidWhen(b: seq<Message>, memory: Memory, current: Message, p: nat, j: nat)
    requires NoDuplicates(b) && current !in b && p <= |b| && j < |b| && memory != []
    ensures Said(b[j]) in Assemble(memory, b[p..], current) <==> j >= p
    ensures forall item <- Assemble(memory, b[p..], current) :: item.Summary? ==> item == Summary(memory)
  {
    var ctx := Assemble(memory, b[p..], current);
    if j >= p {
      assert ctx[1 + j - p] == Said(b[j]);
    }
    forall n | 0 <= n < |ctx| && ctx[n] == Said(b[j]) ensures j >= p {
      assert 0 < n < |ctx| - 1;
      assert ctx[n] == Said(b[p + n - 1]);
    }
  }

  lemma BatchHolds(b: seq<Message>, v: seq<Message>, j: nat)
    requires NoDuplicates(b) && AtBoundary(v) && v[..Cut(v) + 1] <= b && j < |b|
    ensures b[j] in NewBatch(v) <==> InBatch(v, j)
  {
    var p, c := BatchStart(v), Cut(v);
    assert NewBatch(v) == Expelled(v)[p..];
    assert forall k | 0 <= k < c :: Expelled(v)[k] == v[..c + 1][k] == b[k];
    if InBatch(v, j) {
      assert NewBatch(v)[j - p] == b[j];
    }
    if b[j] in NewBatch(v) {
      var k :| 0 <= k < c - p && NewBatch(v)[k] == b[j];
      assert b[p + k] == b[j];
    }
  }

  // ---- in turns ----

  /** The end of the first turns out of the window: the start of the next one, or of the window. */
  lemma TurnEnd(b: seq<Message>, t: nat)
    requires UserLed(b) && t <= Turns(b)
    ensures var e := AfterTurns(Expelled(b), t);
            && e <= Cut(b) && CountUserTurns(b[..e]) == t && (e < Cut(b) ==> b[e].role == User)
  {
    var x, e := Expelled(b), AfterTurns(Expelled(b), t);
    if t > 0 {
      AfterTurnsEndsTheTurns(x, t, e);
      assert e == |x| ==> x[..e] == x;
    }
    assert x[..e] == b[..e];
  }

  /** Within the turns it summarises, a batch holds all messages that are out of its window. */
  lemma InBatchInTurns(b: seq<Message>, v: seq<Message>, j: nat)
    requires UserLed(b) && AtBoundary(v) && v[..Cut(v) + 1] <= b && j < |b|
    ensures InBatch(v, j) <==> j < Cut(v) && CountUserTurns(b[..j + 1]) > Turns(v) - SUMMARY_BATCH_TURNS
    ensures CountUserTurns(b[..Cut(v)]) == Turns(v) && SUMMARY_BATCH_TURNS <= Turns(v)
  {
    var p, c, t := BatchStart(v), Cut(v), Turns(v) - SUMMARY_BATCH_TURNS;
    assert t >= 0;
    SamePrefix(b, v);
    assert UserLed(v[..c + 1]);
    BatchStartIs(b, v);
    if j < p {
      CountMonotone(b, j + 1, p);
    } else if j < c {
      CountMonotone(b, p + 1, j + 1);
      assert b[..p + 1][..p] == b[..p];
    }
  }

  lemma SamePrefix(b: seq<Message>, v: seq<Message>)
    requires Cut(v) > 0 && v[..Cut(v) + 1] <= b
    ensures Expelled(v) == b[..Cut(v)] && b[Cut(v)] == v[Cut(v)]
  {
    assert b[Cut(v)] == v[..Cut(v) + 1][Cut(v)];
    assert Expelled(v) == v[..Cut(v) + 1][..Cut(v)];
  }

  lemma BatchStartIs(b: seq<Message>, v: seq<Message>)
    requires UserLed(b) && AtBoundary(v) && v[..Cut(v) + 1] <= b
    ensures BatchStart(v) < Cut(v) && b[BatchStart(v)].role == User
    ensures CountUserTurns(b[..BatchStart(v)]) == Turns(v) - SUMMARY_BATCH_TURNS
  {
    var x, p, t := Expelled(v), BatchStart(v), Turns(v) - SUMMARY_BATCH_TURNS;
    SamePrefix(b, v);
    if t > 0 {
      AfterTurnsEndsTheTurns(x, t, p);
      assert x[..|x|] == x;
    }
    assert x[..p] == b[..p];
  }

  /** A summary of turns 5i+1 to 5i+5 that lacks nothing the context does not send itself. */
  predicate Covers(v: seq<Message>, b: seq<Message>, i: nat) {
    && Turns(v) == SUMMARY_BATCH_TURNS * (i + 1)
    && (!MidTurn(v) || (Turns(b) == Turns(v) && Cut(v) >= Cut(b)))
  }

  predicate IsCovered(vs: seq<seq<Message>>, b: seq<Message>, i: nat) { exists v <- vs :: Covers(v, b, i) }

  /** If every batch is covered, every message before the start is. */
  lemma PositionCovered(b: seq<Message>, vs: seq<seq<Message>>, j: nat)
    requires BuildsOn(b, vs) && vs != [] && j < Start(b, Batches(vs))
    requires forall i: nat | i < Turns(b) / SUMMARY_BATCH_TURNS :: IsCovered(vs, b, i)
    ensures IsHeld(vs, j)
  {
    var t := TurnOf(b, Batches(vs), j);
    var i := (t - 1) / 5;
    assert IsCovered(vs, b, i);
    var v :| v in vs && Covers(v, b, i);
    EndOfBoundary(b, Batches(vs));
    CoverHolds(b, v, i, j);
  }

  /** The turn a message before the start belongs to; it is one of those in full batches. */
  lemma TurnOf(b: seq<Message>, memory: Memory, j: nat) returns (t: nat)
    requires UserLed(b) && memory != [] && j < Start(b, memory)
    ensures t == CountUserTurns(b[..j + 1]) && 1 <= t <= Turns(b) / SUMMARY_BATCH_TURNS * SUMMARY_BATCH_TURNS
  {
    t := CountUserTurns(b[..j + 1]);
    TurnEnd(b, Turns(b) / SUMMARY_BATCH_TURNS * SUMMARY_BATCH_TURNS);
    CountMonotone(b, j + 1, Start(b, memory));
    assert b[..1][..0] == [] && CountUserTurns(b[..1]) == 1;
    CountMonotone(b, 1, j + 1);
  }

  /** What is sent verbatim starts no later than the window. */
  lemma EndOfBoundary(b: seq<Message>, memory: Memory)
    ensures Start(b, memory) <= Cut(b)
  {
  }

  lemma CoverHolds(b: seq<Message>, v: seq<Message>, i: nat, j: nat)
    requires UserLed(b) && AtBoundary(v) && v[..Cut(v) + 1] <= b && j < Cut(b) && Covers(v, b, i)
    requires 5 * i < CountUserTurns(b[..j + 1]) <= 5 * i + 5
    ensures InBatch(v, j)
  {
    InBatchInTurns(b, v, j);
    SamePrefix(b, v);
    if j >= Cut(v) {
      CountMonotone(b, Cut(v), j + 1);
    }
  }

  /** The last message of a batch is only in a summary that covers the batch. */
  lemma BatchCovered(b: seq<Message>, vs: seq<seq<Message>>, i: nat)
    requires BuildsOn(b, vs) && vs != [] && i < Turns(b) / SUMMARY_BATCH_TURNS
    requires forall j: nat | j < Start(b, Batches(vs)) :: IsHeld(vs, j)
    ensures IsCovered(vs, b, i)
  {
    var e := AfterTurns(Expelled(b), 5 * i + 5);
    TurnEnd(b, 5 * i + 5);
    EndBeforeStart(b, Batches(vs), i);
    assert e > 0 by { assert b[..0] == []; }
    assert IsHeld(vs, e - 1);
    var v :| v in vs && InBatch(v, e - 1);
    HolderCovers(b, v, i, e);
  }

  lemma HolderCovers(b: seq<Message>, v: seq<Message>, i: nat, e: nat)
    requires UserLed(b) && AtBoundary(v) && v[..Cut(v) + 1] <= b && 0 < e <= Cut(b) && InBatch(v, e - 1)
    requires CountUserTurns(b[..e]) == 5 * (i + 1) && (e < Cut(b) ==> b[e].role == User)
    ensures Covers(v, b, i)
  {
    InBatchInTurns(b, v, e - 1);
    CountMonotone(b, e, Cut(v));
    LastOfBatchCovers(b, v, i, e);
  }

  /** A summary of the batch that reaches to its end lacks nothing. */
  lemma LastOfBatchCovers(b: seq<Message>, v: seq<Message>, i: nat, e: nat)
    requires AtBoundary(v) && v[..Cut(v) + 1] <= b && e <= Cut(v) && e <= Cut(b)
    requires Turns(v) == CountUserTurns(b[..e]) == CountUserTurns(b[..Cut(v)]) == 5 * (i + 1)
    requires e < Cut(b) ==> b[e].role == User
    ensures Covers(v, b, i)
  {
    SamePrefix(b, v);
    if e < Cut(b) {
      CountMonotone(b, e, Cut(v));
    } else {
      assert b[..e] == Expelled(b);
    }
  }

  lemma EndBeforeStart(b: seq<Message>, memory: Memory, i: nat)
    requires UserLed(b) && memory != [] && i < Turns(b) / SUMMARY_BATCH_TURNS
    ensures AfterTurns(Expelled(b), 5 * i + 5) <= Start(b, memory)
  {
    var q, e, p := Turns(b) / SUMMARY_BATCH_TURNS, AfterTurns(Expelled(b), 5 * i + 5), Start(b, memory);
    TurnEnd(b, 5 * i + 5);
    TurnEnd(b, 5 * q);
    if p < e {
      CountMonotone(b, p, e);
    }
  }

  /** A context on some summaries covers the whole history iff each batch has a summary that covers it. */
  lemma ContextCoversIff(b: seq<Message>, vs: seq<seq<Message>>, current: Message)
    requires BuildsOn(b, vs) && vs != [] && NoDuplicates(b) && current !in b
    ensures (forall m <- b :: Covered(Context(b, current, Batches(vs)), m)) <==>
            forall i: nat | i < Turns(b) / SUMMARY_BATCH_TURNS :: IsCovered(vs, b, i)
  {
    var ctx, p := Context(b, current, Batches(vs)), Start(b, Batches(vs));
    if forall m <- b :: Covered(ctx, m) {
      forall j: nat | j < p ensures IsHeld(vs, j) {
        assert b[j] in b;
        CoveredWhen(b, vs, current, j);
      }
      forall i: nat | i < Turns(b) / SUMMARY_BATCH_TURNS ensures IsCovered(vs, b, i) {
        BatchCovered(b, vs, i);
      }
    }
    if forall i: nat | i < Turns(b) / SUMMARY_BATCH_TURNS :: IsCovered(vs, b, i) {
      forall m | m in b ensures Covered(ctx, m) {
        var j :| 0 <= j < |b| && b[j] == m;
        CoveredWhen(b, vs, current, j);
        if j < p {
          PositionCovered(b, vs, j);
        }
      }
    }
  }

  lemma EverythingIsSaid(h: seq<Message>, current: Message)
    ensures forall m <- h :: Covered(Context(h, current, []), m)
  {
    NoSummaryNoBound(h, current);
    forall m | m in h ensures Covered(Context(h, current, []), m) {
      var j :| 0 <= j < |h| && h[j] == m;
      assert Context(h, current, [])[j] == Said(m);
    }
  }

  // ---- on runs ----

  /** The context the last event of the run sends. */
  function SentContext(h0: seq<Message>, es: seq<Event>, e: Event, current: Message): seq<Item>
    requires BuildsContext(Run(h0, es), e)
  {
    Context(Base(Run(h0, es), e), current, Next(Run(h0, es), e).memory)
  }

  lemma MemoryOfLast(h0: seq<Message>, es: seq<Event>, e: Event)
    ensures Next(Run(h0, es), e).memory == Batches(Visited(h0, es + [e]))
  {
    assert (es + [e])[..|es|] == es;
    MemoryIsTheVisitedBatches(h0, es + [e]);
  }

  lemma VisitedAppend(h0: seq<Message>, es: seq<Event>, e: Event)
    ensures Visited(h0, es + [e])
         == Visited(h0, es) + if Summarises(Run(h0, es), e) then [Base(Run(h0, es), e)] else []
  {
    assert (es + [e])[..|es|] == es;
  }

  lemma StandsInBase(s: State, e: Event, v: seq<Message>)
    requires BuildsContext(s, e) && Stands(v, Core(s.history))
    ensures v[..Cut(v) + 1] <= Base(s, e)
  {
  }

  lemma LastBuildsOn(h0: seq<Message>, es: seq<Event>, e: Event)
    requires UserLed(h0) && BuildsContext(Run(h0, es), e)
    ensures BuildsOn(Base(Run(h0, es), e), Visited(h0, es + [e]))
  {
    var s := Run(h0, es);
    VisitedAppend(h0, es, e);
    VisitedStand(h0, es);
    forall v | v in Visited(h0, es) ensures v[..Cut(v) + 1] <= Base(s, e) {
      StandsInBase(s, e, v);
    }
  }

  /**
   On every run, half-saved chats and failed retries included, a context covers all
   earlier messages exactly when no summary was ever stored, or every batch of turns
   that is out of its window was summarised with all its answers.
   */
  lemma NothingLostIff(h0: seq<Message>, es: seq<Event>, e: Event, current: Message)
    requires UserLed(h0) && BuildsContext(Run(h0, es), e)
    requires NoDuplicates(Run(h0, es).history) && current !in Base(Run(h0, es), e)
    ensures
      var b, vs := Base(Run(h0, es), e), Visited(h0, es + [e]);
      (forall m <- b :: Covered(SentContext(h0, es, e, current), m)) <==>
      vs == [] || forall i: nat | i < Turns(b) / SUMMARY_BATCH_TURNS :: IsCovered(vs, b, i)
  {
    var b, vs := Base(Run(h0, es), e), Visited(h0, es + [e]);
    MemoryOfLast(h0, es, e);
    LastBuildsOn(h0, es, e);
    assert NoDuplicates(b);
    if vs == [] {
      EverythingIsSaid(b, current);
    } else {
      ContextCoversIff(b, vs, current);
    }
  }

  // ---- imported conversations ----

  /** No request takes back more than the last three messages of an imported history. */
  lemma {:induction false} VisitedKeepImport(h0: seq<Message>, es: seq<Event>)
    requires UserLed(h0) && |h0| >= 3
    ensures forall v <- Visited(h0, es) :: h0[..|h0| - 3] <= v
  {
    if es != [] {
      VisitedKeepImport(h0, es[..|es| - 1]);
      VisitedStand(h0, es[..|es| - 1]);
      BaseKeepsImport(h0, Run(h0, es[..|es| - 1]), es[|es| - 1]);
    }
  }

  lemma BaseKeepsImport(h0: seq<Message>, s: State, e: Event)
    requires |h0| >= 3 && Core(h0) <= Core(s.history) && UserLed(s.history)
    ensures BuildsContext(s, e) ==> h0[..|h0| - 3] <= Base(s, e)
  {
    assert h0[..|h0| - 3] == Core(h0)[..|h0| - 3];
  }

  lemma ManyTurns(h0: seq<Message>, v: seq<Message>)
    requires |h0| >= 23 && CountUserTurns(h0[..|h0| - 23]) > SUMMARY_BATCH_TURNS && h0[..|h0| - 3] <= v
    ensures Turns(v) > SUMMARY_BATCH_TURNS
  {
    assert h0[..|h0| - 23] == v[..|h0| - 23];
    CountMonotone(v, |h0| - 23, Cut(v));
  }

  /**
   A conversation imported with more than five turns out of the window keeps all its
   messages only until the first summary, which takes in the latest five turns alone;
   from then on the first message is lost.
   */
  lemma ImportedHistoryIsLost(h0: seq<Message>, es: seq<Event>, e: Event, current: Message)
    requires UserLed(h0) && |h0| >= 23 && CountUserTurns(h0[..|h0| - 23]) > SUMMARY_BATCH_TURNS
    requires BuildsContext(Run(h0, es), e)
    requires NoDuplicates(Run(h0, es).history) && current !in Base(Run(h0, es), e)
    ensures
      var b, ctx := Base(Run(h0, es), e), SentContext(h0, es, e, current);
      && b != [] && (Covered(ctx, b[0]) <==> Visited(h0, es + [e]) == [])
      && (Visited(h0, es + [e]) == [] ==> forall m <- b :: Covered(ctx, m))
  {
    var b, vs := Base(Run(h0, es), e), Visited(h0, es + [e]);
    VisitedStand(h0, es);
    BaseKeepsImport(h0, Run(h0, es), e);
    ManyTurns(h0, b);
    NothingLostIff(h0, es, e, current);
    if vs != [] {
      MemoryOfLast(h0, es, e);
      LastBuildsOn(h0, es, e);
      VisitedKeepImport(h0, es + [e]);
      forall v | v in vs ensures Turns(v) > SUMMARY_BATCH_TURNS {
        ManyTurns(h0, v);
      }
      FirstIsLost(b, vs, current);
    }
  }

  lemma FirstIsLost(b: seq<Message>, vs: seq<seq<Message>>, current: Message)
    requires BuildsOn(b, vs) && vs != [] && NoDuplicates(b) && current !in b && Turns(b) > SUMMARY_BATCH_TURNS
    requires forall v <- vs :: Turns(v) > SUMMARY_BATCH_TURNS
    ensures b != [] && !Covered(Context(b, current, Batches(vs)), b[0])
  {
    CoveredWhen(b, vs, current, 0);
    EndBeforeStart(b, Batches(vs), 0);
    TurnEnd(b, 5);
    assert b[..0] == [] && b[..1][..0] == [];
    forall v | v in vs ensures !InBatch(v, 0) {
      InBatchInTurns(b, v, 0);
    }
  }

  // ---- a chat whose reply cannot be saved ----

  /** Six chats, one whose reply is not saved, and further chats; every summary succeeds. */
  function HalfSavedEvent(k: nat): Event {
    if k < 6 then Chat(2 * k, 2 * k + 1, true) else if k == 6 then HalfChat(12, true) else Chat(2 * k - 1, 2 * k, true)
  }

  function HalfSavedRun(n: nat): seq<Event> { seq(n, k requires 0 <= k => HalfSavedEvent(k)) }

  /** What it leaves: the question without an answer stands at 12. */
  function HalfSavedHistory(n: nat): seq<Message> {
    seq(if n <= 6 then 2 * n else 2 * n - 1,
        j requires 0 <= j => Message(j, if (j % 2 == 0) == (j <= 12) then User else Assistant))
  }

  lemma HalfSavedStep(n: nat)
    ensures HistoryAfter(HalfSavedHistory(n), HalfSavedEvent(n)) == HalfSavedHistory(n + 1)
    ensures HalfSavedRun(n + 1) == HalfSavedRun(n) + [HalfSavedEvent(n)]
  {
  }

  lemma {:induction false} HalfSavedIs(n: nat)
    ensures Run([], HalfSavedRun(n)).history == HalfSavedHistory(n)
  {
    if n == 0 {
      assert HalfSavedRun(0) == [] && HalfSavedHistory(0) == [];
    } else {
      var init, e, h := HalfSavedRun(n - 1), HalfSavedEvent(n - 1), HalfSavedHistory(n - 1);
      HalfSavedIs(n - 1);
      HalfSavedStep(n - 1);
      HistoryAppend([], init, e, h);
      assert HalfSavedRun(n) == init + [e] && HalfSavedHistory(n) == HistoryAfter(h, e);
    }
  }

  lemma HistoryAppend(h0: seq<Message>, es: seq<Event>, e: Event, h: seq<Message>)
    requires Run(h0, es).history == h
    ensures Run(h0, es + [e]).history == HistoryAfter(h, e)
  {
    assert (es + [e])[..|es|] == es;
  }

  /** Only a context on 29 messages is at a boundary. */
  lemma HalfSavedTurns(n: nat)
    requires n <= 16
    ensures Turns(HalfSavedHistory(n)) == (Cut(HalfSavedHistory(n)) + 1) / 2
    ensures AtBoundary(HalfSavedHistory(n)) <==> n == 15
  {
    AlternatingCount(Expelled(HalfSavedHistory(n)));
  }

  lemma {:induction false} HalfSavedVisits(n: nat)
    requires n <= 17
    ensures Visited([], HalfSavedRun(n)) == if n <= 15 then [] else [HalfSavedHistory(15)]
  {
    if n == 0 {
      assert HalfSavedRun(0) == [];
    } else {
      var init, e := HalfSavedRun(n - 1), HalfSavedEvent(n - 1);
      HalfSavedVisits(n - 1);
      HalfSavedIs(n - 1);
      HalfSavedStep(n - 1);
      VisitedAppend([], init, e);
      HalfSavedSummarises(Run([], init), n - 1);
      assert HalfSavedRun(n) == init + [e];
    }
  }

  lemma HalfSavedSummarises(s: State, n: nat)
    requires n <= 16 && s.history == HalfSavedHistory(n)
    ensures BuildsContext(s, HalfSavedEvent(n)) && Base(s, HalfSavedEvent(n)) == s.history
    ensures Summarises(s, HalfSavedEvent(n)) <==> n == 15
  {
    HalfSavedTurns(n);
  }

  /**
   The summary of the first five turns is taken while the answer to the fifth is the
   first message of the window, so the next context has that answer nowhere.
   */
  lemma HalfSavedChatLosesAnAnswer(current: Message)
    requires current !in HalfSavedHistory(16)
    ensures
      var es, e := HalfSavedRun(16), HalfSavedEvent(16);
      && Base(Run([], es), e) == HalfSavedHistory(16) && NoDuplicates(HalfSavedHistory(16))
      && |HalfSavedHistory(16)| == 31 && HalfSavedHistory(16)[9] == Message(9, Assistant)
      && !Covered(SentContext([], es, e, current), HalfSavedHistory(16)[9])
  {
    var es, e, b := HalfSavedRun(16), HalfSavedEvent(16), HalfSavedHistory(16);
    HalfSavedIs(16);
    HalfSavedSummarises(Run([], es), 16);
    HalfSavedVisits(17);
    HalfSavedStep(16);
    LastContext([], es, e, current, b, [HalfSavedHistory(15)]);
    NinthIsLost(b, [HalfSavedHistory(15)], current);
  }

  lemma LastContext(h0: seq<Message>, es: seq<Event>, e: Event, current: Message,
                    b: seq<Message>, vs: seq<seq<Message>>)
    requires UserLed(h0) && BuildsContext(Run(h0, es), e) && b == Base(Run(h0, es), e) && vs == Visited(h0, es + [e])
    ensures SentContext(h0, es, e, current) == Context(b, current, Batches(vs)) && BuildsOn(b, vs)
  {
    MemoryOfLast(h0, es, e);
    LastBuildsOn(h0, es, e);
  }

  lemma NinthIsLost(b: seq<Message>, vs: seq<seq<Message>>, current: Message)
    requires b == HalfSavedHistory(16) && vs == [HalfSavedHistory(15)] && BuildsOn(b, vs) && current !in b
    ensures NoDuplicates(b) && |b| == 31 && !Covered(Context(b, current, Batches(vs)), b[9])
  {
    HalfSavedTurns(16);
    assert Alternating(Expelled(b));
    AlternatingAfter(Expelled(b), 5);
    assert Start(b, Batches(vs)) == 10;
    CoveredWhen(b, vs, current, 9);
    assert !InBatch(vs[0], 9);
  }
}
