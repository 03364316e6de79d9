/**
 Runs of one conversation in which every question gets its reply: which batches are
 due when, what is enough to lose nothing, and how a missed summary loses messages.
 */
module PairedRuns {
  import opened ContextWindow
  import opened ChatRuns

  // ---- batches of pairs ----

  /** The length of the history at which batch i is due: ten more messages have left the window. */
  function DueAt(i: nat): nat { 10 * i + 30 }

  /** Batch i: five user turns with their answers. */
  function Batch(h: seq<Message>, i: nat): seq<Message>
    requires DueAt(i) <= |h|
  {
    h[10 * i..10 * i + 10]
  }

  ghost predicate Paired(h: seq<Message>) { Alternating(h) && |h| % 2 == 0 }

  /** A batch is added exactly when one is due and the summary call answers. */
  ghost predicate BatchUpdate(h: seq<Message>, memory: Memory, memory': Memory, ok: bool) {
    && (forall i: nat :: |h| == DueAt(i) && ok ==> memory' == memory + [Batch(h, i)])
    && (!ok || (forall i: nat :: |h| != DueAt(i)) ==> memory' == memory)
  }

  lemma UpdatedBatch(h: seq<Message>, memory: Memory, ok: bool)
    requires Paired(h)
    ensures BatchUpdate(h, memory, Updated(h, memory, ok), ok)
  {
    var half := |h| / 2;
    ExpelledTurns(h, half);
    DueTurns(half);
    if AtBoundary(h) {
      BatchOfPaired(h, half);
    }
  }

  /** In turns: a batch is due when the expelled turns are a positive multiple of five. */
  lemma DueTurns(half: nat)
    ensures (half > 10 && (half - 10) % SUMMARY_BATCH_TURNS == 0) <==> exists i: nat :: 2 * half == DueAt(i)
  {
    if half > 10 && (half - 10) % 5 == 0 {
      var i := (half - 10) / 5 - 1;
      assert half - 10 == 5 * (i + 1);
      assert 2 * half == DueAt(i);
    }
    forall i: nat | 2 * half == DueAt(i) ensures half > 10 && (half - 10) % 5 == 0 {
      assert half - 10 == 5 * (i + 1);
    }
  }

  lemma BatchOfPaired(h: seq<Message>, half: nat)
    requires Alternating(h) && |h| == 2 * half && half >= 15
    ensures NewBatch(h) == h[|h| - 30..|h| - 20]
  {
    ExpelledTurns(h, half);
    AlternatingAfter(Expelled(h), half - 15);
    TailOfExpelled(h);
  }

  lemma TailOfExpelled(h: seq<Message>)
    requires |h| >= 30
    ensures Expelled(h)[|h| - 30..] == h[|h| - 30..|h| - 20]
  {
  }

  /** On pairs, the turns out of the window end with their answers, and tell the length. */
  lemma PairedTurns(h: seq<Message>, i: nat)
    requires Paired(h)
    ensures Turns(h) == SUMMARY_BATCH_TURNS * (i + 1) <==> |h| == DueAt(i)
    ensures !MidTurn(h) && (Turns(h) / SUMMARY_BATCH_TURNS > i <==> |h| >= DueAt(i))
    ensures |h| == DueAt(i) ==> AtBoundary(h)
  {
    ExpelledTurns(h, |h| / 2);
  }

  // ---- runs of pairs ----

  /** Neither half-saved chats nor retries that only delete. */
  predicate KeepsPair(e: Event) { !e.HalfChat? && !e.HalfRag? && !e.FailedRetry? && !e.DroppedReply? }

  predicate KeepsPairs(es: seq<Event>) { forall n | 0 <= n < |es| :: KeepsPair(es[n]) }

  lemma PairedStep(s: State, e: Event)
    requires Paired(s.history) && KeepsPair(e)
    ensures Paired(HistoryAfter(s.history, e)) && (BuildsContext(s, e) ==> Paired(Base(s, e)))
  {
  }

  lemma {:induction false} PairedRun(es: seq<Event>)
    requires KeepsPairs(es)
    ensures Paired(Run([], es).history) && forall v <- Visited([], es) :: Paired(v)
  {
    if es != [] {
      PairedRun(es[..|es| - 1]);
      PairedStep(Run([], es[..|es| - 1]), es[|es| - 1]);
    }
  }

  /** A summary was stored on the history at which batch i is due. */
  predicate IsVisited(vs: seq<seq<Message>>, i: nat) { exists v <- vs :: |v| == DueAt(i) }

  /**
   On such runs a context covers all earlier messages exactly when no summary was ever
   stored, or one was stored at every batch boundary.
   */
  lemma NothingLostOnPairsIff(es: seq<Event>, e: Event, current: Message)
    requires KeepsPairs(es + [e]) && BuildsContext(Run([], es), e)
    requires NoDuplicates(Run([], es).history) && current !in Base(Run([], es), e)
    ensures
      var b, vs := Base(Run([], es), e), Visited([], es + [e]);
      (forall m <- b :: Covered(SentContext([], es, e, current), m)) <==>
      vs == [] || forall i: nat | DueAt(i) <= |b| :: IsVisited(vs, i)
  {
    var b, vs := Base(Run([], es), e), Visited([], es + [e]);
    NothingLostIff([], es, e, current);
    PairedRun(es + [e]);
    PairedBase(es, e);
    forall i: nat ensures IsVisited(vs, i) <==> IsCovered(vs, b, i) {
      VisitedIsCovered(vs, b, i);
    }
    forall i: nat ensures DueAt(i) <= |b| <==> i < Turns(b) / SUMMARY_BATCH_TURNS {
      PairedTurns(b, i);
    }
  }

  lemma PairedBase(es: seq<Event>, e: Event)
    requires KeepsPairs(es + [e])
    ensures KeepsPairs(es) && KeepsPair(e) && Paired(Run([], es).history)
    ensures BuildsContext(Run([], es), e) ==> Paired(Base(Run([], es), e))
  {
    assert forall n | 0 <= n < |es| :: es[n] == (es + [e])[n];
    assert (es + [e])[|es|] == e;
    PairedRun(es);
    PairedStep(Run([], es), e);
  }

  lemma VisitedIsCovered(vs: seq<seq<Message>>, b: seq<Message>, i: nat)
    requires forall v <- vs :: Paired(v)
    ensures IsVisited(vs, i) <==> IsCovered(vs, b, i)
  {
    forall v | v in vs ensures |v| == DueAt(i) <==> Covers(v, b, i) {
      PairedTurns(v, i);
    }
  }

  // ---- runs without failing summaries ----

  /** Every context the run builds can be summarised, and every message comes by an ordinary chat. */
  predicate Succeeds(e: Event) { KeepsPair(e) && !e.Rag? && e.ok }

  predicate AllSummariesSucceed(es: seq<Event>) { forall n | 0 <= n < |es| :: Succeeds(es[n]) }

  lemma AllSucceedPrefix(es: seq<Event>, e: Event)
    requires AllSummariesSucceed(es + [e])
    ensures AllSummariesSucceed(es) && Succeeds(e) && KeepsPairs(es + [e])
  {
    assert forall n | 0 <= n < |es| :: es[n] == (es + [e])[n];
    assert (es + [e])[|es|] == e;
  }

  lemma PassesBoundary(s: State, e: Event, i: nat)
    requires Paired(s.history) && Succeeds(e)
    requires |s.history| <= DueAt(i) < |HistoryAfter(s.history, e)|
    ensures Summarises(s, e) && |Base(s, e)| == DueAt(i)
  {
    assert e.Chat?;
    EvenGap(|s.history| / 2, i);
    PairedTurns(s.history, i);
  }

  /** An even length below a due one is at least two below it. */
  lemma EvenGap(half: nat, i: nat)
    ensures 2 * half < DueAt(i) ==> 2 * half + 2 <= DueAt(i)
  {
    assert DueAt(i) == 2 * (5 * i + 15);
  }

  lemma {:induction false} EveryBatchIsVisited(es: seq<Event>, i: nat)
    requires AllSummariesSucceed(es) && DueAt(i) < |Run([], es).history|
    ensures IsVisited(Visited([], es), i)
  {
    if es != [] {
      var init, e := es[..|es| - 1], es[|es| - 1];
      assert es == init + [e];
      AllSucceedPrefix(init, e);
      VisitedAppend([], init, e);
      if DueAt(i) < |Run([], init).history| {
        EveryBatchIsVisited(init, i);
      } else {
        PairedRun(init);
        PassesBoundary(Run([], init), e, i);
        assert Base(Run([], init), e) in Visited([], es);
      }
    }
  }

  /** If no summary fails, nothing is ever lost, however many chats failed or were retried in between. */
  lemma NothingIsLost(es: seq<Event>, e: Event, current: Message)
    requires AllSummariesSucceed(es + [e]) && BuildsContext(Run([], es), e)
    requires NoDuplicates(Run([], es).history) && current !in Base(Run([], es), e)
    ensures forall m <- Base(Run([], es), e) :: Covered(SentContext([], es, e, current), m)
  {
    var b := Base(Run([], es), e);
    AllSucceedPrefix(es, e);
    PairedBase(es, e);
    VisitedAppend([], es, e);
    forall i: nat | DueAt(i) <= |b| ensures IsVisited(Visited([], es + [e]), i) {
      if DueAt(i) < |Run([], es).history| {
        EveryBatchIsVisited(es, i);
      } else {
        PairedTurns(b, i);
        assert b in Visited([], es + [e]);
      }
    }
    NothingLostOnPairsIff(es, e, current);
  }

  function Flatten(memory: Memory): seq<Message> {
    if memory == [] then [] else Flatten(memory[..|memory| - 1]) + memory[|memory| - 1]
  }

  /** When all chats succeed as well, the batches are consecutive and concatenate to a prefix of the history. */
  lemma {:induction false} SummarisedPrefix(es: seq<Event>)
    requires AllSummariesSucceed(es) && forall n | 0 <= n < |es| :: es[n].Chat?
    ensures |Run([], es).history| == 2 * |es| && ConsecutiveBatches(Run([], es))
    ensures var s := Run([], es); 10 * |s.memory| <= |s.history| && Flatten(s.memory) == s.history[..10 * |s.memory|]
  {
    if es != [] {
      var n := |es| - 1;
      SummarisedPrefix(es[..n]);
      PairedRun(es[..n]);
      UpdatedBatch(Run([], es[..n]).history, Run([], es[..n]).memory, true);
      NextBatchIsConsecutive(Run([], es[..n]), Run([], es), n);
      FlattenStep(Run([], es[..n]), es[n]);
    }
  }

  /** The memory is batch 0, batch 1 and so on, up to the last one passed. */
  ghost predicate ConsecutiveBatches(s: State) {
    && |s.history| <= DueAt(|s.memory|) && (|s.memory| > 0 ==> DueAt(|s.memory| - 1) < |s.history|)
    && (forall i: nat | i < |s.memory| :: s.memory[i] == Batch(s.history, i))
  }

  lemma NextBatchIsConsecutive(s: State, s': State, half: nat)
    requires |s.history| == 2 * half && BatchUpdate(s.history, s.memory, s'.memory, true)
    requires ConsecutiveBatches(s) && s.history <= s'.history && |s'.history| == |s.history| + 2
    ensures ConsecutiveBatches(s')
    ensures s'.memory == s.memory
            || (DueAt(|s.memory|) <= |s.history| && s'.memory == s.memory + [Batch(s.history, |s.memory|)])
  {
    var m := |s.memory|;
    EvenGap(half, m);
    if |s.history| < DueAt(m) {
      BetweenBoundaries(|s.history|, m);
      assert s'.memory == s.memory;
    } else {
      assert s'.memory == s.memory + [Batch(s.history, m)];
    }
    forall i: nat | i < m ensures s'.memory[i] == Batch(s'.history, i) {
      assert DueAt(i) <= |s.history| && s.memory[i] == Batch(s.history, i);
    }
  }

  lemma BetweenBoundaries(length: nat, m: nat)
    requires length < DueAt(m) && (m > 0 ==> DueAt(m - 1) < length)
    ensures forall i: nat :: length != DueAt(i)
  {
    forall i: nat ensures length != DueAt(i) {
      assert i < m ==> DueAt(i) <= DueAt(m - 1);
    }
  }

  lemma FlattenStep(s: State, e: Event)
    requires e.Chat? && 10 * |s.memory| <= |s.history| && Flatten(s.memory) == s.history[..10 * |s.memory|]
    requires Next(s, e).memory == s.memory
             || (DueAt(|s.memory|) <= |s.history| && Next(s, e).memory == s.memory + [Batch(s.history, |s.memory|)])
    ensures
      var s' := Next(s, e);
      10 * |s'.memory| <= |s'.history| && Flatten(s'.memory) == s'.history[..10 * |s'.memory|]
  {
    var s' := Next(s, e);
    if s'.memory == s.memory {
      assert s'.history[..10 * |s.memory|] == s.history[..10 * |s.memory|];
    } else {
      assert s'.memory[..|s.memory|] == s.memory;
      assert s'.history[..10 * |s.memory| + 10] == s.history[..10 * |s.memory|] + Batch(s.history, |s.memory|);
    }
  }

  // ---- a batch can be missed ----

  /** Twenty chats in which no summary is stored: failing summary calls, or chats that build no context. */
  function Unsummarised(n: nat, rag: bool): seq<Event> {
    seq(n, k requires 0 <= k < n => if rag then Rag(2 * k, 2 * k + 1) else Chat(2 * k, 2 * k + 1, false))
  }

  ghost predicate IsUnsummarised(es: seq<Event>) {
    var h := Run([], es).history;
    && KeepsPairs(es) && Visited([], es) == [] && |h| == 2 * |es| && forall j | 0 <= j < |h| :: h[j].id == j
  }

  lemma UnsummarisedStep(es: seq<Event>, e: Event)
    requires IsUnsummarised(es)
    requires e == Rag(2 * |es|, 2 * |es| + 1) || e == Chat(2 * |es|, 2 * |es| + 1, false)
    ensures IsUnsummarised(es + [e])
  {
    assert (es + [e])[..|es|] == es;
    VisitedAppend([], es, e);
  }

  lemma {:induction false} UnsummarisedRun(n: nat, rag: bool)
    ensures IsUnsummarised(Unsummarised(n, rag))
  {
    if n > 0 {
      UnsummarisedRun(n - 1, rag);
      UnsummarisedStep(Unsummarised(n - 1, rag), Unsummarised(n, rag)[n - 1]);
      assert Unsummarised(n, rag) == Unsummarised(n - 1, rag) + [Unsummarised(n, rag)[n - 1]];
    }
  }

  /**
   One failed summary, or one chat without a context at a batch boundary, loses
   messages as soon as a later summary succeeds.
   */
  lemma AMissedBatchIsLost(rag: bool)
    ensures
      var es, e, current := Unsummarised(20, rag), Chat(40, 41, true), Message(40, User);
      && BuildsContext(Run([], es), e) && NoDuplicates(Run([], es).history)
      && exists m :: m in Base(Run([], es), e) && !Covered(SentContext([], es, e, current), m)
  {
    var es, e, current := Unsummarised(20, rag), Chat(40, 41, true), Message(40, User);
    UnsummarisedRun(20, rag);
    var h := Run([], es).history;
    assert KeepsPairs(es + [e]);
    VisitedAppend([], es, e);
    PairedBase(es, e);
    PairedTurns(h, 1);
    var vs := Visited([], es + [e]);
    assert vs == [h] && !IsVisited(vs, 0) && DueAt(0) <= |h|;
    NothingLostOnPairsIff(es, e, current);
  }
}
