/**
 The context sent to the model: a summary of old turns, the turns expelled from
 the window but not yet summarised, the last twenty messages, and the current one.
 */
module ContextWindow {

  const MAX_DIRECT_WINDOW := 20
  const SUMMARY_BATCH_TURNS := 5

  datatype Role = User | Assistant | System
  datatype Message = Message(id: nat, role: Role)

  /** The stored summary, as the batches folded into it so far; [] is "no summary". */
  type Memory = seq<seq<Message>>

  datatype Item = Summary(batches: Memory) | Said(message: Message)

  function CountUserTurns(ms: seq<Message>): nat {
    if ms == [] then 0
    else CountUserTurns(ms[..|ms| - 1]) + if ms[|ms| - 1].role == User then 1 else 0
  }

  /** Where the first `turns` user turns end. */
  function AfterTurns(ms: seq<Message>, turns: int): (e: nat)
    ensures e <= |ms|
  {
    if turns <= 0 then 0
    else if CountUserTurns(ms) <= turns then |ms|
    else AfterTurns(ms[..|ms| - 1], turns)
  }

  /** The prefix of length e has the wanted turns, and the next message, if any, starts another turn. */
  predicate EndsTurn(ms: seq<Message>, turns: int, e: nat)
    requires e <= |ms|
  {
    && CountUserTurns(ms[..e]) <= turns
    && (e < |ms| ==> ms[e].role == User && CountUserTurns(ms[..e]) == turns)
  }

  lemma {:induction false} CountMonotone(ms: seq<Message>, i: nat, j: nat)
    requires i <= j <= |ms|
    ensures CountUserTurns(ms[..i]) <= CountUserTurns(ms[..j])
    ensures i < j && ms[i].role == User ==> CountUserTurns(ms[..i]) < CountUserTurns(ms[..j])
  {
    if i < j {
      CountMonotone(ms, i, j - 1);
      assert ms[..j][..j - 1] == ms[..j - 1];
    }
  }

  lemma {:induction false} CountConcat(a: seq<Message>, b: seq<Message>)
    ensures CountUserTurns(a + b) == CountUserTurns(a) + CountUserTurns(b)
  {
    if b == [] {
      assert a + b == a;
    } else {
      CountConcat(a, b[..|b| - 1]);
      assert (a + b)[..|a + b| - 1] == a + b[..|b| - 1];
    }
  }

  /** The index is the one and only end of the wanted turns. */
  lemma {:induction false} AfterTurnsEndsTheTurns(ms: seq<Message>, turns: int, e: nat)
    requires turns > 0 && e <= |ms|
    ensures e == AfterTurns(ms, turns) <==> EndsTurn(ms, turns, e)
  {
    assert ms[..|ms|] == ms;
    if CountUserTurns(ms) <= turns {
      CountMonotone(ms, e, |ms|);
    } else {
      var n := |ms| - 1;
      if e <= n {
        AfterTurnsEndsTheTurns(ms[..n], turns, e);
        assert ms[..n][..e] == ms[..e];
      }
    }
  }

  method IndexAfterNUserTurns(ms: seq<Message>, turns: int) returns (e: nat)
    ensures e == AfterTurns(ms, turns)
  {
    if turns <= 0 {
      return 0;
    }
    var count := 0;
    for i := 0 to |ms|
      invariant count == CountUserTurns(ms[..i]) < turns
    {
      assert ms[..i + 1][..i] == ms[..i];
      if ms[i].role == User {
        count := count + 1;
        if count == turns {
          e := i + 1;
          while e < |ms| && ms[e].role != User
            invariant i < e <= |ms| && CountUserTurns(ms[..e]) == turns
          {
            assert ms[..e + 1][..e] == ms[..e];
            e := e + 1;
          }
          AfterTurnsEndsTheTurns(ms, turns, e);
          return;
        }
      }
    }
    assert ms[..|ms|] == ms;
    return |ms|;
  }

  // ---- the context ----

  /** The messages older than the direct window. */
  function Expelled(h: seq<Message>): seq<Message> {
    if |h| <= MAX_DIRECT_WINDOW then [] else h[..|h| - MAX_DIRECT_WINDOW]
  }

  predicate AtBoundary(h: seq<Message>) {
    var t := CountUserTurns(Expelled(h));
    t > 0 && t % SUMMARY_BATCH_TURNS == 0
  }

  function NewBatch(h: seq<Message>): seq<Message> {
    var x := Expelled(h);
    x[AfterTurns(x, CountUserTurns(x) - SUMMARY_BATCH_TURNS)..]
  }

  /** The memory after building a context; `ok` tells whether a summary call answers with text. */
  function Updated(h: seq<Message>, memory: Memory, ok: bool): Memory {
    if AtBoundary(h) && ok then memory + [NewBatch(h)] else memory
  }

  /** From where on the history is sent verbatim. */
  function Start(h: seq<Message>, memory: Memory): (p: nat)
    ensures p <= |h|
  {
    var x := Expelled(h);
    AfterTurns(x, if memory != [] then CountUserTurns(x) / SUMMARY_BATCH_TURNS * SUMMARY_BATCH_TURNS else 0)
  }

  function AllSaid(ms: seq<Message>): seq<Item> { seq(|ms|, i requires 0 <= i < |ms| => Said(ms[i])) }

  function Assemble(memory: Memory, verbatim: seq<Message>, current: Message): seq<Item> {
    (if memory != [] then [Summary(memory)] else []) + AllSaid(verbatim) + [Said(current)]
  }

  function Context(h: seq<Message>, current: Message, memory: Memory): seq<Item> {
    Assemble(memory, h[Start(h, memory)..], current)
  }

  /**
   The summary if there is one, then the history from the given message on, verbatim and
   in order, then the current message, and nothing else.
   */
  ghost predicate Lists(ctx: seq<Item>, h: seq<Message>, p: nat, current: Message, memory: Memory) {
    var n := if memory == [] then 0 else 1;
    && p <= |h| && |ctx| == n + |h| - p + 1
    && (n == 1 ==> ctx[0] == Summary(memory))
    && (forall k | p <= k < |h| :: ctx[n + k - p] == Said(h[k]))
    && ctx[|ctx| - 1] == Said(current)
  }

  lemma ContextLists(h: seq<Message>, current: Message, memory: Memory)
    ensures Lists(Context(h, current, memory), h, Start(h, memory), current, memory)
  {
  }

  /** Without a summary everything is sent; in any case at least the last twenty messages are. */
  lemma WindowIsSent(h: seq<Message>, memory: Memory)
    ensures memory == [] ==> Start(h, memory) == 0
    ensures |h| - Start(h, memory) >= if |h| <= MAX_DIRECT_WINDOW then |h| else MAX_DIRECT_WINDOW
  {
  }

  /** With a summary the pending part has exactly the turns past the last batch boundary, all of them whole. */
  lemma PendingTurns(h: seq<Message>, memory: Memory)
    requires memory != []
    ensures
      var x := Expelled(h);
      && Start(h, memory) <= |x|
      && CountUserTurns(x[Start(h, memory)..]) == CountUserTurns(x) % SUMMARY_BATCH_TURNS
      && (0 < Start(h, memory) < |x| ==> h[Start(h, memory)].role == User)
      && (CountUserTurns(x) < SUMMARY_BATCH_TURNS ==> Start(h, memory) == 0)
  {
    var x := Expelled(h);
    var p, turns := Start(h, memory), CountUserTurns(x) / SUMMARY_BATCH_TURNS * SUMMARY_BATCH_TURNS;
    assert x == x[..p] + x[p..];
    CountConcat(x[..p], x[p..]);
    if turns > 0 {
      AfterTurnsEndsTheTurns(x, turns, p);
      assert p == |x| ==> x[..p] == x;
    }
  }

  /** User and assistant take turns, the user first. */
  predicate Alternating(h: seq<Message>) {
    forall i | 0 <= i < |h| :: h[i].role == if i % 2 == 0 then User else Assistant
  }

  lemma {:induction false} AlternatingCount(h: seq<Message>)
    requires Alternating(h)
    ensures CountUserTurns(h) == (|h| + 1) / 2
  {
    if h != [] {
      AlternatingCount(h[..|h| - 1]);
    }
  }

  /** On pairs, ten turns are in the direct window. */
  lemma ExpelledTurns(h: seq<Message>, half: nat)
    requires Alternating(h) && |h| == 2 * half
    ensures Alternating(Expelled(h)) && CountUserTurns(Expelled(h)) == if half <= 10 then 0 else half - 10
  {
    AlternatingCount(Expelled(h));
  }

  lemma AlternatingAfter(h: seq<Message>, turns: nat)
    requires Alternating(h)
    ensures AfterTurns(h, turns) == if 2 * turns <= |h| then 2 * turns else |h|
  {
    var e := if 2 * turns <= |h| then 2 * turns else |h|;
    if turns > 0 {
      AlternatingCount(h[..e]);
      AfterTurnsEndsTheTurns(h, turns, e);
    }
  }

  /** An alternating history gives at most thirty items, as soon as a summary exists or none is due. */
  lemma ContextIsBounded(h: seq<Message>, current: Message, memory: Memory)
    requires Alternating(h)
    requires memory != [] || CountUserTurns(Expelled(h)) < SUMMARY_BATCH_TURNS
    ensures |Context(h, current, memory)| <= 30
  {
    var x := Expelled(h);
    AlternatingCount(x);
    AlternatingAfter(x, CountUserTurns(x) / SUMMARY_BATCH_TURNS * SUMMARY_BATCH_TURNS);
  }

  /** Without a summary it has no bound: everything is sent. */
  lemma NoSummaryNoBound(h: seq<Message>, current: Message)
    ensures Context(h, current, []) == AllSaid(h + [current])
  {
  }
}
