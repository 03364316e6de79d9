/**
 The agent's chat mode: assembling tool calls from streamed fragments, and the
 loop that answers them for at most five rounds.
 */
module ToolLoop {

  const MAX_LOOPS := 5

  /** A piece of a tool call; an absent part is the empty string. */
  datatype Fragment = Fragment(index: nat, id: string, name: string, arguments: string)

  datatype Delta = Delta(content: string, toolCalls: seq<Fragment>)

  datatype Call = Call(id: string, name: string, arguments: string)

  datatype Message =
    | System
    | User
    | Assistant(content: string, toolCalls: seq<Call>)
    | Tool(callId: string, content: string)

  datatype Event = Chunk(text: string) | Searching | Finished | Result(answer: string)

  // ---- what a stream says ----

  function Fragments(deltas: seq<Delta>): seq<Fragment> {
    if deltas == [] then [] else Fragments(deltas[..|deltas| - 1]) + deltas[|deltas| - 1].toolCalls
  }

  function Contents(deltas: seq<Delta>): string {
    if deltas == [] then "" else Contents(deltas[..|deltas| - 1]) + deltas[|deltas| - 1].content
  }

  /** All text and all fragments, in the order of the stream. */
  lemma {:induction false} StreamConcat(a: seq<Delta>, b: seq<Delta>)
    ensures Contents(a + b) == Contents(a) + Contents(b) && Fragments(a + b) == Fragments(a) + Fragments(b)
  {
    if b == [] {
      assert a + b == a;
    } else {
      var init, d := b[..|b| - 1], b[|b| - 1];
      StreamConcat(a, init);
      assert a + b == (a + init) + [d];
      OneDelta(a + init, d);
      Associates(Contents(a), Contents(init), d.content);
      Associates(Fragments(a), Fragments(init), d.toolCalls);
    }
  }

  lemma OneDelta(deltas: seq<Delta>, d: Delta)
    ensures Contents(deltas + [d]) == Contents(deltas) + d.content
    ensures Fragments(deltas + [d]) == Fragments(deltas) + d.toolCalls
  {
    assert (deltas + [d])[..|deltas|] == deltas;
  }

  lemma Associates<T>(a: seq<T>, b: seq<T>, c: seq<T>)
    ensures a + b + c == a + (b + c)
  {
  }

  /** The fragments of one call, in the order they arrived. */
  function Of(fs: seq<Fragment>, i: nat): seq<Fragment> {
    if fs == [] then []
    else if fs[|fs| - 1].index == i then Of(fs[..|fs| - 1], i) + [fs[|fs| - 1]]
    else Of(fs[..|fs| - 1], i)
  }

  const NO_CALL := Call("", "", "")

  /** A later non-empty id or name replaces an earlier one; arguments are concatenated. */
  function Merge(call: Call, f: Fragment): Call {
    Call(if f.id != "" then f.id else call.id, if f.name != "" then f.name else call.name, call.arguments + f.arguments)
  }

  function Assembled(own: seq<Fragment>): Call {
    if own == [] then NO_CALL else Merge(Assembled(own[..|own| - 1]), own[|own| - 1])
  }

  function Arguments(own: seq<Fragment>): string {
    if own == [] then "" else Arguments(own[..|own| - 1]) + own[|own| - 1].arguments
  }

  lemma {:induction false} ArgumentsAreConcatenated(own: seq<Fragment>)
    ensures Assembled(own).arguments == Arguments(own)
  {
    if own != [] {
      ArgumentsAreConcatenated(own[..|own| - 1]);
    }
  }

  lemma {:induction false} ArgumentsConcat(a: seq<Fragment>, b: seq<Fragment>)
    ensures Arguments(a + b) == Arguments(a) + Arguments(b)
  {
    if b == [] {
      assert a + b == a;
    } else {
      var init, f := b[..|b| - 1], b[|b| - 1];
      ArgumentsConcat(a, init);
      assert a + b == (a + init) + [f];
      OneMoreArgument(a + init, f);
      Associates(Arguments(a), Arguments(init), f.arguments);
    }
  }

  lemma OneMoreArgument(own: seq<Fragment>, f: Fragment)
    ensures Arguments(own + [f]) == Arguments(own) + f.arguments
  {
    assert (own + [f])[..|own|] == own;
  }

  /** The text of the last fragment that brings any, or none. */
  ghost predicate IsLastText(texts: seq<string>, text: string) {
    || (exists i :: 0 <= i < |texts| && texts[i] == text != "" && forall j | i < j < |texts| :: texts[j] == "")
    || (text == "" && forall i | 0 <= i < |texts| :: texts[i] == "")
  }

  function IdsOf(own: seq<Fragment>): seq<string> { seq(|own|, i requires 0 <= i < |own| => own[i].id) }

  function NamesOf(own: seq<Fragment>): seq<string> { seq(|own|, i requires 0 <= i < |own| => own[i].name) }

  predicate BringsArguments(own: seq<Fragment>) { exists f <- own :: f.arguments != "" }

  /** The call its fragments ask for: last id, last name, all arguments, and an empty object for none. */
  ghost predicate IsCallOf(own: seq<Fragment>, call: Call) {
    && IsLastText(IdsOf(own), call.id) && IsLastText(NamesOf(own), call.name)
    && call.arguments == if BringsArguments(own) then Arguments(own) else "{}"
  }

  lemma AssembledIsCall(own: seq<Fragment>)
    ensures IsCallOf(own, WithDefaults(Assembled(own)))
  {
    LastTexts(own);
    ArgumentsAreConcatenated(own);
    NoArguments(own);
  }

  lemma {:induction false} LastTexts(own: seq<Fragment>)
    ensures IsLastText(IdsOf(own), Assembled(own).id) && IsLastText(NamesOf(own), Assembled(own).name)
  {
    if own != [] {
      var init, f := own[..|own| - 1], own[|own| - 1];
      LastTexts(init);
      LastTextStep(IdsOf(init), Assembled(init).id, f.id);
      LastTextStep(NamesOf(init), Assembled(init).name, f.name);
      assert IdsOf(own) == IdsOf(init) + [f.id] && NamesOf(own) == NamesOf(init) + [f.name];
    }
  }

  lemma {:induction false} NoArguments(own: seq<Fragment>)
    ensures Arguments(own) == "" <==> !BringsArguments(own)
  {
    if own != [] {
      var init, f := own[..|own| - 1], own[|own| - 1];
      NoArguments(init);
      assert own == init + [f];
    }
  }

  lemma LastTextStep(texts: seq<string>, text: string, next: string)
    requires IsLastText(texts, text)
    ensures IsLastText(texts + [next], if next != "" then next else text)
  {
    var all := texts + [next];
    assert all[|texts|] == next;
    if next == "" && text != "" {
      var i :| 0 <= i < |texts| && texts[i] == text && forall j | i < j < |texts| :: texts[j] == "";
      assert all[i] == text;
    }
  }

  function Indices(fs: seq<Fragment>): set<nat> { set f | f in fs :: f.index }

  function Calls(fs: seq<Fragment>): map<nat, Call> { map i | i in Indices(fs) :: Assembled(Of(fs, i)) }

  /** Only the order within each call matters, not how the calls are interleaved. */
  lemma InterleavingIsIrrelevant(fs: seq<Fragment>, gs: seq<Fragment>)
    requires forall i: nat :: Of(fs, i) == Of(gs, i)
    ensures Calls(fs) == Calls(gs)
  {
    forall i: nat ensures i in Indices(fs) <==> i in Indices(gs) {
      OfIsEmptyIff(fs, i);
      OfIsEmptyIff(gs, i);
    }
  }

  lemma {:induction false} OfIsEmptyIff(fs: seq<Fragment>, i: nat)
    ensures Of(fs, i) == [] <==> i !in Indices(fs)
  {
    if fs != [] {
      var init, f := fs[..|fs| - 1], fs[|fs| - 1];
      OfIsEmptyIff(init, i);
      assert fs == init + [f];
      assert Indices(fs) == Indices(init) + {f.index};
    }
  }

  /** They are the fragments with that index, each once and in the order they arrived. */
  lemma {:induction false} OfIsSubsequence(fs: seq<Fragment>, i: nat) returns (at: seq<nat>)
    ensures Ascending(at) && |at| == |Of(fs, i)|
    ensures forall n | 0 <= n < |at| :: at[n] < |fs| && Of(fs, i)[n] == fs[at[n]]
    ensures forall k: nat | k < |fs| :: fs[k].index == i <==> k in at
  {
    at := [];
    if fs != [] {
      var n := |fs| - 1;
      at := OfIsSubsequence(fs[..n], i);
      if fs[n].index == i {
        at := at + [n];
      }
    }
  }

  function Filed(calls: map<nat, Call>, f: Fragment): map<nat, Call> {
    calls[f.index := Merge(if f.index in calls then calls[f.index] else NO_CALL, f)]
  }

  /** One more fragment changes its own call and no other. */
  lemma OneMoreFragment(fs: seq<Fragment>, f: Fragment)
    ensures Calls(fs + [f]) == Filed(Calls(fs), f)
  {
    assert Indices(fs + [f]) == Indices(fs) + {f.index} by {
      assert forall g :: g in fs + [f] <==> g in fs || g == f;
    }
    OfIsEmptyIff(fs, f.index);
    OfStep(fs, f, f.index);
    AssembledStep(Of(fs, f.index), f);
    forall i | i in Indices(fs) && i != f.index ensures Calls(fs + [f])[i] == Calls(fs)[i] {
      OfStep(fs, f, i);
    }
  }

  lemma OfStep(fs: seq<Fragment>, f: Fragment, i: nat)
    ensures Of(fs + [f], i) == if f.index == i then Of(fs, i) + [f] else Of(fs, i)
  {
    assert (fs + [f])[..|fs|] == fs;
  }

  lemma AssembledStep(own: seq<Fragment>, f: Fragment)
    ensures Assembled(own + [f]) == Merge(Assembled(own), f)
  {
    assert (own + [f])[..|own|] == own;
  }

  // ---- one round ----

  /** Above every index used. */
  function Bound(fs: seq<Fragment>): nat {
    if fs == [] then 0
    else
      var b, i := Bound(fs[..|fs| - 1]), fs[|fs| - 1].index;
      if i < b then b else i + 1
  }

  lemma {:induction false} BoundIsAbove(fs: seq<Fragment>, i: nat)
    requires Of(fs, i) != []
    ensures i < Bound(fs)
  {
    if fs[|fs| - 1].index != i {
      BoundIsAbove(fs[..|fs| - 1], i);
    }
  }

  function WithDefaults(c: Call): Call { if c.arguments == "" then c.(arguments := "{}") else c }

  /** The indices used, below the bound, in ascending order. */
  function Used(fs: seq<Fragment>, bound: nat): seq<nat> {
    if bound == 0 then []
    else if Of(fs, bound - 1) == [] then Used(fs, bound - 1)
    else Used(fs, bound - 1) + [bound - 1]
  }

  function Mapped(fs: seq<Fragment>, order: seq<nat>): seq<Call> {
    seq(|order|, n requires 0 <= n < |order| => WithDefaults(Assembled(Of(fs, order[n]))))
  }

  /** The calls by ascending index, with the defaults filled in. */
  function CallsInOrder(fs: seq<Fragment>): seq<Call> { Mapped(fs, Used(fs, Bound(fs))) }

  predicate Ascending(order: seq<nat>) { forall j, k | 0 <= j < k < |order| :: order[j] < order[k] }

  /** The greatest of an ascending sequence comes last, and only there. */
  lemma LastOfAscending(order: seq<nat>, top: nat)
    requires Ascending(order) && top in order && forall i <- order :: i <= top
    ensures order[|order| - 1] == top && Ascending(order[..|order| - 1])
    ensures forall i: nat :: i in order[..|order| - 1] <==> i in order && i != top
  {
    var n := |order| - 1;
    var k :| 0 <= k < |order| && order[k] == top;
    assert order[n] in order;
    if k < n {
      assert false;
    }
    assert order == order[..n] + [top];
    forall j | 0 <= j < n ensures order[..n][j] != top {
    }
  }

  lemma FirstIsIn(order: seq<nat>)
    ensures order != [] ==> order[0] in order
  {
  }

  /** There is one way to list the indices used in ascending order. */
  lemma {:induction false} SortedIsUsed(fs: seq<Fragment>, order: seq<nat>, bound: nat)
    requires Ascending(order) && (forall i <- order :: i < bound)
    requires forall i: nat | i < bound :: i in order <==> Of(fs, i) != []
    ensures order == Used(fs, bound)
  {
    if bound == 0 {
      FirstIsIn(order);
    } else if bound - 1 in order {
      LastOfAscending(order, bound - 1);
      SortedIsUsed(fs, order[..|order| - 1], bound - 1);
    } else {
      SortedIsUsed(fs, order, bound - 1);
    }
  }

  /** The indices in ascending order, and for each the call its fragments ask for. */
  ghost predicate ListsCalls(fs: seq<Fragment>, order: seq<nat>, calls: seq<Call>) {
    && Ascending(order) && (forall i: nat :: i in order <==> exists f <- fs :: f.index == i)
    && |calls| == |order| && forall n | 0 <= n < |order| :: IsCallOf(Of(fs, order[n]), calls[n])
  }

  lemma {:induction false} UsedAreListed(fs: seq<Fragment>, bound: nat)
    ensures Ascending(Used(fs, bound)) && forall i: nat :: i in Used(fs, bound) <==> i < bound && Of(fs, i) != []
  {
    if bound > 0 {
      UsedAreListed(fs, bound - 1);
      var below := Used(fs, bound - 1);
      forall j | 0 <= j < |below| ensures below[j] < bound - 1 {
        assert below[j] in below;
      }
    }
  }

  lemma CallsAreListed(fs: seq<Fragment>)
    ensures ListsCalls(fs, Used(fs, Bound(fs)), CallsInOrder(fs))
  {
    var order := Used(fs, Bound(fs));
    UsedAreListed(fs, Bound(fs));
    forall i: nat ensures i in order <==> exists f <- fs :: f.index == i {
      OfIsEmptyIff(fs, i);
      if Of(fs, i) != [] {
        BoundIsAbove(fs, i);
      }
    }
    forall n | 0 <= n < |order| ensures IsCallOf(Of(fs, order[n]), CallsInOrder(fs)[n]) {
      AssembledIsCall(Of(fs, order[n]));
    }
  }

  method SortedKeys(keys: set<nat>) returns (order: seq<nat>)
    ensures Ascending(order) && forall i :: i in order <==> i in keys
  {
    order := [];
    var rest := keys;
    while exists i :: i in rest
      invariant Ascending(order) && rest <= keys
      invariant forall i :: i in order <==> i in keys - rest
      invariant forall n, j | 0 <= n < |order| && j in rest :: order[n] < j
      decreases |rest|
    {
      var i := PickSmallest(rest);
      order := order + [i];
      rest := rest - {i};
    }
  }

  method PickSmallest(s: set<nat>) returns (i: nat)
    requires exists j :: j in s
    ensures i in s && forall j | j in s - {i} :: i < j
  {
    Smallest(s);
    i :| i in s && forall j <- s :: i <= j;
  }

  lemma {:induction false} Smallest(s: set<nat>)
    requires exists i :: i in s
    ensures exists i :: i in s && forall j <- s :: i <= j
  {
    var i :| i in s;
    SmallestBelow(s, i);
  }

  /** The least element below a given one, found downwards. */
  lemma {:induction false} SmallestBelow(s: set<nat>, i: nat)
    requires i in s
    ensures exists k :: k in s && forall j <- s :: k <= j
  {
    if j :| j in s && j < i {
      SmallestBelow(s, j);
    }
  }

  /** The calls of the assistant message: the keys of the map are sorted, then looked up. */
  method ToolCalls(toolCallsMap: map<nat, Call>, ghost fs: seq<Fragment>)
    returns (r: seq<Call>, ghost indices: seq<nat>)
    requires toolCallsMap == Calls(fs)
    ensures r == CallsInOrder(fs) && ListsCalls(fs, indices, r)
  {
    var order := SortedKeys(toolCallsMap.Keys);
    indices := order;
    CallsAreListed(fs);
    r := seq(|order|, n requires 0 <= n < |order| => assert order[n] in order; WithDefaults(toolCallsMap[order[n]]));
    assert r == Mapped(fs, order);
    forall i: nat ensures (i in order <==> Of(fs, i) != []) && (i in order ==> i < Bound(fs)) {
      OfIsEmptyIff(fs, i);
      if i in order {
        BoundIsAbove(fs, i);
      }
    }
    SortedIsUsed(fs, order, Bound(fs));
  }

  /** The stream loop: text goes out as it comes in, fragments are filed under their index. */
  method ReadStream(deltas: seq<Delta>) returns (content: string, toolCalls: map<nat, Call>, events: seq<Event>)
    ensures content == Contents(deltas) && toolCalls == Calls(Fragments(deltas))
    ensures forall e <- events :: e.Chunk?
    ensures Text(events) == content
  {
    content, toolCalls, events := "", map[], [];
    for n := 0 to |deltas|
      invariant content == Contents(deltas[..n]) && toolCalls == Calls(Fragments(deltas[..n]))
      invariant forall e <- events :: e.Chunk?
      invariant Text(events) == content
    {
      var delta := deltas[n];
      assert deltas[..n + 1][..n] == deltas[..n];
      if delta.content != "" {
        content := content + delta.content;
        assert (events + [Chunk(delta.content)])[..|events|] == events;
        events := events + [Chunk(delta.content)];
      }
      toolCalls := Accumulate(toolCalls, delta.toolCalls, Fragments(deltas[..n]));
    }
    assert deltas[..|deltas|] == deltas;
  }

  method Accumulate(calls: map<nat, Call>, fragments: seq<Fragment>, ghost before: seq<Fragment>)
    returns (r: map<nat, Call>)
    requires calls == Calls(before)
    ensures r == Calls(before + fragments)
  {
    r := calls;
    Prefixes(before, fragments);
    for n := 0 to |fragments|
      invariant r == Calls(before + fragments[..n])
    {
      OneMoreFragment(before + fragments[..n], fragments[n]);
      r := FileFragment(r, fragments[n]);
    }
  }

  lemma Prefixes(before: seq<Fragment>, fs: seq<Fragment>)
    ensures before + fs[..0] == before && before + fs[..|fs|] == before + fs
    ensures forall n | 0 <= n < |fs| :: before + fs[..n] + [fs[n]] == before + fs[..n + 1]
  {
  }

  method FileFragment(calls: map<nat, Call>, f: Fragment) returns (r: map<nat, Call>)
    ensures r == Filed(calls, f)
  {
    r := calls;
    if f.index !in r {
      r := r[f.index := NO_CALL];
    }
    var call := r[f.index];
    if f.id != "" {
      call := call.(id := f.id);
    }
    if f.name != "" {
      call := call.(name := f.name);
    }
    assert call.arguments + "" == call.arguments;
    if f.arguments != "" {
      call := call.(arguments := call.arguments + f.arguments);
    }
    r := r[f.index := call];
  }

  /** The text streamed to the client. */
  function Text(events: seq<Event>): string {
    if events == [] then ""
    else Text(events[..|events| - 1]) + if events[|events| - 1].Chunk? then events[|events| - 1].text else ""
  }

  // ---- the loop ----

  /** One streamed answer, which may break off after some deltas. */
  datatype Response = Response(deltas: seq<Delta>, breaks: bool)

  /** What it amounts to. */
  datatype Turn = Turn(content: string, calls: seq<Call>, broken: bool)

  function Digest(r: Response): Turn { Turn(Contents(r.deltas), CallsInOrder(Fragments(r.deltas)), r.breaks) }

  function Digests(responses: seq<Response>): seq<Turn> {
    seq(|responses|, n requires 0 <= n < |responses| => Digest(responses[n]))
  }

  /** Tools may have state: what one answers depends on the round and on its place in the round. */
  type Tools = (nat, nat, Call) -> string

  /** The model's answers, a missing one being a failed call; argument strings that are not JSON; the tools. */
  datatype World = World(turns: seq<Turn>, malformed: set<string>, execute: Tools)

  datatype Ending = Answered(answer: string) | Exhausted | Threw

  function Replies(w: World, round: nat, calls: seq<Call>): seq<Message> {
    seq(|calls|, n requires 0 <= n < |calls| => Tool(calls[n].id, w.execute(round, n, calls[n])))
  }

  /** What one round of tool calls adds. */
  function Round(w: World, round: nat): seq<Message>
    requires round < |w.turns|
  {
    var t := w.turns[round];
    [Assistant(t.content, t.calls)] + Replies(w, round, t.calls)
  }

  /** The conversation after some rounds of tool calls. */
  function Transcript(w: World, rounds: nat): seq<Message>
    requires rounds <= |w.turns|
  {
    if rounds == 0 then [System, User] else Transcript(w, rounds - 1) + Round(w, rounds - 1)
  }

  /** The round's stream is complete and asks for tools, and all their arguments can be parsed. */
  predicate CanGoOn(w: World, round: nat) {
    && round < |w.turns| && !w.turns[round].broken && w.turns[round].calls != []
    && forall c <- w.turns[round].calls :: c.arguments !in w.malformed
  }

  /** Every round the loop allows asks for tools that can be called. */
  ghost predicate UsesUpRounds(w: World) { forall r: nat | r < MAX_LOOPS :: CanGoOn(w, r) }

  /** How the loop ends: at the first round that does not ask for tools, or fails, or after the fifth. */
  function EndsAt(w: World, round: nat): Ending
    decreases MAX_LOOPS - round
  {
    if round >= MAX_LOOPS then Exhausted
    else if round >= |w.turns| || w.turns[round].broken then Threw
    else if w.turns[round].calls == [] then Answered(w.turns[round].content)
    else if !CanGoOn(w, round) then Threw
    else EndsAt(w, round + 1)
  }

  /** The first round that cannot go on ends the loop: with its content if it is complete and asks for no tools. */
  lemma {:induction false} EndsAtFirst(w: World, from: nat, r: nat)
    requires from <= r < MAX_LOOPS && (forall q: nat | from <= q < r :: CanGoOn(w, q)) && !CanGoOn(w, r)
    ensures EndsAt(w, from) == if r < |w.turns| && !w.turns[r].broken && w.turns[r].calls == []
                               then Answered(w.turns[r].content) else Threw
    decreases r - from
  {
    if from < r {
      assert CanGoOn(w, from);
      EndsAtFirst(w, from + 1, r);
    }
  }

  /** The message of a round and its replies stand there, one behind the other. */
  ghost predicate RoundAt(ms: seq<Message>, p: nat, w: World, r: nat)
    requires r < |w.turns|
  {
    var t := w.turns[r];
    && p + 1 + |t.calls| <= |ms| && ms[p] == Assistant(t.content, t.calls)
    && forall n | 0 <= n < |t.calls| :: ms[p + 1 + n] == Tool(t.calls[n].id, w.execute(r, n, t.calls[n]))
  }

  /** The transcript is the two prompts and then every round, in order and without gaps. */
  lemma TranscriptHolds(w: World, rounds: nat, r: nat)
    requires r < rounds <= |w.turns|
    ensures [System, User] <= Transcript(w, rounds) && RoundAt(Transcript(w, rounds), |Transcript(w, r)|, w, r)
    ensures |Transcript(w, 0)| == 2 && |Transcript(w, r + 1)| == |Transcript(w, r)| + 1 + |w.turns[r].calls|
  {
    TranscriptGrows(w, 0, rounds);
    TranscriptGrows(w, r + 1, rounds);
    RoundStands(Transcript(w, r), w, r);
    assert Transcript(w, r + 1) == Transcript(w, r) + Round(w, r);
  }

  lemma RoundStands(ms: seq<Message>, w: World, r: nat)
    requires r < |w.turns|
    ensures RoundAt(ms + Round(w, r), |ms|, w, r) && |Round(w, r)| == 1 + |w.turns[r].calls|
  {
  }

  lemma {:induction false} TranscriptGrows(w: World, r: nat, rounds: nat)
    requires r <= rounds <= |w.turns|
    ensures Transcript(w, r) <= Transcript(w, rounds)
  {
    if r < rounds {
      TranscriptGrows(w, r, rounds - 1);
    }
  }

  function Results(events: seq<Event>): nat {
    if events == [] then 0 else Results(events[..|events| - 1]) + if events[|events| - 1].Result? then 1 else 0
  }

  lemma {:induction false} ResultsConcat(a: seq<Event>, b: seq<Event>)
    ensures Results(a + b) == Results(a) + Results(b)
  {
    if b == [] {
      assert a + b == a;
    } else {
      ResultsConcat(a, b[..|b| - 1]);
      assert (a + b)[..|a + b| - 1] == a + b[..|b| - 1];
    }
  }

  lemma {:induction false} ChunksAreNoResults(events: seq<Event>)
    requires forall e <- events :: !e.Result?
    ensures Results(events) == 0
  {
    if events != [] {
      ChunksAreNoResults(events[..|events| - 1]);
    }
  }

  /** All tool calls of one round, answered in order; false when one cannot be parsed. */
  method AnswerToolCalls(round: nat, calls: seq<Call>, malformed: set<string>, execute: Tools)
    returns (ok: bool, replies: seq<Message>)
    ensures ok <==> forall c <- calls :: c.arguments !in malformed
    ensures ok ==> |replies| == |calls|
    ensures ok ==> forall n | 0 <= n < |calls| :: replies[n] == Tool(calls[n].id, execute(round, n, calls[n]))
  {
    replies := [];
    for n := 0 to |calls|
      invariant |replies| == n
      invariant forall k | 0 <= k < n :: replies[k] == Tool(calls[k].id, execute(round, k, calls[k]))
      invariant forall k | 0 <= k < n :: calls[k].arguments !in malformed
    {
      if calls[n].arguments in malformed {
        return false, replies;
      }
      replies := replies + [Tool(calls[n].id, execute(round, n, calls[n]))];
    }
    return true, replies;
  }

  /**
   At most five rounds; the messages are the transcript of the rounds completed; one
   result event is sent exactly when a round asked for no tools.
   */
  method HandleChatMode(responses: seq<Response>, malformed: set<string>, execute: Tools)
    returns (ending: Ending, rounds: nat, messages: seq<Message>, events: seq<Event>)
    ensures var w := World(Digests(responses), malformed, execute);
            && ending == EndsAt(w, 0)
            && (!ending.Threw? ==> rounds <= |w.turns| && messages == Transcript(w, rounds))
    ensures rounds <= MAX_LOOPS && Results(events) == (if ending.Answered? then 1 else 0)
    ensures ending.Answered? ==> events != [] && events[|events| - 1] == Result(ending.answer)
    ensures var visited := if ending.Exhausted? || rounds >= |responses| then rounds else rounds + 1;
            visited <= |responses| && Text(events) == Said(responses, visited)
    ensures ending.Answered? ==>
              && rounds < |responses| && !responses[rounds].breaks && Fragments(responses[rounds].deltas) == []
              && ending.answer == Contents(responses[rounds].deltas)
    ensures ending.Threw? ==>
              && rounds < MAX_LOOPS
              && (rounds < |responses| ==> responses[rounds].breaks || Fragments(responses[rounds].deltas) != [])
  {
    ghost var w := World(Digests(responses), malformed, execute);
    messages, events, rounds := [System, User], [], 0;
    while rounds < MAX_LOOPS
      invariant rounds <= MAX_LOOPS && rounds <= |w.turns| && messages == Transcript(w, rounds)
      invariant EndsAt(w, 0) == EndsAt(w, rounds) && Results(events) == 0 && Text(events) == Said(responses, rounds)
    {
      if rounds >= |responses| {
        return Threw, rounds, messages, events;
      }
      var content, toolCalls;
      content, toolCalls, events := ReadResponse(responses, rounds, events);
      if responses[rounds].breaks {
        return Threw, rounds, messages, events;
      }
      assert w.turns[rounds] == Turn(content, toolCalls, false);
      if |toolCalls| > 0 {
        messages := messages + [Assistant(content, toolCalls)];
        events := Send(events, Searching);
        var ok, replies := AnswerToolCalls(rounds, toolCalls, malformed, execute);
        if !ok {
          return Threw, rounds, messages, events;
        }
        TranscriptStep(w, rounds, replies);
        messages := messages + replies;
        rounds := rounds + 1;
      } else {
        events := Send(events, Finished);
        events := Send(events, Result(content));
        return Answered(content), rounds, messages, events;
      }
    }
    return Exhausted, rounds, messages, events;
  }

  lemma TranscriptStep(w: World, rounds: nat, replies: seq<Message>)
    requires rounds < |w.turns| && |replies| == |w.turns[rounds].calls|
    requires var calls := w.turns[rounds].calls;
             forall n | 0 <= n < |calls| :: replies[n] == Tool(calls[n].id, w.execute(rounds, n, calls[n]))
    ensures var t := w.turns[rounds];
            Transcript(w, rounds) + [Assistant(t.content, t.calls)] + replies == Transcript(w, rounds + 1)
  {
    assert replies == Replies(w, rounds, w.turns[rounds].calls);
  }

  lemma {:induction false} TextConcat(a: seq<Event>, b: seq<Event>)
    ensures Text(a + b) == Text(a) + Text(b)
  {
    if b == [] {
      assert a + b == a;
    } else {
      var init, e := b[..|b| - 1], b[|b| - 1];
      TextConcat(a, init);
      assert (a + b)[..|a + b| - 1] == a + init;
      Associates(Text(a), Text(init), if e.Chunk? then e.text else "");
    }
  }

  /** The text of the first responses, one after the other. */
  function Said(responses: seq<Response>, n: nat): string
    requires n <= |responses|
  {
    if n == 0 then "" else Said(responses, n - 1) + Contents(responses[n - 1].deltas)
  }

  /** One response: its text goes out after what was said before, and its calls are assembled. */
  method ReadResponse(responses: seq<Response>, round: nat, before: seq<Event>)
    returns (content: string, toolCalls: seq<Call>, events: seq<Event>)
    requires round < |responses| && Text(before) == Said(responses, round)
    ensures content == Contents(responses[round].deltas)
    ensures toolCalls == CallsInOrder(Fragments(responses[round].deltas))
    ensures toolCalls == [] <==> Fragments(responses[round].deltas) == []
    ensures Text(events) == Said(responses, round + 1) && Results(events) == Results(before)
  {
    var toolCallsMap, streamed;
    content, toolCallsMap, streamed := ReadStream(responses[round].deltas);
    events := Quietly(before, streamed);
    ghost var indices;
    toolCalls, indices := ToolCalls(toolCallsMap, Fragments(responses[round].deltas));
    AsksForToolsIff(responses[round]);
  }

  /** An event without text. */
  method Send(events: seq<Event>, e: Event) returns (r: seq<Event>)
    requires !e.Chunk?
    ensures |r| == |events| + 1 && r[|events|] == e
    ensures Text(r) == Text(events) && Results(r) == Results(events) + if e.Result? then 1 else 0
  {
    r := events + [e];
    assert r[..|events|] == events;
    assert Text(events) + "" == Text(events);
  }

  /** Events that are no result. */
  method Quietly(events: seq<Event>, more: seq<Event>) returns (r: seq<Event>)
    requires forall e <- more :: !e.Result?
    ensures Results(r) == Results(events) && Text(r) == Text(events) + Text(more)
  {
    TextConcat(events, more);
    ResultsConcat(events, more);
    ChunksAreNoResults(more);
    r := events + more;
  }

  // ---- the transcript is well formed ----

  /** Reads messages in order, knowing which tool replies are due; false at the first one out of place. */
  predicate Accepts(ms: seq<Message>, due: seq<string>) {
    if ms == [] then due == []
    else match ms[0]
      case Tool(id, _) => due != [] && due[0] == id && Accepts(ms[1..], due[1..])
      case Assistant(_, calls) => due == [] && Accepts(ms[1..], CallIds(calls))
      case _ => due == [] && Accepts(ms[1..], due)
  }

  function CallIds(calls: seq<Call>): seq<string> { seq(|calls|, n requires 0 <= n < |calls| => calls[n].id) }

  lemma {:induction false} AcceptsConcat(a: seq<Message>, due: seq<string>, b: seq<Message>)
    requires Accepts(a, due) && Accepts(b, [])
    ensures Accepts(a + b, due)
  {
    if a == [] {
      assert a + b == b;
    } else {
      assert (a + b)[1..] == a[1..] + b;
      var next := match a[0] case Tool(_, _) => due[1..] case Assistant(_, calls) => CallIds(calls) case _ => due;
      AcceptsConcat(a[1..], next, b);
    }
  }

  lemma {:induction false} RepliesAreAccepted(replies: seq<Message>, calls: seq<Call>)
    requires |replies| == |calls|
    requires forall n | 0 <= n < |calls| :: replies[n].Tool? && replies[n].callId == calls[n].id
    ensures Accepts(replies, CallIds(calls))
  {
    if calls != [] {
      RepliesAreAccepted(replies[1..], calls[1..]);
      assert CallIds(calls)[1..] == CallIds(calls[1..]);
    }
  }

  /** Every assistant message with calls is followed by one matching tool message per call, in order. */
  lemma {:induction false} TranscriptIsMatched(w: World, rounds: nat)
    requires rounds <= |w.turns|
    ensures Accepts(Transcript(w, rounds), [])
  {
    if rounds > 0 {
      TranscriptIsMatched(w, rounds - 1);
      RoundIsMatched(w, rounds - 1);
      AcceptsConcat(Transcript(w, rounds - 1), [], Round(w, rounds - 1));
    } else {
      assert [System, User][1..] == [User] && [User][1..] == [];
    }
  }

  lemma RoundIsMatched(w: World, round: nat)
    requires round < |w.turns|
    ensures Accepts(Round(w, round), [])
  {
    var calls := w.turns[round].calls;
    RepliesAreAccepted(Replies(w, round, calls), calls);
    assert Round(w, round)[1..] == Replies(w, round, calls);
  }

  /** A round asks for tools exactly when it carried a fragment. */
  lemma AsksForToolsIff(r: Response)
    ensures Digest(r).calls == [] <==> Fragments(r.deltas) == []
  {
    var fs := Fragments(r.deltas);
    if fs != [] {
      var i := fs[|fs| - 1].index;
      BoundIsAbove(fs, i);
      SomeCall(fs, i, Bound(fs));
    }
  }

  lemma {:induction false} SomeCall(fs: seq<Fragment>, i: nat, bound: nat)
    requires Of(fs, i) != [] && i < bound
    ensures Used(fs, bound) != []
  {
    if i < bound - 1 {
      SomeCall(fs, i, bound - 1);
    }
  }

  /** Five rounds that all ask for tools send no answer at all, and only they do. */
  lemma {:induction false} ExhaustedIff(w: World, round: nat)
    requires round <= MAX_LOOPS
    ensures EndsAt(w, round).Exhausted? <==> forall r: nat | round <= r < MAX_LOOPS :: CanGoOn(w, r)
    decreases MAX_LOOPS - round
  {
    if round < MAX_LOOPS && CanGoOn(w, round) {
      ExhaustedIff(w, round + 1);
    }
  }
}
