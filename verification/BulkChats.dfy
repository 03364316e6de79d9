/**
 Bulk creation and deletion of conversations in chunks, one transaction a chunk.
 `i in committed` tells whether chunk i finally commits, after all its retries.
 */
module BulkChats {
  import opened RelationType
  import opened Subsequences

  const CHUNK_SIZE := 20
  const MESSAGE_BATCH_SIZE := 500

  /** `ulid` is the id the generator answers if the message brings none. */
  datatype Message = Message(id: string, ulid: string, content: string)
  datatype Thread = Thread(id: string, title: string, skipInsert: bool, messages: seq<Message>)

  datatype ConversationDoc = ConversationDoc(id: string, title: string)
  datatype MessageDoc = MessageDoc(conversation: string, id: string, content: string)

  predicate Blank(s: string) { Trim(s) == "" }

  /** The given title, or the start of the first message, or a fixed one. */
  function Title(t: Thread): string {
    if !Blank(t.title) then t.title
    else if t.messages != [] && !Blank(t.messages[0].content) then
      var content := Trim(t.messages[0].content);
      if |content| > 10 then content[..10] + "..." else content
    else "New Conversation"
  }

  lemma BlankIsAllSpace(s: string)
    ensures Blank(s) <==> forall c <- s :: IsSpace(c)
  {
    var a, b := StripEndsSplits(IsSpace, s);
    assert Trim(s) != "" ==> Trim(s)[0] in s;
    if Blank(s) {
      assert s == a + b;
    }
  }

  /**
   No conversation is stored under a blank title; a given one is kept, and a derived one is
   the trimmed first message, cut to ten characters if it is longer.
   */
  lemma TitleIsShown(t: Thread)
    ensures !Blank(Title(t)) && (!Blank(t.title) ==> Title(t) == t.title)
    ensures Blank(t.title) && t.messages != [] && !Blank(t.messages[0].content) ==>
              var content := Trim(t.messages[0].content);
              if |content| <= 10 then Title(t) == content
              else |Title(t)| == 13 && Title(t)[..10] == content[..10] && Title(t)[10..] == "..."
    ensures Blank(t.title) && (t.messages == [] || Blank(t.messages[0].content)) ==> Title(t) == "New Conversation"
    ensures Blank(t.title) ==> |Title(t)| <= 16
  {
    BlankIsAllSpace(Title(t));
    if Blank(t.title) && t.messages != [] && !Blank(t.messages[0].content) {
      var content := Trim(t.messages[0].content);
      var a, b := StripEndsSplits(IsSpace, t.messages[0].content);
      if |content| > 10 {
        assert Title(t)[10] == '.' && Title(t)[10] in Title(t);
      } else {
        assert Title(t) == content && content[0] in content;
      }
    } else if Blank(t.title) {
      assert Title(t)[0] == 'N' && Title(t)[0] in Title(t);
    }
  }

  function Doc(t: Thread): ConversationDoc { ConversationDoc(t.id, Title(t)) }

  // ---- the specification: which threads survive, one by one ----

  /** Of the first n threads, in order, those whose chunk commits. */
  function Kept(threads: seq<Thread>, committed: set<nat>, n: nat): seq<Thread>
    requires n <= |threads|
  {
    if n == 0 then []
    else Kept(threads, committed, n - 1) + if (n - 1) / CHUNK_SIZE in committed then [threads[n - 1]] else []
  }

  function Docs(ts: seq<Thread>): seq<ConversationDoc> { seq(|ts|, i requires 0 <= i < |ts| => Doc(ts[i])) }

  /** The threads whose conversation is not stored yet. */
  function New(ts: seq<Thread>): seq<Thread> {
    if ts == [] then []
    else New(ts[..|ts| - 1]) + if ts[|ts| - 1].skipInsert then [] else [ts[|ts| - 1]]
  }

  lemma {:induction false} NewAre(ts: seq<Thread>, p: Thread -> bool)
    requires forall t :: p(t) <==> !t.skipInsert
    ensures Picks(ts, New(ts), p)
  {
    if ts == [] {
      PicksNothing(p);
    } else {
      var init, t := ts[..|ts| - 1], ts[|ts| - 1];
      assert ts == init + [t];
      assert New(ts) == if p(t) then New(init) + [t] else New(init);
      NewAre(init, p);
      PicksOneMore(init, New(init), t, p);
    }
  }

  /** The documents stored for a thread: its own id and title, its messages' contents and ids in its conversation. */
  lemma DocumentsOf(t: Thread, k: nat)
    requires k < |t.messages|
    ensures Docs([t]) == [ConversationDoc(t.id, Title(t))]
    ensures var d, m := MessageOf(t, k), t.messages[k];
            && d.conversation == t.id && d.content == m.content
            && (!Blank(m.id) ==> d.id == m.id) && (Blank(m.id) ==> d.id == m.ulid)
  {
  }

  /** A message without an id gets a generated one. */
  function MessageOf(t: Thread, k: nat): MessageDoc
    requires k < |t.messages|
  {
    var m := t.messages[k];
    MessageDoc(t.id, if Blank(m.id) then m.ulid else m.id, m.content)
  }

  /** The non-blank ones of the first k messages. */
  function ThreadMessages(t: Thread, k: nat): seq<MessageDoc>
    requires k <= |t.messages|
  {
    if k == 0 then []
    else ThreadMessages(t, k - 1) + if Blank(t.messages[k - 1].content) then [] else [MessageOf(t, k - 1)]
  }

  function Messages(ts: seq<Thread>): seq<MessageDoc> {
    if ts == [] then []
    else var t := ts[|ts| - 1]; Messages(ts[..|ts| - 1]) + ThreadMessages(t, |t.messages|)
  }

  function Chunks(n: nat): nat { (n + CHUNK_SIZE - 1) / CHUNK_SIZE }

  /** Where chunk i of n items starts; past the last chunk, the end. */
  function ChunkStart(n: nat, i: nat): (start: nat)
    ensures start <= n
  {
    if CHUNK_SIZE * i <= n then CHUNK_SIZE * i else n
  }

  function Slice<T>(xs: seq<T>, i: nat): seq<T> { xs[ChunkStart(|xs|, i)..ChunkStart(|xs|, i + 1)] }

  /** The committed ones of the first i chunks, as the loops see them. */
  function CommittedThreads(threads: seq<Thread>, committed: set<nat>, i: nat): seq<Thread> {
    if i == 0 then []
    else if i - 1 in committed then CommittedThreads(threads, committed, i - 1) + Slice(threads, i - 1)
    else CommittedThreads(threads, committed, i - 1)
  }

  function FailedChunks(committed: set<nat>, i: nat): seq<nat> {
    if i == 0 then []
    else if i - 1 in committed then FailedChunks(committed, i - 1)
    else FailedChunks(committed, i - 1) + [i - 1]
  }

  function CommittedIds(ids: seq<string>, committed: set<nat>, i: nat): set<string> {
    if i == 0 then {}
    else if i - 1 in committed then CommittedIds(ids, committed, i - 1) + SetOf(Slice(ids, i - 1))
    else CommittedIds(ids, committed, i - 1)
  }

  function SetOf(ids: seq<string>): set<string> { set id | id in ids }

  // ---- chunks partition the input ----

  lemma ChunksCover(n: nat)
    ensures ChunkStart(n, Chunks(n)) == n
    ensures forall i: nat | i < Chunks(n) :: ChunkStart(n, i) == CHUNK_SIZE * i < ChunkStart(n, i + 1)
  {
  }

  lemma {:induction false} KeptWithinChunk(threads: seq<Thread>, committed: set<nat>, i: nat, n: nat)
    requires ChunkStart(|threads|, i) <= n <= ChunkStart(|threads|, i + 1)
    ensures Kept(threads, committed, n)
         == Kept(threads, committed, ChunkStart(|threads|, i))
            + if i in committed then threads[ChunkStart(|threads|, i)..n] else []
  {
    var lo := ChunkStart(|threads|, i);
    if n > lo {
      KeptWithinChunk(threads, committed, i, n - 1);
      assert (n - 1) / CHUNK_SIZE == i;
      assert threads[lo..n] == threads[lo..n - 1] + [threads[n - 1]];
    }
  }

  /** The surviving threads are those at the positions of committed chunks, in order. */
  lemma {:induction false} KeptInOrder(threads: seq<Thread>, committed: set<nat>, n: nat) returns (at: seq<nat>)
    requires n <= |threads|
    ensures |at| == |Kept(threads, committed, n)| && Positions(at, n)
    ensures forall i | 0 <= i < |at| :: Kept(threads, committed, n)[i] == threads[at[i]]
    ensures forall k: nat | k < n :: k in at <==> k / CHUNK_SIZE in committed
  {
    at := [];
    if n > 0 {
      at := KeptInOrder(threads, committed, n - 1);
      OneMorePosition(at, n - 1);
      if (n - 1) / CHUNK_SIZE in committed {
        at := at + [n - 1];
      }
    }
  }

  /** Chunk by chunk or thread by thread, the same threads survive, in the same order. */
  lemma {:induction false} CommittedAreKept(threads: seq<Thread>, committed: set<nat>, i: nat)
    ensures CommittedThreads(threads, committed, i) == Kept(threads, committed, ChunkStart(|threads|, i))
  {
    if i > 0 {
      CommittedAreKept(threads, committed, i - 1);
      KeptWithinChunk(threads, committed, i - 1, ChunkStart(|threads|, i));
    }
  }

  lemma {:induction false} NoChunkFailedIff(committed: set<nat>, i: nat)
    ensures FailedChunks(committed, i) == [] <==> forall k: nat | k < i :: k in committed
  {
    if i > 0 {
      NoChunkFailedIff(committed, i - 1);
    }
  }

  lemma {:induction false} NothingKeptIff(threads: seq<Thread>, committed: set<nat>, n: nat)
    requires n <= |threads|
    ensures Kept(threads, committed, n) == [] <==> forall k | 0 <= k < n :: k / CHUNK_SIZE !in committed
  {
    if n > 0 {
      NothingKeptIff(threads, committed, n - 1);
    }
  }

  lemma {:induction false} NewConcat(a: seq<Thread>, b: seq<Thread>)
    ensures New(a + b) == New(a) + New(b)
  {
    if b == [] {
      assert a + b == a;
    } else {
      var init := b[..|b| - 1];
      NewConcat(a, init);
      assert (a + b)[..|a + b| - 1] == a + init;
    }
  }

  lemma DocsConcat(a: seq<Thread>, b: seq<Thread>)
    ensures Docs(a + b) == Docs(a) + Docs(b)
  {
  }

  lemma ConcatAssociates<T>(a: seq<T>, b: seq<T>, c: seq<T>)
    ensures a + b + c == a + (b + c)
  {
  }

  lemma {:induction false} MessagesConcat(a: seq<Thread>, b: seq<Thread>)
    ensures Messages(a + b) == Messages(a) + Messages(b)
  {
    if b == [] {
      assert a + b == a;
    } else {
      var init, t := b[..|b| - 1], b[|b| - 1];
      MessagesConcat(a, init);
      assert (a + b)[..|a + b| - 1] == a + init && (a + b)[|a + b| - 1] == t;
      var last := ThreadMessages(t, |t.messages|);
      ConcatAssociates(Messages(a), Messages(init), last);
    }
  }

  predicate IsNonBlank(t: Thread, n: nat, d: MessageDoc)
    requires n <= |t.messages|
  {
    exists k :: 0 <= k < n && !Blank(t.messages[k].content) && d == MessageOf(t, k)
  }

  /** The document is a non-blank message of one of the threads. */
  predicate FromSome(ts: seq<Thread>, d: MessageDoc) {
    exists i :: 0 <= i < |ts| && IsNonBlank(ts[i], |ts[i].messages|, d)
  }

  lemma FromSomeStep(init: seq<Thread>, t: Thread, d: MessageDoc)
    ensures FromSome(init + [t], d) <==> FromSome(init, d) || IsNonBlank(t, |t.messages|, d)
  {
    var ts := init + [t];
    assert ts[|init|] == t && forall i | 0 <= i < |init| :: ts[i] == init[i];
  }

  /** The stored messages are the non-blank ones of the threads, and no others. */
  lemma {:induction false} MessagesAreTheNonBlank(ts: seq<Thread>, d: MessageDoc)
    ensures d in Messages(ts) <==> FromSome(ts, d)
  {
    if ts != [] {
      var init, t := ts[..|ts| - 1], ts[|ts| - 1];
      var before, own := Messages(init), ThreadMessages(t, |t.messages|);
      MessagesAreTheNonBlank(init, d);
      ThreadMessagesAre(t, |t.messages|, d);
      FromSomeStep(init, t, d);
      assert ts == init + [t] && Messages(ts) == before + own;
      assert d in before + own <==> d in before || d in own;
    }
  }

  /** The stored messages of a thread are its non-blank ones, in order. */
  lemma {:induction false} ThreadMessagesInOrder(t: Thread, n: nat) returns (at: seq<nat>)
    requires n <= |t.messages|
    ensures Positions(at, n) && AreMessagesAt(t, ThreadMessages(t, n), at)
    ensures forall k: nat | k < n :: k in at <==> !Blank(t.messages[k].content)
  {
    at := [];
    if n > 0 {
      at := ThreadMessagesInOrder(t, n - 1);
      OneMorePosition(at, n - 1);
      if Blank(t.messages[n - 1].content) {
        assert ThreadMessages(t, n) == ThreadMessages(t, n - 1);
      } else {
        OneMoreMessageAt(t, ThreadMessages(t, n - 1), at, n - 1);
        at := at + [n - 1];
      }
    }
  }

  lemma OneMoreMessageAt(t: Thread, docs: seq<MessageDoc>, at: seq<nat>, k: nat)
    requires AreMessagesAt(t, docs, at) && k < |t.messages|
    ensures AreMessagesAt(t, docs + [MessageOf(t, k)], at + [k])
  {
  }

  ghost predicate AreMessagesAt(t: Thread, docs: seq<MessageDoc>, at: seq<nat>) {
    |docs| == |at| && forall i | 0 <= i < |at| :: at[i] < |t.messages| && docs[i] == MessageOf(t, at[i])
  }

  lemma {:induction false} ThreadMessagesAre(t: Thread, n: nat, d: MessageDoc)
    requires n <= |t.messages|
    ensures d in ThreadMessages(t, n) <==> IsNonBlank(t, n, d)
  {
    if n > 0 {
      ThreadMessagesAre(t, n - 1, d);
      NonBlankStep(t, n - 1, d);
    }
  }

  lemma NonBlankStep(t: Thread, n: nat, d: MessageDoc)
    requires n < |t.messages|
    ensures IsNonBlank(t, n + 1, d) <==>
            IsNonBlank(t, n, d) || (!Blank(t.messages[n].content) && d == MessageOf(t, n))
  {
  }

  // ---- deletion ----

  function Without(cs: seq<ConversationDoc>, gone: set<string>): seq<ConversationDoc> {
    if cs == [] then []
    else
      var init, c := cs[..|cs| - 1], cs[|cs| - 1];
      if c.id in gone then Without(init, gone) else Without(init, gone) + [c]
  }

  function WithoutMessages(ms: seq<MessageDoc>, gone: set<string>): seq<MessageDoc> {
    if ms == [] then []
    else
      var init, m := ms[..|ms| - 1], ms[|ms| - 1];
      if m.conversation in gone then WithoutMessages(init, gone) else WithoutMessages(init, gone) + [m]
  }

  /** The ids of the committed chunks. */
  function Gone(ids: seq<string>, committed: set<nat>, n: nat): set<string>
    requires n <= |ids|
  {
    set k | 0 <= k < n && k / CHUNK_SIZE in committed :: ids[k]
  }

  lemma {:induction false} WithoutTwice(cs: seq<ConversationDoc>, a: set<string>, b: set<string>)
    ensures Without(Without(cs, a), b) == Without(cs, a + b)
  {
    if cs != [] {
      var c := cs[|cs| - 1];
      WithoutTwice(cs[..|cs| - 1], a, b);
      if c.id !in a {
        var rest := Without(cs[..|cs| - 1], a);
        assert (rest + [c])[..|rest + [c]| - 1] == rest;
      }
    }
  }

  lemma {:induction false} WithoutMessagesTwice(ms: seq<MessageDoc>, a: set<string>, b: set<string>)
    ensures WithoutMessages(WithoutMessages(ms, a), b) == WithoutMessages(ms, a + b)
  {
    if ms != [] {
      var m := ms[|ms| - 1];
      WithoutMessagesTwice(ms[..|ms| - 1], a, b);
      if m.conversation !in a {
        var rest := WithoutMessages(ms[..|ms| - 1], a);
        assert (rest + [m])[..|rest + [m]| - 1] == rest;
      }
    }
  }

  lemma {:induction false} WithoutIs(cs: seq<ConversationDoc>, gone: set<string>)
    ensures forall c :: c in Without(cs, gone) <==> c in cs && c.id !in gone
    ensures |Without(cs, gone)| <= |cs| && ((forall c <- cs :: c.id !in gone) ==> Without(cs, gone) == cs)
    ensures (exists c <- cs :: c.id in gone) ==> |Without(cs, gone)| < |cs|
  {
    if cs != [] {
      var init, c := cs[..|cs| - 1], cs[|cs| - 1];
      WithoutIs(init, gone);
      assert cs == init + [c];
    }
  }

  /** What is left of conversations and messages is what does not belong to a deleted one, in order. */
  lemma {:induction false} WithoutPicks(cs: seq<ConversationDoc>, gone: set<string>, p: ConversationDoc -> bool)
    requires forall c :: p(c) <==> c.id !in gone
    ensures Picks(cs, Without(cs, gone), p)
  {
    if cs == [] {
      PicksNothing(p);
    } else {
      var init, c := cs[..|cs| - 1], cs[|cs| - 1];
      assert cs == init + [c];
      assert Without(cs, gone) == if p(c) then Without(init, gone) + [c] else Without(init, gone);
      WithoutPicks(init, gone, p);
      PicksOneMore(init, Without(init, gone), c, p);
    }
  }

  lemma {:induction false} WithoutMessagesPicks(ms: seq<MessageDoc>, gone: set<string>, p: MessageDoc -> bool)
    requires forall m :: p(m) <==> m.conversation !in gone
    ensures Picks(ms, WithoutMessages(ms, gone), p)
  {
    if ms == [] {
      PicksNothing(p);
    } else {
      var init, m := ms[..|ms| - 1], ms[|ms| - 1];
      assert ms == init + [m];
      var rest := WithoutMessages(init, gone);
      assert WithoutMessages(ms, gone) == if p(m) then rest + [m] else rest;
      WithoutMessagesPicks(init, gone, p);
      PicksOneMore(init, WithoutMessages(init, gone), m, p);
    }
  }

  lemma {:induction false} WithoutMessagesIs(ms: seq<MessageDoc>, gone: set<string>)
    ensures forall m :: m in WithoutMessages(ms, gone) <==> m in ms && m.conversation !in gone
    ensures (forall m <- ms :: m.conversation !in gone) ==> WithoutMessages(ms, gone) == ms
  {
    if ms != [] {
      var init, m := ms[..|ms| - 1], ms[|ms| - 1];
      WithoutMessagesIs(init, gone);
      assert ms == init + [m];
      var rest := WithoutMessages(init, gone);
      assert WithoutMessages(ms, gone) == if m.conversation in gone then rest else rest + [m];
      assert forall d :: d in rest + [m] <==> d in rest || d == m;
    }
  }

  /** Every message belongs to a stored conversation. */
  ghost predicate NoOrphans(cs: seq<ConversationDoc>, ms: seq<MessageDoc>) {
    forall m <- ms :: exists c :: c in cs && c.id == m.conversation
  }

  /** Deleting leaves no message of a deleted conversation, and orphans none. */
  lemma DeletionLeavesNoOrphans(cs: seq<ConversationDoc>, ms: seq<MessageDoc>, gone: set<string>)
    ensures forall m <- WithoutMessages(ms, gone) :: m.conversation !in gone
    ensures NoOrphans(cs, ms) ==> NoOrphans(Without(cs, gone), WithoutMessages(ms, gone))
  {
    WithoutIs(cs, gone);
    WithoutMessagesIs(ms, gone);
    if NoOrphans(cs, ms) {
      forall m | m in WithoutMessages(ms, gone) ensures exists c :: c in Without(cs, gone) && c.id == m.conversation {
        var c :| c in cs && c.id == m.conversation;
        assert c in Without(cs, gone);
      }
    }
  }

  lemma {:induction false} CommittedIdsAreGone(ids: seq<string>, committed: set<nat>, i: nat)
    ensures CommittedIds(ids, committed, i) == Gone(ids, committed, ChunkStart(|ids|, i))
  {
    if i > 0 {
      CommittedIdsAreGone(ids, committed, i - 1);
      GoneGrows(ids, committed, i - 1);
    }
  }

  lemma GoneGrows(ids: seq<string>, committed: set<nat>, i: nat)
    ensures Gone(ids, committed, ChunkStart(|ids|, i + 1))
         == Gone(ids, committed, ChunkStart(|ids|, i)) + if i in committed then SetOf(Slice(ids, i)) else {}
  {
    var lo, hi, slice := ChunkStart(|ids|, i), ChunkStart(|ids|, i + 1), Slice(ids, i);
    forall k | lo <= k < hi ensures k / CHUNK_SIZE == i && ids[k] == slice[k - lo] {
    }
    forall id | id in Gone(ids, committed, hi)
      ensures id in Gone(ids, committed, lo) || (i in committed && id in slice) {
      var k :| 0 <= k < hi && k / CHUNK_SIZE in committed && ids[k] == id;
      assert k >= lo ==> ids[k] in slice;
    }
    if i in committed {
      forall id | id in slice ensures id in Gone(ids, committed, hi) {
        var j :| 0 <= j < hi - lo && slice[j] == id;
        assert ids[lo + j] == id && (lo + j) / CHUNK_SIZE in committed;
      }
    }
  }

  // ---- grouping messages by conversation ----

  function OfConversation(ms: seq<MessageDoc>, id: string): seq<MessageDoc> {
    if ms == [] then []
    else
      var init, m := ms[..|ms| - 1], ms[|ms| - 1];
      if m.conversation == id then OfConversation(init, id) + [m] else OfConversation(init, id)
  }

  /** A group is the messages of its conversation, in the order of the list. */
  lemma {:induction false} GroupKeepsOrder(ms: seq<MessageDoc>, id: string, p: MessageDoc -> bool)
    requires forall m :: p(m) <==> m.conversation == id
    ensures Picks(ms, OfConversation(ms, id), p)
  {
    if ms == [] {
      PicksNothing(p);
    } else {
      var init, m := ms[..|ms| - 1], ms[|ms| - 1];
      assert ms == init + [m];
      assert OfConversation(ms, id) == if p(m) then OfConversation(init, id) + [m] else OfConversation(init, id);
      GroupKeepsOrder(init, id, p);
      PicksOneMore(init, OfConversation(init, id), m, p);
    }
  }

  function AllOf(ms: seq<MessageDoc>, ids: seq<string>): seq<MessageDoc> {
    if ids == [] then [] else AllOf(ms, ids[..|ids| - 1]) + OfConversation(ms, ids[|ids| - 1])
  }

  predicate Distinct(ids: seq<string>) { forall i, j | 0 <= i < j < |ids| :: ids[i] != ids[j] }

  /** Over distinct conversations the groups hold each listed message once, and nothing else. */
  lemma {:induction false} GroupingConserves(ms: seq<MessageDoc>, ids: seq<string>)
    requires Distinct(ids) && forall m <- ms :: m.conversation in ids
    ensures multiset(AllOf(ms, ids)) == multiset(ms)
  {
    if ms == [] {
      AllOfNothing(ids);
    } else {
      var n := |ms| - 1;
      GroupingConserves(ms[..n], ids);
      assert ms == ms[..n] + [ms[n]];
      AllOfOneMore(ms, ids);
    }
  }

  lemma {:induction false} AllOfNothing(ids: seq<string>)
    ensures AllOf([], ids) == []
  {
    if ids != [] {
      AllOfNothing(ids[..|ids| - 1]);
    }
  }

  lemma {:induction false} AllOfOneMore(ms: seq<MessageDoc>, ids: seq<string>)
    requires ms != [] && Distinct(ids)
    ensures var m, init := ms[|ms| - 1], ms[..|ms| - 1];
            multiset(AllOf(ms, ids))
            == multiset(AllOf(init, ids)) + if m.conversation in ids then multiset{m} else multiset{}
  {
    if ids != [] {
      var n, id := |ids| - 1, ids[|ids| - 1];
      AllOfOneMore(ms, ids[..n]);
      assert ids == ids[..n] + [id];
      assert id !in ids[..n];
      GroupOneMore(ms, id);
    }
  }

  lemma GroupOneMore(ms: seq<MessageDoc>, id: string)
    requires ms != []
    ensures var m, init := ms[|ms| - 1], ms[..|ms| - 1];
            multiset(OfConversation(ms, id))
            == multiset(OfConversation(init, id)) + if m.conversation == id then multiset{m} else multiset{}
  {
  }
}
