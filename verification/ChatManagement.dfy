/** The chat management service over one user's stored conversations and messages. */
module ChatManagement {
  import opened Options
  import opened BulkChats
  import opened ChatPaging

  class ChatManagementService {
    var conversations: seq<ConversationDoc>
    var messages: seq<MessageDoc>
    var hasGraph: bool

    constructor ()
      ensures conversations == [] && messages == []
    {
      conversations, messages, hasGraph := [], [], false;
    }

    /** The documents of one thread's messages; blank ones are skipped. */
    method PrepareMessages(thread: Thread) returns (docs: seq<MessageDoc>)
      ensures docs == ThreadMessages(thread, |thread.messages|)
    {
      docs := [];
      for k := 0 to |thread.messages|
        invariant docs == ThreadMessages(thread, k)
      {
        if Blank(thread.messages[k].content) {
          continue;
        }
        docs := docs + [MessageOf(thread, k)];
      }
    }

    /** The documents of one chunk, gathered in memory before anything is written. */
    method PrepareDocs(chunk: seq<Thread>)
      returns (convDocs: seq<ConversationDoc>, allMsgDocs: seq<MessageDoc>, pendingDtos: seq<ConversationDoc>)
      ensures convDocs == Docs(New(chunk)) && allMsgDocs == Messages(chunk) && pendingDtos == Docs(chunk)
    {
      convDocs, allMsgDocs, pendingDtos := [], [], [];
      for i := 0 to |chunk|
        invariant convDocs == Docs(New(chunk[..i]))
        invariant allMsgDocs == Messages(chunk[..i])
        invariant pendingDtos == Docs(chunk[..i])
      {
        OneMoreThread(chunk, i);
        if !chunk[i].skipInsert {
          convDocs := convDocs + [Doc(chunk[i])];
        }
        var docs := PrepareMessages(chunk[i]);
        allMsgDocs := allMsgDocs + docs;
        pendingDtos := pendingDtos + [Doc(chunk[i])];
      }
      assert chunk[..|chunk|] == chunk;
    }

    /** The transaction of one chunk. */
    method InsertChunk(chunk: seq<Thread>) returns (dtos: seq<ConversationDoc>)
      modifies this`conversations, this`messages
      ensures conversations == old(conversations) + Docs(New(chunk))
      ensures messages == old(messages) + Messages(chunk)
      ensures dtos == Docs(chunk)
    {
      var convDocs, allMsgDocs, pendingDtos := PrepareDocs(chunk);
      if |convDocs| > 0 {
        conversations := conversations + convDocs;
      }
      if |allMsgDocs| > 0 {
        CreateMessageDocs(allMsgDocs);
      }
      return pendingDtos;
    }

    /** All messages of a chunk, at most 500 a write. */
    method CreateMessageDocs(docs: seq<MessageDoc>)
      modifies this`messages
      ensures messages == old(messages) + docs
    {
      var i := 0;
      while i < |docs|
        invariant 0 <= i
        invariant messages == old(messages) + docs[..if i <= |docs| then i else |docs|]
      {
        var end := if i + MESSAGE_BATCH_SIZE <= |docs| then i + MESSAGE_BATCH_SIZE else |docs|;
        var batch := docs[i..end];
        assert docs[..i] + batch == docs[..end];
        messages := messages + batch;
        i := i + MESSAGE_BATCH_SIZE;
      }
      assert docs[..|docs|] == docs;
    }

    method InsertChunks(threads: seq<Thread>, committed: set<nat>)
      returns (results: seq<ConversationDoc>, chunkErrors: seq<nat>)
      modifies this`conversations, this`messages
      ensures Stored(old(conversations), old(messages), conversations, messages, results,
                     CommittedThreads(threads, committed, Chunks(|threads|)))
      ensures chunkErrors == FailedChunks(committed, Chunks(|threads|))
    {
      results, chunkErrors := [], [];
      ghost var kept: seq<Thread> := [];
      for chunkIndex := 0 to Chunks(|threads|)
        invariant kept == CommittedThreads(threads, committed, chunkIndex)
        invariant Stored(old(conversations), old(messages), conversations, messages, results, kept)
        invariant chunkErrors == FailedChunks(committed, chunkIndex)
      {
        if chunkIndex in committed {
          var chunk := Slice(threads, chunkIndex);
          StoredStep(old(conversations), old(messages), conversations, messages, results, kept, chunk);
          var chunkDtos := InsertChunk(chunk);
          results := results + chunkDtos;
          kept := kept + chunk;
        } else {
          chunkErrors := chunkErrors + [chunkIndex];
        }
      }
    }

    /**
     The store gains, and the caller is told, exactly the threads whose chunk commits,
     in the order given; the call throws (None) exactly when there are chunks and none commits.
     */
    method BulkCreateConversations(threads: seq<Thread>, committed: set<nat>)
      returns (r: Option<seq<ConversationDoc>>)
      modifies this`conversations, this`messages
      ensures var kept := Kept(threads, committed, |threads|);
              && Stored(old(conversations), old(messages), conversations, messages, Docs(kept), kept)
              && r == if threads != [] && kept == [] then None else Some(Docs(kept))
      ensures r.None? <==> Chunks(|threads|) > 0 && forall i: nat | i < Chunks(|threads|) :: i !in committed
    {
      var results, chunkErrors := InsertChunks(threads, committed);
      ChunksCover(|threads|);
      CommittedAreKept(threads, committed, Chunks(|threads|));
      NothingKeptIff(threads, committed, |threads|);
      AllChunksFail(|threads|, committed);
      NoChunkFailedIff(committed, Chunks(|threads|));
      if |chunkErrors| > 0 && |results| == 0 {
        return None;
      }
      return Some(results);
    }

    /**
     Every committed chunk loses its conversations with all their messages. The graph
     goes last and outside the transactions: if that fails the call throws afterwards.
     */
    method DeleteAllConversations(committed: set<nat>, graphFails: bool) returns (r: Option<nat>)
      requires Distinct(Ids(conversations))
      modifies this
      ensures var gone := Gone(Ids(old(conversations)), committed, |old(conversations)|);
              && conversations == Without(old(conversations), gone)
              && messages == WithoutMessages(old(messages), gone)
      ensures forall i | 0 <= i < |old(conversations)| ::
                old(conversations)[i] in conversations <==> i / CHUNK_SIZE !in committed
      ensures hasGraph == (graphFails && old(hasGraph))
      ensures r.Some? ==> r.value == |old(conversations)| - |conversations|
      ensures r.None? <==> graphFails || (old(conversations) != [] && conversations == old(conversations))
    {
      ghost var all := conversations;
      var allIds := Ids(conversations);
      ChunksCover(|allIds|);
      CommittedIdsAreGone(allIds, committed, Chunks(|allIds|));
      WithoutIs(all, Gone(allIds, committed, |allIds|));
      GoneIs(all, committed);
      if |allIds| == 0 {
        WithoutNothing(conversations, messages);
        r := CleanUpGraph(graphFails, 0);
        return;
      }
      var totalDeleted, chunkErrors := DeleteChunks(allIds, committed);
      r := CleanUpGraph(graphFails, totalDeleted);
      if chunkErrors > 0 && totalDeleted == 0 {
        r := None;
      }
    }

    method DeleteChunks(allIds: seq<string>, committed: set<nat>) returns (totalDeleted: nat, chunkErrors: nat)
      requires allIds == Ids(conversations) && Distinct(allIds) && allIds != []
      modifies this`conversations, this`messages
      ensures var gone := CommittedIds(allIds, committed, Chunks(|allIds|));
              && conversations == Without(old(conversations), gone)
              && messages == WithoutMessages(old(messages), gone)
      ensures totalDeleted == |old(conversations)| - |conversations| && (chunkErrors > 0 || totalDeleted > 0)
    {
      ghost var all := conversations;
      totalDeleted, chunkErrors := 0, 0;
      WithoutNothing(conversations, messages);
      ChunksCover(|allIds|);
      for chunkIndex := 0 to Chunks(|allIds|)
        invariant conversations == Without(all, CommittedIds(allIds, committed, chunkIndex))
        invariant messages == WithoutMessages(old(messages), CommittedIds(allIds, committed, chunkIndex))
        invariant totalDeleted == |all| - |conversations|
        invariant chunkErrors > 0 || totalDeleted > 0 || chunkIndex == 0
      {
        if chunkIndex in committed {
          DeletedStep(all, old(messages), committed, chunkIndex);
          var deleted := DeleteChunk(SetOf(Slice(allIds, chunkIndex)));
          totalDeleted := totalDeleted + deleted;
        } else {
          chunkErrors := chunkErrors + 1;
        }
      }
    }

    /** The transaction of one chunk: the messages first, then the conversations. */
    method DeleteChunk(chunkIds: set<string>) returns (deleted: nat)
      modifies this`conversations, this`messages
      ensures conversations == Without(old(conversations), chunkIds)
      ensures messages == WithoutMessages(old(messages), chunkIds)
      ensures deleted == |old(conversations)| - |conversations|
    {
      messages := WithoutMessages(messages, chunkIds);
      var before := |conversations|;
      WithoutIs(conversations, chunkIds);
      conversations := Without(conversations, chunkIds);
      deleted := before - |conversations|;
    }

    method CleanUpGraph(fails: bool, count: nat) returns (r: Option<nat>)
      modifies this`hasGraph
      ensures hasGraph == (fails && old(hasGraph)) && r == if fails then None else Some(count)
    {
      if fails {
        return None;
      }
      hasGraph := false;
      return Some(count);
    }

    /**
     One page of the stored conversations in the query's order, and one query for the
     messages of that page, grouped in memory: order within a conversation stays.
     */
    method ListConversations(listed: seq<Listed<ConversationDoc>>, limit: nat, cursor: Option<nat>,
                             includeMessages: bool)
      returns (items: seq<(ConversationDoc, seq<MessageDoc>)>, nextCursor: Option<nat>)
      requires limit > 0 && multiset(ItemsOf(listed)) == multiset(conversations)
      ensures nextCursor == NextCursor(Page(listed, limit, cursor), limit)
      ensures |items| == |Page(listed, limit, cursor)|
      ensures forall i | 0 <= i < |items| :: var c := Page(listed, limit, cursor)[i].item;
                c in conversations && items[i] == (c, if includeMessages then OfConversation(messages, c.id) else [])
    {
      var page := Page(listed, limit, cursor);
      var docs := ItemsOf(page);
      nextCursor := NextCursor(page, limit);
      PageIsStored(listed, limit, cursor, conversations);
      if !includeMessages {
        items := seq(|docs|, i requires 0 <= i < |docs| => (docs[i], []));
        return;
      }
      var ids := set c | c in docs :: c.id;
      var groups := GroupByConversation(OfConversations(messages, ids));
      items := [];
      for i := 0 to |docs|
        invariant |items| == i
        invariant forall j | 0 <= j < i :: items[j] == (docs[j], OfConversation(messages, docs[j].id))
      {
        var id := docs[i].id;
        OfConversationAmong(messages, ids, id);
        items := items + [(docs[i], if id in groups then groups[id] else [])];
      }
    }
  }

  method GroupByConversation(ms: seq<MessageDoc>) returns (groups: map<string, seq<MessageDoc>>)
    ensures forall id :: OfConversation(ms, id) == if id in groups then groups[id] else []
  {
    groups := map[];
    for n := 0 to |ms|
      invariant forall id :: OfConversation(ms[..n], id) == if id in groups then groups[id] else []
    {
      var m := ms[n];
      assert ms[..n + 1][..n] == ms[..n];
      var group := if m.conversation in groups then groups[m.conversation] else [];
      groups := groups[m.conversation := group + [m]];
    }
    assert ms[..|ms|] == ms;
  }

  /** The message query: those of the given conversations. */
  function OfConversations(ms: seq<MessageDoc>, ids: set<string>): seq<MessageDoc> {
    if ms == [] then []
    else
      var init, m := ms[..|ms| - 1], ms[|ms| - 1];
      OfConversations(init, ids) + if m.conversation in ids then [m] else []
  }

  lemma {:induction false} OfConversationAmong(ms: seq<MessageDoc>, ids: set<string>, id: string)
    requires id in ids
    ensures OfConversation(OfConversations(ms, ids), id) == OfConversation(ms, id)
  {
    if ms != [] {
      var init, m := ms[..|ms| - 1], ms[|ms| - 1];
      OfConversationAmong(init, ids, id);
      if m.conversation in ids {
        assert (OfConversations(init, ids) + [m])[..|OfConversations(init, ids)|] == OfConversations(init, ids);
      } else {
        assert OfConversations(ms, ids) == OfConversations(init, ids);
      }
    }
  }

  lemma PageIsStored(listed: seq<Listed<ConversationDoc>>, limit: nat, cursor: Option<nat>,
                     stored: seq<ConversationDoc>)
    requires limit > 0 && multiset(ItemsOf(listed)) == multiset(stored)
    ensures forall row <- Page(listed, limit, cursor) :: row.item in stored
  {
    OlderAreBelow(listed, cursor);
    forall row | row in listed ensures row.item in stored {
      var i :| 0 <= i < |listed| && listed[i] == row;
      assert ItemsOf(listed)[i] == row.item;
      assert row.item in multiset(ItemsOf(listed));
    }
  }

  function Ids(cs: seq<ConversationDoc>): seq<string> { seq(|cs|, i requires 0 <= i < |cs| => cs[i].id) }

  /** Every position lies in a chunk, and every chunk has a position. */
  lemma AllChunksFail(n: nat, committed: set<nat>)
    ensures (forall k: nat | k < n :: k / CHUNK_SIZE !in committed) <==>
            (forall i: nat | i < Chunks(n) :: i !in committed)
  {
    forall i: nat | i < Chunks(n) ensures CHUNK_SIZE * i < n && CHUNK_SIZE * i / CHUNK_SIZE == i {
    }
    forall k: nat | k < n ensures k / CHUNK_SIZE < Chunks(n) {
    }
    if forall k: nat | k < n :: k / CHUNK_SIZE !in committed {
      forall i: nat | i < Chunks(n) ensures i !in committed {
        assert (CHUNK_SIZE * i) / CHUNK_SIZE !in committed;
      }
    }
  }

  /** A conversation is gone exactly when its chunk commits, as ids are distinct. */
  lemma GoneIs(cs: seq<ConversationDoc>, committed: set<nat>)
    requires Distinct(Ids(cs))
    ensures forall i | 0 <= i < |cs| :: cs[i].id in Gone(Ids(cs), committed, |cs|) <==> i / CHUNK_SIZE in committed
  {
    forall i | 0 <= i < |cs| ensures cs[i].id in Gone(Ids(cs), committed, |cs|) <==> i / CHUNK_SIZE in committed {
      assert Ids(cs)[i] == cs[i].id;
      if k :| 0 <= k < |cs| && k / CHUNK_SIZE in committed && Ids(cs)[k] == cs[i].id {
        assert k == i;
      }
    }
  }

  lemma WithoutNothing(cs: seq<ConversationDoc>, ms: seq<MessageDoc>)
    ensures Without(cs, {}) == cs && WithoutMessages(ms, {}) == ms
  {
    WithoutIs(cs, {});
    WithoutMessagesIs(ms, {});
  }

  lemma OneMoreThread(chunk: seq<Thread>, i: nat)
    requires i < |chunk|
    ensures Docs(New(chunk[..i + 1])) == Docs(New(chunk[..i])) + (if chunk[i].skipInsert then [] else [Doc(chunk[i])])
    ensures Messages(chunk[..i + 1]) == Messages(chunk[..i]) + ThreadMessages(chunk[i], |chunk[i].messages|)
    ensures Docs(chunk[..i + 1]) == Docs(chunk[..i]) + [Doc(chunk[i])]
  {
    assert chunk[..i + 1] == chunk[..i] + [chunk[i]];
    NewStep(chunk[..i], chunk[i]);
    MessagesStep(chunk[..i], chunk[i]);
    DocsConcat(chunk[..i], [chunk[i]]);
    DocsConcat(New(chunk[..i]), if chunk[i].skipInsert then [] else [chunk[i]]);
  }

  lemma NewStep(ts: seq<Thread>, t: Thread)
    ensures New(ts + [t]) == New(ts) + if t.skipInsert then [] else [t]
  {
    assert (ts + [t])[..|ts|] == ts;
  }

  lemma MessagesStep(ts: seq<Thread>, t: Thread)
    ensures Messages(ts + [t]) == Messages(ts) + ThreadMessages(t, |t.messages|)
  {
    assert (ts + [t])[..|ts|] == ts;
  }

  /** The store gained exactly the documents of these threads, and the caller is told of them. */
  ghost predicate Stored(cs0: seq<ConversationDoc>, ms0: seq<MessageDoc>, cs: seq<ConversationDoc>, ms: seq<MessageDoc>,
                         results: seq<ConversationDoc>, kept: seq<Thread>) {
    cs == cs0 + Docs(New(kept)) && ms == ms0 + Messages(kept) && results == Docs(kept)
  }

  lemma StoredStep(cs0: seq<ConversationDoc>, ms0: seq<MessageDoc>, cs: seq<ConversationDoc>, ms: seq<MessageDoc>,
                   results: seq<ConversationDoc>, kept: seq<Thread>, chunk: seq<Thread>)
    requires Stored(cs0, ms0, cs, ms, results, kept)
    ensures Stored(cs0, ms0, cs + Docs(New(chunk)), ms + Messages(chunk), results + Docs(chunk), kept + chunk)
  {
    NewConcat(kept, chunk);
    DocsConcat(New(kept), New(chunk));
    DocsConcat(kept, chunk);
    MessagesConcat(kept, chunk);
    ConcatAssociates(cs0, Docs(New(kept)), Docs(New(chunk)));
    ConcatAssociates(ms0, Messages(kept), Messages(chunk));
  }

  lemma DeletedStep(all: seq<ConversationDoc>, ms: seq<MessageDoc>, committed: set<nat>, i: nat)
    requires Distinct(Ids(all)) && i < Chunks(|all|)
    ensures var gone, chunkIds := CommittedIds(Ids(all), committed, i), SetOf(Slice(Ids(all), i));
            && Without(Without(all, gone), chunkIds) == Without(all, gone + chunkIds)
            && WithoutMessages(WithoutMessages(ms, gone), chunkIds) == WithoutMessages(ms, gone + chunkIds)
            && |Without(all, gone + chunkIds)| < |Without(all, gone)|
  {
    var gone, chunkIds := CommittedIds(Ids(all), committed, i), SetOf(Slice(Ids(all), i));
    WithoutTwice(all, gone, chunkIds);
    WithoutMessagesTwice(ms, gone, chunkIds);
    FirstOfChunkIsThere(all, committed, i);
  }

  /** A chunk that commits finds its first conversation still stored, so it deletes at least one. */
  lemma FirstOfChunkIsThere(all: seq<ConversationDoc>, committed: set<nat>, i: nat)
    requires Distinct(Ids(all)) && i < Chunks(|all|)
    ensures var rest := Without(all, CommittedIds(Ids(all), committed, i));
            |Without(rest, SetOf(Slice(Ids(all), i)))| < |rest|
  {
    ChunksCover(|all|);
    CommittedIdsAreGone(Ids(all), committed, i);
    var lo, gone := ChunkStart(|all|, i), Gone(Ids(all), committed, ChunkStart(|all|, i));
    WithoutIs(all, gone);
    assert Ids(all)[lo] == all[lo].id && all[lo] in all;
    assert all[lo].id !in gone;
    assert Slice(Ids(all), i)[0] == all[lo].id;
    WithoutIs(Without(all, gone), SetOf(Slice(Ids(all), i)));
  }
}
