/**
 What is uploaded for graph generation: every conversation as a map of messages
 linked to their predecessor and successor, and all of them as one streamed JSON array.
 */
module AiExport {
  import opened Options
  import opened ChatPaging

  const BATCH_SIZE := 50

  /** `time` is the creation time, 0 when absent. */
  datatype Message = Message(id: string, time: int, content: string)

  datatype Entry = Entry(id: string, content: string, parent: Option<string>, children: seq<string>)

  type Mapping = map<string, Entry>

  datatype Conversation = Conversation(id: string, messages: seq<Message>)

  // ---- the stable sort ----

  /** Behind all messages that are not later. */
  function Insert(ms: seq<Message>, m: Message): seq<Message> {
    if ms != [] && ms[|ms| - 1].time > m.time then Insert(ms[..|ms| - 1], m) + [ms[|ms| - 1]]
    else ms + [m]
  }

  function SortByTime(ms: seq<Message>): seq<Message> {
    if ms == [] then [] else Insert(SortByTime(ms[..|ms| - 1]), ms[|ms| - 1])
  }

  predicate InTimeOrder(ms: seq<Message>) { forall i, j | 0 <= i < j < |ms| :: ms[i].time <= ms[j].time }

  function AtTime(ms: seq<Message>, t: int): seq<Message> {
    if ms == [] then []
    else if ms[|ms| - 1].time == t then AtTime(ms[..|ms| - 1], t) + [ms[|ms| - 1]]
    else AtTime(ms[..|ms| - 1], t)
  }

  lemma {:induction false} InsertKeepsMessages(ms: seq<Message>, m: Message)
    ensures multiset(Insert(ms, m)) == multiset(ms) + multiset{m}
    ensures forall x <- Insert(ms, m) :: x in ms || x == m
  {
    if ms != [] && ms[|ms| - 1].time > m.time {
      assert ms == ms[..|ms| - 1] + [ms[|ms| - 1]];
      InsertKeepsMessages(ms[..|ms| - 1], m);
    }
  }

  predicate NoneLater(ms: seq<Message>, t: int) { forall i | 0 <= i < |ms| :: ms[i].time <= t }

  lemma {:induction false} InsertKeepsOrder(ms: seq<Message>, m: Message)
    requires InTimeOrder(ms)
    ensures InTimeOrder(Insert(ms, m))
  {
    if ms != [] && ms[|ms| - 1].time > m.time {
      var init, last := ms[..|ms| - 1], ms[|ms| - 1];
      InsertKeepsOrder(init, m);
      InsertKeepsBound(init, m, last.time);
    }
  }

  lemma {:induction false} InsertKeepsBound(ms: seq<Message>, m: Message, t: int)
    requires NoneLater(ms, t) && m.time <= t
    ensures NoneLater(Insert(ms, m), t)
  {
    if ms != [] && ms[|ms| - 1].time > m.time {
      InsertKeepsBound(ms[..|ms| - 1], m, t);
    }
  }

  lemma {:induction false} InsertIsStable(ms: seq<Message>, m: Message, t: int)
    requires InTimeOrder(ms)
    ensures AtTime(Insert(ms, m), t) == AtTime(ms + [m], t)
  {
    if ms != [] && ms[|ms| - 1].time > m.time {
      var init, last := ms[..|ms| - 1], ms[|ms| - 1];
      InsertIsStable(init, m, t);
      AtTimeStep(init, m, t);
      AtTimeStep(ms, m, t);
      AtTimeStep(Insert(init, m), last, t);
    }
  }

  lemma AtTimeStep(ms: seq<Message>, m: Message, t: int)
    ensures AtTime(ms + [m], t) == if m.time == t then AtTime(ms, t) + [m] else AtTime(ms, t)
  {
    assert (ms + [m])[..|ms|] == ms;
  }

  /** Sorted by time, the same messages, and in the given order where the times agree. */
  lemma {:induction false} SortIsStable(ms: seq<Message>)
    ensures InTimeOrder(SortByTime(ms)) && multiset(SortByTime(ms)) == multiset(ms)
    ensures forall t :: AtTime(SortByTime(ms), t) == AtTime(ms, t)
  {
    if ms != [] {
      var init, last := ms[..|ms| - 1], ms[|ms| - 1];
      SortIsStable(init);
      assert ms == init + [last];
      InsertKeepsOrder(SortByTime(init), last);
      InsertKeepsMessages(SortByTime(init), last);
      forall t ensures AtTime(SortByTime(ms), t) == AtTime(ms, t) {
        InsertIsStable(SortByTime(init), last, t);
        AtTimeStep(SortByTime(init), last, t);
      }
    }
  }

  // ---- the linked map ----

  /** One message: its own entry, and a child of the previous one, if that has a non-empty id. */
  function LinkOne(mapping: Mapping, prev: Option<string>, m: Message): Mapping {
    var mapping' := mapping[m.id := Entry(m.id, m.content, prev, [])];
    if prev.Some? && prev.value != "" && prev.value in mapping' then
      var p := mapping'[prev.value];
      mapping'[prev.value := p.(children := p.children + [m.id])]
    else mapping'
  }

  function Previous(ms: seq<Message>): Option<string> { if ms == [] then None else Some(ms[|ms| - 1].id) }

  function Link(ms: seq<Message>): Mapping {
    if ms == [] then map[]
    else LinkOne(Link(ms[..|ms| - 1]), Previous(ms[..|ms| - 1]), ms[|ms| - 1])
  }

  method BuildMapping(messages: seq<Message>) returns (mapping: Mapping)
    ensures mapping == Link(SortByTime(messages))
  {
    var sorted := SortByTime(messages);
    mapping := map[];
    var prevMsgId: Option<string> := None;
    for i := 0 to |sorted|
      invariant mapping == Link(sorted[..i]) && prevMsgId == Previous(sorted[..i])
    {
      var m := sorted[i];
      assert sorted[..i + 1][..i] == sorted[..i];
      mapping := mapping[m.id := Entry(m.id, m.content, prevMsgId, [])];
      if prevMsgId.Some? && prevMsgId.value != "" && prevMsgId.value in mapping {
        var p := mapping[prevMsgId.value];
        mapping := mapping[prevMsgId.value := p.(children := p.children + [m.id])];
      }
      prevMsgId := Some(m.id);
    }
    assert sorted[..|sorted|] == sorted;
  }

  ghost predicate DistinctIds(ms: seq<Message>) { forall i, j | 0 <= i < j < |ms| :: ms[i].id != ms[j].id }

  /** The entry of message i: its neighbours in the list are its parent and its only child. */
  function EntryAt(ms: seq<Message>, i: nat): Entry
    requires i < |ms|
  {
    Entry(ms[i].id, ms[i].content,
          if i == 0 then None else Some(ms[i - 1].id),
          if i + 1 < |ms| && ms[i].id != "" then [ms[i + 1].id] else [])
  }

  predicate Holds(mapping: Mapping, ms: seq<Message>, i: nat)
    requires i < |ms|
  {
    ms[i].id in mapping && mapping[ms[i].id] == EntryAt(ms, i)
  }

  ghost predicate IsPath(mapping: Mapping, ms: seq<Message>) {
    && (forall i: nat | i < |ms| :: Holds(mapping, ms, i))
    && (forall id <- mapping :: exists i :: 0 <= i < |ms| && ms[i].id == id)
  }

  /** Over distinct ids the map is one doubly linked path along the list. */
  lemma {:induction false} LinkIsPath(ms: seq<Message>)
    requires DistinctIds(ms)
    ensures IsPath(Link(ms), ms)
  {
    if ms != [] {
      LinkIsPath(ms[..|ms| - 1]);
      PathGrows(Link(ms[..|ms| - 1]), ms);
    }
  }

  lemma PathGrows(mapping: Mapping, ms: seq<Message>)
    requires ms != [] && DistinctIds(ms) && IsPath(mapping, ms[..|ms| - 1])
    ensures IsPath(LinkOne(mapping, Previous(ms[..|ms| - 1]), ms[|ms| - 1]), ms)
  {
    var n, init := |ms| - 1, ms[..|ms| - 1];
    var mapping' := LinkOne(mapping, Previous(init), ms[n]);
    forall i: nat | i < n ensures Holds(mapping', ms, i) {
      assert Holds(mapping, init, i);
    }
    assert Holds(mapping', ms, n);
    forall id | id in mapping' ensures exists i :: 0 <= i < |ms| && ms[i].id == id {
      if id in mapping {
        var i :| 0 <= i < |init| && init[i].id == id;
        assert ms[i].id == id;
      } else {
        assert ms[n].id == id;
      }
    }
  }

  /** The ids met by following the first child, at most `fuel` of them. */
  function Walk(mapping: Mapping, id: string, fuel: nat): seq<string>
    decreases fuel
  {
    if fuel == 0 || id !in mapping then []
    else [id] + if mapping[id].children == [] then [] else Walk(mapping, mapping[id].children[0], fuel - 1)
  }

  function Ids(ms: seq<Message>): seq<string> { seq(|ms|, i requires 0 <= i < |ms| => ms[i].id) }

  lemma {:induction false} WalkFrom(mapping: Mapping, ms: seq<Message>, i: nat, fuel: nat)
    requires IsPath(mapping, ms) && i < |ms| <= i + fuel && forall k | i <= k < |ms| - 1 :: ms[k].id != ""
    ensures Walk(mapping, ms[i].id, fuel) == Ids(ms)[i..]
    decreases fuel
  {
    assert Holds(mapping, ms, i);
    IdsFrom(ms, i);
    if i + 1 < |ms| {
      WalkFrom(mapping, ms, i + 1, fuel - 1);
    }
  }

  lemma IdsFrom(ms: seq<Message>, i: nat)
    requires i < |ms|
    ensures Ids(ms)[i..] == [ms[i].id] + Ids(ms)[i + 1..]
    ensures i + 1 == |ms| ==> Ids(ms)[i..] == [ms[i].id]
  {
  }

  /** A message with an empty id that is not the last one cuts the walk. */
  lemma {:induction false} WalkStopsShort(mapping: Mapping, ms: seq<Message>, i: nat, k: nat, fuel: nat)
    requires IsPath(mapping, ms) && i <= k < |ms| - 1 && ms[k].id == ""
    ensures |Walk(mapping, ms[i].id, fuel)| <= k - i + 1
    decreases fuel
  {
    assert Holds(mapping, ms, i);
    if fuel > 0 && i < k && ms[i].id != "" {
      WalkStopsShort(mapping, ms, i + 1, k, fuel - 1);
    }
  }

  lemma RootIsFirst(mapping: Mapping, ms: seq<Message>)
    requires ms != [] && IsPath(mapping, ms) && DistinctIds(ms)
    ensures forall id <- mapping :: mapping[id].parent.None? <==> id == ms[0].id
  {
    forall id | id in mapping ensures mapping[id].parent.None? <==> id == ms[0].id {
      var i :| 0 <= i < |ms| && ms[i].id == id;
      assert Holds(mapping, ms, i) && Holds(mapping, ms, 0);
    }
  }

  /**
   Distinct ids: the root is the one entry without a parent, and walking from it gives
   back all messages in time order exactly when only the last one may have an empty id.
   */
  lemma MappingRoundTrips(messages: seq<Message>)
    requires messages != [] && DistinctIds(SortByTime(messages))
    ensures var ms, mapping := SortByTime(messages), Link(SortByTime(messages));
            && ms != []
            && (forall id <- mapping :: mapping[id].parent.None? <==> id == ms[0].id)
            && (Walk(mapping, ms[0].id, |messages|) == Ids(ms) <==> forall i | 0 <= i < |ms| - 1 :: ms[i].id != "")
  {
    var ms, mapping := SortByTime(messages), Link(SortByTime(messages));
    SortIsStable(messages);
    assert |multiset(ms)| == |ms| && |multiset(messages)| == |messages|;
    LinkIsPath(ms);
    RootIsFirst(mapping, ms);
    if k :| 0 <= k < |ms| - 1 && ms[k].id == "" {
      WalkStopsShort(mapping, ms, 0, k, |messages|);
    } else {
      WalkFrom(mapping, ms, 0, |messages|);
      assert Ids(ms)[0..] == Ids(ms);
    }
  }

  /** Nothing but the id goes with the walk: the contents are read off the entries. */
  lemma ContentsSurvive(messages: seq<Message>, m: Message)
    requires DistinctIds(SortByTime(messages)) && m in messages
    ensures m.id in Link(SortByTime(messages)) && Link(SortByTime(messages))[m.id].content == m.content
  {
    var ms := SortByTime(messages);
    SortIsStable(messages);
    LinkIsPath(ms);
    assert m in multiset(ms);
    var i :| 0 <= i < |ms| && ms[i] == m;
    assert Holds(Link(ms), ms, i);
  }

  // ---- the stream ----

  function Concat(parts: seq<string>): string {
    if parts == [] then "" else Concat(parts[..|parts| - 1]) + parts[|parts| - 1]
  }

  function Commas(items: seq<string>): string {
    if items == [] then ""
    else if |items| == 1 then items[0]
    else Commas(items[..|items| - 1]) + "," + items[|items| - 1]
  }

  function ItemOf(c: Conversation, stringify: (string, Mapping) -> string): string {
    stringify(c.id, Link(SortByTime(c.messages)))
  }

  function Items(cs: seq<Conversation>, stringify: (string, Mapping) -> string): seq<string> {
    seq(|cs|, i requires 0 <= i < |cs| => ItemOf(cs[i], stringify))
  }

  lemma ConcatStep(parts: seq<string>, part: string)
    ensures Concat(parts + [part]) == Concat(parts) + part
  {
    assert (parts + [part])[..|parts|] == parts;
  }

  lemma CommasStep(items: seq<string>, item: string)
    ensures Commas(items + [item]) == if items == [] then item else Commas(items) + "," + item
  {
    assert (items + [item])[..|items|] == items;
  }

  /**
   The parts yielded are one JSON array of what a walk over the pages sees: each page is
   asked for with the cursor the one before it gave, until one gives none.
   */
  method StreamUserData(stored: seq<Listed<Conversation>>, stringify: (string, Mapping) -> string)
    returns (parts: seq<string>, ghost items: seq<string>)
    ensures var sent := Walked(stored, BATCH_SIZE, None);
            && IsArray(parts, items) && |items| == |sent|
            && forall i | 0 <= i < |sent| :: IsItemOf(items[i], sent[i].item, stringify)
    ensures Concat(parts) == "[" + Commas(Items(ItemsOf(Walked(stored, BATCH_SIZE, None)), stringify)) + "]"
  {
    parts := ["["];
    var isFirst := true;
    var cursor := None;
    ghost var sent: seq<Listed<Conversation>>, all := [], Walked(stored, BATCH_SIZE, None);
    assert Concat(["["]) == "[" + "";
    assert sent + all == all;
    while true
      invariant Streamed(parts, Items(ItemsOf(sent), stringify), isFirst)
      invariant StillToSend(stored, cursor, sent, all)
      decreases |Older(stored, cursor)|
    {
      var page := Page(stored, BATCH_SIZE, cursor);
      ItemsAppend(sent, page, stringify);
      parts, isFirst := StreamPage(ItemsOf(page), stringify, parts, isFirst, Items(ItemsOf(sent), stringify));
      SentPage(stored, cursor, sent, all);
      sent := sent + page;
      var nextCursor := NextCursor(page, BATCH_SIZE);
      if nextCursor.None? {
        break;
      }
      CursorMovesOn(stored, BATCH_SIZE, cursor);
      cursor := nextCursor;
    }
    ConcatStep(parts, "]");
    items := Items(ItemsOf(all), stringify);
    CloseArray(parts, items);
    ItemsAre(all, stringify);
    parts := parts + ["]"];
  }

  /** An opening bracket, the items with commas in between, and a closing bracket, each a part of its own. */
  ghost predicate IsArray(parts: seq<string>, items: seq<string>) {
    && |parts| > 1 && parts[|parts| - 1] == "]" && IsOpenArray(parts[..|parts| - 1], items)
  }

  ghost predicate IsOpenArray(parts: seq<string>, items: seq<string>) {
    && |parts| == (if items == [] then 1 else 2 * |items|) && parts[0] == "["
    && (forall i | 0 <= i < |items| :: parts[2 * i + 1] == items[i])
    && (forall i | 0 < i < |items| :: parts[2 * i] == ",")
  }

  /** The encoding of a conversation: its id, and the path along its messages in time order, if their ids differ. */
  ghost predicate IsItemOf(item: string, c: Conversation, stringify: (string, Mapping) -> string) {
    exists m: Mapping, ms: seq<Message> :: item == stringify(c.id, m) && Encodes(m, ms, c.messages)
  }

  ghost predicate Encodes(m: Mapping, ms: seq<Message>, messages: seq<Message>) {
    multiset(ms) == multiset(messages) && InTimeOrder(ms) && (DistinctIds(ms) ==> IsPath(m, ms))
  }

  lemma ItemsAre(rows: seq<Listed<Conversation>>, stringify: (string, Mapping) -> string)
    ensures forall i | 0 <= i < |rows| :: IsItemOf(Items(ItemsOf(rows), stringify)[i], rows[i].item, stringify)
  {
    forall i | 0 <= i < |rows| ensures IsItemOf(Items(ItemsOf(rows), stringify)[i], rows[i].item, stringify) {
      ItemIs(rows[i].item, stringify);
    }
  }

  lemma ItemIs(c: Conversation, stringify: (string, Mapping) -> string)
    ensures IsItemOf(ItemOf(c, stringify), c, stringify)
  {
    LinkEncodes(c.messages);
    var m, ms := Link(SortByTime(c.messages)), SortByTime(c.messages);
    assert ItemOf(c, stringify) == stringify(c.id, m) && Encodes(m, ms, c.messages);
  }

  lemma LinkEncodes(messages: seq<Message>)
    ensures Encodes(Link(SortByTime(messages)), SortByTime(messages), messages)
  {
    SortIsStable(messages);
    if DistinctIds(SortByTime(messages)) {
      LinkIsPath(SortByTime(messages));
    }
  }

  lemma CloseArray(parts: seq<string>, items: seq<string>)
    requires IsOpenArray(parts, items)
    ensures IsArray(parts + ["]"], items)
  {
    assert (parts + ["]"])[..|parts|] == parts;
  }

  lemma OpenArrayStep(parts: seq<string>, items: seq<string>, item: string)
    requires IsOpenArray(parts, items)
    ensures IsOpenArray((if items == [] then parts else parts + [","]) + [item], items + [item])
  {
  }

  /** The rest of the walk is what is missing. */
  ghost predicate StillToSend(stored: seq<Listed<Conversation>>, cursor: Option<nat>,
                              sent: seq<Listed<Conversation>>, all: seq<Listed<Conversation>>) {
    sent + Walked(stored, BATCH_SIZE, cursor) == all
  }

  lemma SentPage(stored: seq<Listed<Conversation>>, cursor: Option<nat>,
                 sent: seq<Listed<Conversation>>, all: seq<Listed<Conversation>>)
    requires StillToSend(stored, cursor, sent, all)
    ensures var page := Page(stored, BATCH_SIZE, cursor);
            var next := NextCursor(page, BATCH_SIZE);
            if next.None? then sent + page == all else StillToSend(stored, next, sent + page, all)
  {
  }

  lemma ItemsAppend(a: seq<Listed<Conversation>>, b: seq<Listed<Conversation>>, stringify: (string, Mapping) -> string)
    ensures Items(ItemsOf(a + b), stringify) == Items(ItemsOf(a), stringify) + Items(ItemsOf(b), stringify)
  {
  }

  /** Every stored conversation is exported, once, iff no page ends between two with the same update time. */
  lemma ExportIsCompleteIff(stored: seq<Listed<Conversation>>)
    requires NewestFirst(stored)
    ensures multiset(Walked(stored, BATCH_SIZE, None)) == multiset(stored) <==> CleanCuts(stored, BATCH_SIZE)
  {
    var walked := Walked(stored, BATCH_SIZE, None);
    WalkSeesAllIff(stored, BATCH_SIZE);
    assert |multiset(walked)| == |walked| && |multiset(stored)| == |stored|;
    if walked != stored {
      WalkCutShort(stored, BATCH_SIZE);
    }
  }

  /**
   Sixty conversations imported at once, in three chunks with one update time each: the
   first page ends inside the last chunk, and the rest of that chunk is not exported.
   */
  lemma ImportIsCutShort(stored: seq<Listed<Conversation>>, times: nat -> nat)
    requires |stored| == 60 && times(0) > times(1) > times(2)
    requires forall i | 0 <= i < 60 :: stored[i].updatedAt == times(i / 20)
    ensures |Walked(stored, BATCH_SIZE, None)| <= 50
  {
    assert NewestFirst(stored);
    TiedRowsAreSkipped(stored, BATCH_SIZE, 59);
  }

  method StreamPage(page: seq<Conversation>, stringify: (string, Mapping) -> string, before: seq<string>, first: bool,
                    ghost sent: seq<string>) returns (parts: seq<string>, isFirst: bool)
    requires Streamed(before, sent, first)
    ensures Streamed(parts, sent + Items(page, stringify), isFirst)
  {
    parts, isFirst := before, first;
    ghost var items := Items(page, stringify);
    Prefixes(sent, items);
    for i := 0 to |page|
      invariant Streamed(parts, sent + items[..i], isFirst)
    {
      var item := StreamItem(page[i], stringify);
      assert item == items[i];
      parts, isFirst := Emit(parts, isFirst, item, sent + items[..i]);
    }
  }

  method Emit(before: seq<string>, first: bool, item: string, ghost sent: seq<string>)
    returns (parts: seq<string>, isFirst: bool)
    requires Streamed(before, sent, first)
    ensures Streamed(parts, sent + [item], isFirst)
  {
    parts, isFirst := before, first;
    StreamedStep(parts, sent, isFirst, item);
    if !isFirst {
      parts := parts + [","];
    }
    parts := parts + [item];
    isFirst := false;
  }

  method StreamItem(c: Conversation, stringify: (string, Mapping) -> string) returns (item: string)
    ensures item == ItemOf(c, stringify)
  {
    var mapping := BuildMapping(c.messages);
    item := stringify(c.id, mapping);
  }

  lemma Prefixes(sent: seq<string>, items: seq<string>)
    ensures sent + items[..0] == sent && sent + items[..|items|] == sent + items
    ensures forall i | 0 <= i < |items| :: sent + items[..i] + [items[i]] == sent + items[..i + 1]
  {
  }

  /** So far the parts are an array of these items, not closed yet. */
  ghost predicate Streamed(parts: seq<string>, items: seq<string>, isFirst: bool) {
    Concat(parts) == "[" + Commas(items) && IsOpenArray(parts, items) && (isFirst <==> items == [])
  }

  lemma StreamedStep(parts: seq<string>, items: seq<string>, isFirst: bool, item: string)
    requires Streamed(parts, items, isFirst)
    ensures Streamed((if isFirst then parts else parts + [","]) + [item], items + [item], false)
  {
    CommasStep(items, item);
    OpenArrayStep(parts, items, item);
    if isFirst {
      ConcatStep(parts, item);
      assert "[" + "" + item == "[" + item;
    } else {
      ConcatStep(parts, ",");
      ConcatStep(parts + [","], item);
      assert "[" + Commas(items) + "," + item == "[" + (Commas(items) + "," + item);
    }
  }
}
