/**
 Listing conversations page by page, newest first, with the update time of the last
 one as the cursor of the next page; and what a walk over all pages gets to see.
 */
module ChatPaging {
  import opened Options

  /** `updatedAt` is the time of the last change; conversations created together share it. */
  datatype Listed<T> = Listed(item: T, updatedAt: nat)

  function ItemsOf<T>(rows: seq<Listed<T>>): seq<T> { seq(|rows|, i requires 0 <= i < |rows| => rows[i].item) }

  predicate NewestFirst<T>(rows: seq<Listed<T>>) {
    forall i, j | 0 <= i < j < |rows| :: rows[i].updatedAt >= rows[j].updatedAt
  }

  /** The query: in the given order, the rows older than the cursor. */
  function Older<T>(rows: seq<Listed<T>>, cursor: Option<nat>): (r: seq<Listed<T>>)
    ensures |r| <= |rows|
  {
    if rows == [] then []
    else if cursor.None? || rows[0].updatedAt < cursor.value then [rows[0]] + Older(rows[1..], cursor)
    else Older(rows[1..], cursor)
  }

  function FirstOf<T>(rows: seq<T>, limit: nat): seq<T> { if |rows| <= limit then rows else rows[..limit] }

  function Page<T>(rows: seq<Listed<T>>, limit: nat, cursor: Option<nat>): seq<Listed<T>> {
    FirstOf(Older(rows, cursor), limit)
  }

  /** None after a page that is not full, or whose last row has no time. */
  function NextCursor<T>(page: seq<Listed<T>>, limit: nat): Option<nat>
    requires limit > 0
  {
    if |page| == limit && page[limit - 1].updatedAt != 0 then Some(page[limit - 1].updatedAt) else None
  }

  // ---- a walk over all pages ----

  /** A row of this page or before is not older than the next cursor. */
  lemma CursorMovesOn<T>(rows: seq<Listed<T>>, limit: nat, cursor: Option<nat>)
    requires limit > 0
    ensures var next := NextCursor(Page(rows, limit, cursor), limit);
            next.Some? ==> |Older(rows, next)| < |Older(rows, cursor)|
  {
    var page := Page(rows, limit, cursor);
    if NextCursor(page, limit).Some? {
      OlderIsFewer(rows, cursor, page[limit - 1]);
    }
  }

  lemma {:induction false} OlderIsFewer<T>(rows: seq<Listed<T>>, cursor: Option<nat>, row: Listed<T>)
    requires row in Older(rows, cursor)
    ensures |Older(rows, Some(row.updatedAt))| < |Older(rows, cursor)|
  {
    OlderAreBelow(rows, cursor);
    if rows != [] && row in Older(rows[1..], cursor) {
      OlderIsFewer(rows[1..], cursor, row);
    } else {
      OlderMonotone(rows[1..], Some(row.updatedAt), cursor);
    }
  }

  lemma {:induction false} OlderAreBelow<T>(rows: seq<Listed<T>>, cursor: Option<nat>)
    ensures forall row <- Older(rows, cursor) :: row in rows && (cursor.Some? ==> row.updatedAt < cursor.value)
  {
    if rows != [] {
      OlderAreBelow(rows[1..], cursor);
    }
  }

  lemma {:induction false} OlderMonotone<T>(rows: seq<Listed<T>>, older: Option<nat>, cursor: Option<nat>)
    requires cursor.Some? ==> older.Some? && older.value <= cursor.value
    ensures |Older(rows, older)| <= |Older(rows, cursor)|
  {
    if rows != [] {
      OlderMonotone(rows[1..], older, cursor);
    }
  }

  /** What the pages hold, one after the other, up to the first without a next cursor. */
  function Walked<T>(rows: seq<Listed<T>>, limit: nat, cursor: Option<nat>): seq<Listed<T>>
    requires limit > 0
    decreases |Older(rows, cursor)|
  {
    CursorMovesOn(rows, limit, cursor);
    var page := Page(rows, limit, cursor);
    var next := NextCursor(page, limit);
    page + if next.None? then [] else Walked(rows, limit, next)
  }

  // ---- what a walk sees of a list in order ----

  lemma {:induction false} OlderIsAll<T>(rows: seq<Listed<T>>, cursor: Option<nat>)
    requires forall row <- rows :: cursor.None? || row.updatedAt < cursor.value
    ensures Older(rows, cursor) == rows
  {
    if rows != [] {
      OlderIsAll(rows[1..], cursor);
    }
  }

  lemma {:induction false} OlderIsNothing<T>(rows: seq<Listed<T>>, cursor: nat)
    requires forall row <- rows :: row.updatedAt >= cursor
    ensures Older(rows, Some(cursor)) == []
  {
    if rows != [] {
      OlderIsNothing(rows[1..], cursor);
    }
  }

  lemma {:induction false} OlderConcat<T>(a: seq<Listed<T>>, b: seq<Listed<T>>, cursor: Option<nat>)
    ensures Older(a + b, cursor) == Older(a, cursor) + Older(b, cursor)
  {
    if a == [] {
      assert a + b == b;
    } else {
      assert (a + b)[1..] == a[1..] + b;
      OlderConcat(a[1..], b, cursor);
    }
  }

  lemma {:induction false} OlderOfOlder<T>(rows: seq<Listed<T>>, cursor: Option<nat>, next: nat)
    requires cursor.Some? ==> next <= cursor.value
    ensures Older(Older(rows, cursor), Some(next)) == Older(rows, Some(next))
  {
    if rows != [] {
      OlderOfOlder(rows[1..], cursor, next);
    }
  }

  /** A later page depends only on the rows that are older than its cursor. */
  lemma {:induction false} WalkOnOlder<T>(rows: seq<Listed<T>>, limit: nat, cursor: Option<nat>)
    requires limit > 0
    ensures Walked(Older(rows, cursor), limit, None) == Walked(rows, limit, cursor)
    decreases |Older(rows, cursor)|
  {
    var older := Older(rows, cursor);
    OlderIsAll(older, None);
    var page := Page(rows, limit, cursor);
    var next := NextCursor(page, limit);
    if next.Some? {
      CursorMovesOn(rows, limit, cursor);
      assert page[limit - 1] in older;
      OlderAreBelow(rows, cursor);
      OlderOfOlder(rows, cursor, next.value);
      WalkOnOlder(rows, limit, next);
      WalkOnOlder(older, limit, next);
    }
  }

  /** The first page, then a walk over the rows older than its last. */
  lemma WalkStep<T>(rows: seq<Listed<T>>, limit: nat)
    requires limit > 0
    ensures Walked(rows, limit, None)
         == if |rows| < limit then rows
            else rows[..limit] + if rows[limit - 1].updatedAt == 0 then []
                                 else Walked(Older(rows, Some(rows[limit - 1].updatedAt)), limit, None)
  {
    OlderIsAll(rows, None);
    if |rows| >= limit {
      WalkOnOlder(rows, limit, Some(rows[limit - 1].updatedAt));
    }
  }

  /** On a list in order, the rows older than a cursor are the tail behind all that are as new. */
  lemma {:induction false} OlderIsATail<T>(rows: seq<Listed<T>>, cursor: nat) returns (n: nat)
    requires NewestFirst(rows)
    ensures n <= |rows| && Older(rows, Some(cursor)) == rows[n..]
    ensures (n > 0 ==> rows[n - 1].updatedAt >= cursor) && (n < |rows| ==> rows[n].updatedAt < cursor)
  {
    if rows == [] || rows[0].updatedAt < cursor {
      OlderIsAll(rows, Some(cursor));
      n := 0;
    } else {
      n := OlderIsATail(rows[1..], cursor);
      n := n + 1;
    }
  }

  /** The tail the next walk starts from: behind the page, unless rows as new as its last follow. */
  lemma NextTail<T>(rows: seq<Listed<T>>, limit: nat) returns (n: nat)
    requires NewestFirst(rows) && 0 < limit <= |rows|
    ensures limit <= n <= |rows| && Older(rows, Some(rows[limit - 1].updatedAt)) == rows[n..]
    ensures limit < |rows| ==> (n == limit <==> rows[limit].updatedAt < rows[limit - 1].updatedAt)
    ensures n < |rows| ==> rows[n].updatedAt < rows[limit - 1].updatedAt
  {
    n := OlderIsATail(rows, rows[limit - 1].updatedAt);
  }

  lemma {:induction false} WalkIsNoLonger<T>(rows: seq<Listed<T>>, limit: nat)
    requires limit > 0 && NewestFirst(rows)
    ensures |Walked(rows, limit, None)| <= |rows|
    decreases |rows|
  {
    WalkStep(rows, limit);
    if |rows| >= limit {
      var n := NextTail(rows, limit);
      WalkIsNoLonger(rows[n..], limit);
    }
  }

  /** No two conversations on either side of a page's end have the same time. */
  predicate CleanCuts<T>(rows: seq<Listed<T>>, limit: nat)
    requires limit > 0
  {
    forall i | 0 < i < |rows| && i % limit == 0 :: rows[i].updatedAt < rows[i - 1].updatedAt
  }

  lemma ModShift(i: int, n: int)
    requires n > 0
    ensures (i + n) % n == i % n
  {
    var q, r := i / n, i % n;
    assert i + n == n * (q + 1) + r;
    ModUnique(i + n, n, q + 1, r);
  }

  lemma ModUnique(a: int, n: int, q: int, r: int)
    requires n > 0 && a == n * q + r && 0 <= r < n
    ensures a % n == r
  {
    var d := a / n - q;
    assert n * d == r - a % n;
    assert d > 0 ==> n * d >= n;
    assert d < 0 ==> n * d <= -n;
  }

  lemma CleanCutsShift<T>(rows: seq<Listed<T>>, limit: nat)
    requires 0 < limit < |rows|
    ensures CleanCuts(rows, limit) <==>
            rows[limit].updatedAt < rows[limit - 1].updatedAt && CleanCuts(rows[limit..], limit)
  {
    forall i: nat ensures (i + limit) % limit == i % limit {
      ModShift(i, limit);
    }
    assert limit % limit == 0 by { ModShift(0, limit); }
  }

  lemma WalkSplits<T>(rows: seq<Listed<T>>, limit: nat)
    requires 0 < limit < |rows| && NewestFirst(rows)
    ensures Walked(rows, limit, None) == rows <==>
            rows[limit].updatedAt < rows[limit - 1].updatedAt && Walked(rows[limit..], limit, None) == rows[limit..]
  {
    var n, rest := WalkParts(rows, limit);
    SameHead(rows, limit, n, rest);
  }

  /** The first page and what the rest of the walk sees, which is no more than the next tail. */
  lemma WalkParts<T>(rows: seq<Listed<T>>, limit: nat) returns (n: nat, rest: seq<Listed<T>>)
    requires NewestFirst(rows) && 0 < limit <= |rows|
    ensures limit <= n <= |rows| && Walked(rows, limit, None) == rows[..limit] + rest && |rest| <= |rows| - n
    ensures rest == [] || rest == Walked(rows[n..], limit, None)
    ensures limit < |rows| && rows[limit].updatedAt < rows[limit - 1].updatedAt <==>
              n == limit < |rows| && rest == Walked(rows[limit..], limit, None)
    ensures n < |rows| ==> rows[n].updatedAt < rows[limit - 1].updatedAt
  {
    WalkStep(rows, limit);
    n := NextTail(rows, limit);
    WalkIsNoLonger(rows[n..], limit);
    rest := if rows[limit - 1].updatedAt == 0 then [] else Walked(rows[n..], limit, None);
  }

  lemma SameHead<T>(rows: seq<T>, limit: nat, n: nat, rest: seq<T>)
    requires limit <= n <= |rows| && |rest| <= |rows| - n
    ensures rows[..limit] + rest == rows <==> n == limit && rest == rows[limit..]
  {
    assert rows == rows[..limit] + rows[limit..];
    assert (rows[..limit] + rest)[limit..] == rest;
  }

  /** A walk sees all conversations iff no page ends between two with the same time. */
  lemma {:induction false} WalkSeesAllIff<T>(rows: seq<Listed<T>>, limit: nat)
    requires limit > 0 && NewestFirst(rows)
    ensures Walked(rows, limit, None) == rows <==> CleanCuts(rows, limit)
    decreases |rows|
  {
    if |rows| > limit {
      WalkSplits(rows, limit);
      CleanCutsShift(rows, limit);
      WalkSeesAllIff(rows[limit..], limit);
    } else {
      OnePage(rows, limit);
    }
  }

  lemma OnePage<T>(rows: seq<Listed<T>>, limit: nat)
    requires limit > 0 && NewestFirst(rows) && |rows| <= limit
    ensures Walked(rows, limit, None) == rows && CleanCuts(rows, limit)
  {
    WalkStep(rows, limit);
    if |rows| == limit {
      var n := NextTail(rows, limit);
      WalkIsNoLonger(rows[n..], limit);
      assert rows[..limit] + Walked(rows[n..], limit, None) == rows;
    }
    forall i | 0 < i < |rows| ensures i % limit != 0 {
      ModUnique(i, limit, 0, i);
    }
  }

  /** Nothing is seen twice, and the order is that of the list. */
  lemma {:induction false} WalkKeepsOrder<T>(rows: seq<Listed<T>>, limit: nat)
    requires limit > 0 && NewestFirst(rows)
    ensures multiset(Walked(rows, limit, None)) <= multiset(rows) && NewestFirst(Walked(rows, limit, None))
    decreases |rows|
  {
    if |rows| >= limit {
      var n, rest := WalkParts(rows, limit);
      WalkKeepsOrder(rows[n..], limit);
      PartsKeepOrder(rows, limit, n, rest);
    } else {
      WalkStep(rows, limit);
    }
  }

  lemma PartsKeepOrder<T>(rows: seq<Listed<T>>, limit: nat, n: nat, rest: seq<Listed<T>>)
    requires NewestFirst(rows) && limit <= n <= |rows| && multiset(rest) <= multiset(rows[n..]) && NewestFirst(rest)
    ensures multiset(rows[..limit] + rest) <= multiset(rows) && NewestFirst(rows[..limit] + rest)
  {
    assert rows == rows[..limit] + rows[limit..n] + rows[n..];
    forall j | 0 <= j < |rest| ensures rest[j] in rows[n..] {
      assert rest[j] in multiset(rest);
    }
  }

  /** Conversations behind the first page with the time of its last are never seen. */
  lemma TiedRowsAreSkipped<T>(rows: seq<Listed<T>>, limit: nat, i: nat)
    requires NewestFirst(rows) && 0 < limit <= i < |rows| && rows[i].updatedAt == rows[limit - 1].updatedAt
    ensures |Walked(rows, limit, None)| <= |rows| - (i + 1 - limit)
  {
    var n, rest := WalkParts(rows, limit);
  }

  /** A walk that misses anything is shorter than the list. */
  lemma {:induction false} WalkCutShort<T>(rows: seq<Listed<T>>, limit: nat)
    requires limit > 0 && NewestFirst(rows) && Walked(rows, limit, None) != rows
    ensures |Walked(rows, limit, None)| < |rows|
    decreases |rows|
  {
    if |rows| <= limit {
      OnePage(rows, limit);
    } else {
      var n, rest := WalkParts(rows, limit);
      WalkSplits(rows, limit);
      if n == limit && rest == Walked(rows[limit..], limit, None) && rest != rows[limit..] {
        WalkCutShort(rows[limit..], limit);
      }
    }
  }
}
