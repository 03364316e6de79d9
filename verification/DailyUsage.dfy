/**
 The daily chat limit: checked before a chat, counted after it, with other requests
 in between. Every step reads the clock, the row or writes the row on its own.
 */
module DailyUsage {
  import opened Options
  import opened Sets

  /** The one row of a user. */
  datatype Usage = Usage(resetDay: nat, count: nat)

  /** The count of the given day; a row of another day counts as 0. */
  function EffectiveCount(row: Option<Usage>, today: nat): nat {
    if row.Some? && row.value.resetDay == today then row.value.count else 0
  }

  /** What the port promises an upsert does, in one step. */
  function Upserted(row: Option<Usage>, today: nat): Usage { Usage(today, EffectiveCount(row, today) + 1) }

  class DailyUsageService {
    const limit: nat
    var row: Option<Usage>

    constructor (limit: nat)
      ensures this.limit == limit && row == None
    {
      this.limit, row := limit, None;
    }

    /** False when the request is refused; nothing is written. */
    method CheckLimit(today: nat) returns (ok: bool)
      ensures ok <==> EffectiveCount(row, today) < limit
      ensures ok <==> (if row.Some? && row.value.resetDay == today then row.value.count else 0) < limit
    {
      var effectiveCount := EffectiveCount(row, today);
      ok := !(effectiveCount >= limit);
    }

    method IncrementUsage(today: nat)
      modifies this
      ensures row == Some(Upserted(old(row), today))
      ensures row == Some(if old(row).Some? && old(row).value.resetDay == today
                          then Usage(today, old(row).value.count + 1) else Usage(today, 1))
    {
      if row.None? {
        row := Some(Usage(today, 1));
      } else if row.value.resetDay == today {
        row := Some(row.value.(count := row.value.count + 1));
      } else {
        row := Some(Usage(today, 1));
      }
    }

    method GetRemainingCount(today: nat) returns (remaining: nat)
      ensures var used := if row.Some? && row.value.resetDay == today then row.value.count else 0;
              remaining + used == limit || (remaining == 0 && used > limit)
    {
      var used := EffectiveCount(row, today);
      remaining := if limit > used then limit - used else 0;
    }
  }

  // ---- interleaved requests ----

  type RequestId = nat

  /** `Reading` is an upsert split in two, which has seen the day of the row and not written yet. */
  datatype Phase = Checking(date: nat) | Passed | Dated(date: nat) | Reading(date: nat, seen: Option<nat>)

  datatype State = State(day: nat, row: Option<Usage>, requests: map<RequestId, Phase>)

  const INITIAL := State(0, None, map[])

  datatype Event =
    | Midnight
    | Start(id: RequestId)         // checkLimit reads the clock
    | Check(id: RequestId)         // ... and the row
    | Fail(id: RequestId)          // the chat fails and is not counted
    | TakeDate(id: RequestId)      // incrementUsage reads the clock
    | Upsert(id: RequestId)        // ... and writes the row in one step
    | ReadExisting(id: RequestId)  // or reads the row first
    | Write(id: RequestId)         // and then writes it

  /** Events that do not fit the phase of their request change nothing. */
  function Next(limit: nat, max: nat, s: State, e: Event): State {
    match e
    case Midnight => s.(day := s.day + 1)
    case Start(id) =>
      if id in s.requests || |s.requests| >= max then s else s.(requests := s.requests[id := Checking(s.day)])
    case Check(id) =>
      if id in s.requests && s.requests[id].Checking? then
        if EffectiveCount(s.row, s.requests[id].date) >= limit then s.(requests := s.requests - {id})
        else s.(requests := s.requests[id := Passed])
      else s
    case Fail(id) => if id in s.requests && s.requests[id].Passed? then s.(requests := s.requests - {id}) else s
    case TakeDate(id) =>
      if id in s.requests && s.requests[id].Passed? then s.(requests := s.requests[id := Dated(s.day)]) else s
    case Upsert(id) =>
      if id in s.requests && s.requests[id].Dated? then
        s.(row := Some(Upserted(s.row, s.requests[id].date)), requests := s.requests - {id})
      else s
    case ReadExisting(id) =>
      if id in s.requests && s.requests[id].Dated? then
        var seen := if s.row.Some? then Some(s.row.value.resetDay) else None;
        s.(requests := s.requests[id := Reading(s.requests[id].date, seen)])
      else s
    case Write(id) =>
      if id in s.requests && s.requests[id].Reading? then
        s.(row := Written(s.row, s.requests[id].date, s.requests[id].seen), requests := s.requests - {id})
      else s
  }

  /** The increment is atomic, the choice to increment was made earlier; a second insert fails. */
  function Written(row: Option<Usage>, date: nat, seen: Option<nat>): Option<Usage> {
    if seen.None? then (if row.None? then Some(Usage(date, 1)) else row)
    else if seen.value == date then Some(Usage(date, if row.Some? then row.value.count + 1 else 1))
    else Some(Usage(date, 1))
  }

  function Run(limit: nat, max: nat, es: seq<Event>): State {
    if es == [] then INITIAL else Next(limit, max, Run(limit, max, es[..|es| - 1]), es[|es| - 1])
  }

  /** Requests that may still count today: all but those whose check has today's date and is not done. */
  function MayCount(s: State): set<RequestId> {
    set id | id in s.requests && s.requests[id] != Checking(s.day)
  }

  ghost predicate Bounded(limit: nat, max: nat, s: State) {
    && |s.requests| <= max
    && (s.row.Some? ==> s.row.value.resetDay <= s.day)
    && (forall id <- s.requests :: !s.requests[id].Passed? ==> s.requests[id].date <= s.day)
    && EffectiveCount(s.row, s.day) + |MayCount(s)| <= limit - 1 + max
  }

  /** Split upserts in the state are of today, and what they saw was not of a later day than the row is. */
  ghost predicate UpsertsAreFresh(s: State) {
    forall id <- s.requests :: (s.requests[id].Dated? || s.requests[id].Reading? ==> s.requests[id].date == s.day)
      && (s.requests[id].Reading? && s.requests[id].seen.Some? ==>
            s.row.Some? && s.requests[id].seen.value <= s.row.value.resetDay)
  }

  lemma MayCountAtMostRequests(s: State)
    ensures |MayCount(s)| <= |s.requests|
  {
    SubsetSize(MayCount(s), s.requests.Keys);
  }

  /** Finishing a request that may count makes room for the one it counts. */
  lemma FinishingKeepsBound(limit: nat, max: nat, s: State, id: RequestId, row: Option<Usage>)
    requires Bounded(limit, max, s) && id in MayCount(s)
    requires row.Some? ==> row.value.resetDay <= s.day
    requires EffectiveCount(row, s.day) <= EffectiveCount(s.row, s.day) + 1
    ensures Bounded(limit, max, s.(row := row, requests := s.requests - {id}))
  {
    var s' := s.(row := row, requests := s.requests - {id});
    assert MayCount(s') == MayCount(s) - {id};
    assert s'.requests.Keys == s.requests.Keys - {id};
  }

  lemma MovingOnKeepsBound(limit: nat, max: nat, s: State, id: RequestId, phase: Phase)
    requires Bounded(limit, max, s) && id in MayCount(s) && !phase.Checking? && (!phase.Passed? ==> phase.date <= s.day)
    ensures Bounded(limit, max, s.(requests := s.requests[id := phase]))
  {
    var s' := s.(requests := s.requests[id := phase]);
    assert MayCount(s') == MayCount(s);
    assert s'.requests.Keys == s.requests.Keys;
  }

  lemma MidnightKeepsBound(limit: nat, max: nat, s: State)
    requires limit >= 1 && Bounded(limit, max, s)
    ensures Bounded(limit, max, s.(day := s.day + 1))
  {
    MayCountAtMostRequests(s.(day := s.day + 1));
  }

  lemma CheckKeepsBound(limit: nat, max: nat, s: State, id: RequestId)
    requires Bounded(limit, max, s)
    ensures Bounded(limit, max, Next(limit, max, s, Check(id)))
  {
    if id in s.requests && s.requests[id].Checking? {
      var s' := Next(limit, max, s, Check(id));
      if id in MayCount(s) {
        if s' == s.(requests := s.requests - {id}) {
          FinishingKeepsBound(limit, max, s, id, s.row);
        } else {
          MovingOnKeepsBound(limit, max, s, id, Passed);
        }
      } else if id in s'.requests {
        assert s'.requests.Keys == s.requests.Keys;
        MayCountAtMostRequests(s');
      } else {
        assert MayCount(s') == MayCount(s) && s'.requests.Keys == s.requests.Keys - {id};
      }
    }
  }

  lemma StartKeepsBound(limit: nat, max: nat, s: State, id: RequestId)
    requires Bounded(limit, max, s)
    ensures Bounded(limit, max, Next(limit, max, s, Start(id)))
  {
    var s' := Next(limit, max, s, Start(id));
    assert MayCount(s') == MayCount(s);
    assert s' != s ==> s'.requests.Keys == s.requests.Keys + {id};
  }

  /** With upserts in one step the bound is kept by every event, however stale the dates. */
  lemma AtomicKeepsBound(limit: nat, max: nat, s: State, e: Event)
    requires limit >= 1 && Bounded(limit, max, s) && !e.Write?
    ensures Bounded(limit, max, Next(limit, max, s, e))
  {
    match e
    case Midnight => MidnightKeepsBound(limit, max, s);
    case Start(id) => StartKeepsBound(limit, max, s, id);
    case Check(id) => CheckKeepsBound(limit, max, s, id);
    case Fail(id) => PassedKeepsBound(limit, max, s, id);
    case TakeDate(id) => PassedKeepsBound(limit, max, s, id);
    case Upsert(id) => DatedKeepsBound(limit, max, s, id);
    case ReadExisting(id) => DatedKeepsBound(limit, max, s, id);
  }

  lemma PassedKeepsBound(limit: nat, max: nat, s: State, id: RequestId)
    requires Bounded(limit, max, s)
    ensures Bounded(limit, max, Next(limit, max, s, Fail(id))) && Bounded(limit, max, Next(limit, max, s, TakeDate(id)))
  {
    if id in s.requests && s.requests[id].Passed? {
      FinishingKeepsBound(limit, max, s, id, s.row);
      MovingOnKeepsBound(limit, max, s, id, Dated(s.day));
    }
  }

  lemma DatedKeepsBound(limit: nat, max: nat, s: State, id: RequestId)
    requires Bounded(limit, max, s)
    ensures Bounded(limit, max, Next(limit, max, s, Upsert(id)))
    ensures Bounded(limit, max, Next(limit, max, s, ReadExisting(id)))
  {
    if id in s.requests && s.requests[id].Dated? {
      FinishingKeepsBound(limit, max, s, id, Some(Upserted(s.row, s.requests[id].date)));
      MovingOnKeepsBound(limit, max, s, id, Next(limit, max, s, ReadExisting(id)).requests[id]);
    }
  }

  predicate NoSplitUpserts(es: seq<Event>) { forall n | 0 <= n < |es| :: !es[n].Write? }

  /** The day's count overshoots the limit by less than the number of requests in flight at once. */
  lemma {:induction false} OvershootIsBounded(limit: nat, max: nat, es: seq<Event>)
    requires limit >= 1 && NoSplitUpserts(es)
    ensures Bounded(limit, max, Run(limit, max, es))
  {
    if es == [] {
      assert MayCount(INITIAL) == {};
    } else {
      OvershootIsBounded(limit, max, es[..|es| - 1]);
      AtomicKeepsBound(limit, max, Run(limit, max, es[..|es| - 1]), es[|es| - 1]);
    }
  }

  // ---- upserts in two steps ----

  /** No upsert that has read the clock is still to write when the day changes. */
  ghost predicate NoUpsertSpansMidnight(limit: nat, max: nat, es: seq<Event>) {
    forall n | 0 <= n < |es| && es[n].Midnight? ::
      var rs := Run(limit, max, es[..n]).requests; forall id <- rs :: rs[id].Checking? || rs[id].Passed?
  }

  lemma FreshStep(limit: nat, max: nat, s: State, e: Event)
    requires limit >= 1 && Bounded(limit, max, s) && UpsertsAreFresh(s)
    requires e.Midnight? ==> forall id <- s.requests :: s.requests[id].Checking? || s.requests[id].Passed?
    ensures Bounded(limit, max, Next(limit, max, s, e)) && UpsertsAreFresh(Next(limit, max, s, e))
  {
    if e.Write? {
      var id := e.id;
      if id in s.requests && s.requests[id].Reading? {
        FinishingKeepsBound(limit, max, s, id, Written(s.row, s.requests[id].date, s.requests[id].seen));
      }
    } else {
      AtomicKeepsBound(limit, max, s, e);
    }
  }

  /** Read-then-write upserts keep the bound as long as none of them spans midnight. */
  lemma {:induction false} OvershootIsBoundedWithinDays(limit: nat, max: nat, es: seq<Event>)
    requires limit >= 1 && NoUpsertSpansMidnight(limit, max, es)
    ensures Bounded(limit, max, Run(limit, max, es)) && UpsertsAreFresh(Run(limit, max, es))
  {
    if es == [] {
      assert MayCount(INITIAL) == {};
    } else {
      var n := |es| - 1;
      assert forall k | 0 <= k < n :: es[..n][..k] == es[..k];
      OvershootIsBoundedWithinDays(limit, max, es[..n]);
      FreshStep(limit, max, Run(limit, max, es[..n]), es[n]);
    }
  }

  // ---- the bound is reached, and a split upsert over midnight exceeds it ----

  /** Every upsert is one of the adapter's, which reads first and writes later. */
  predicate AlwaysSplit(es: seq<Event>) { forall n | 0 <= n < |es| :: !es[n].Upsert? }

  /** One more event after a run that ends in the given state. */
  lemma Then(limit: nat, max: nat, es: seq<Event>, s: State, e: Event) returns (es': seq<Event>)
    requires Run(limit, max, es) == s
    ensures Run(limit, max, es') == Next(limit, max, s, e)
    ensures AlwaysSplit(es) && !e.Upsert? ==> AlwaysSplit(es')
  {
    es' := es + [e];
    assert es'[..|es|] == es;
  }

  /** A request on its way to the upsert. */
  lemma ThenOpen(limit: nat, max: nat, es: seq<Event>, s: State, id: RequestId) returns (es': seq<Event>)
    requires Run(limit, max, es) == s
    requires id !in s.requests && |s.requests| < max && EffectiveCount(s.row, s.day) < limit
    ensures Run(limit, max, es') == s.(requests := s.requests[id := Dated(s.day)])
    ensures AlwaysSplit(es) ==> AlwaysSplit(es')
  {
    var s1 := s.(requests := s.requests[id := Checking(s.day)]);
    var s2 := s.(requests := s.requests[id := Passed]);
    es' := Then(limit, max, es, s, Start(id));
    es' := Then(limit, max, es', s1, Check(id));
    assert s1.requests[id := Passed] == s2.requests;
    es' := Then(limit, max, es', s2, TakeDate(id));
    assert s2.requests[id := Dated(s.day)] == s.requests[id := Dated(s.day)];
  }

  lemma ThenUpsert(limit: nat, max: nat, es: seq<Event>, s: State, id: RequestId, rest: map<RequestId, Phase>)
    returns (es': seq<Event>)
    requires Run(limit, max, es) == s && id in s.requests && s.requests[id].Dated? && rest == s.requests - {id}
    ensures Run(limit, max, es') == State(s.day, Some(Upserted(s.row, s.requests[id].date)), rest)
  {
    es' := Then(limit, max, es, s, Upsert(id));
  }

  /** A request whose upsert has read the row and not written yet. */
  lemma ThenStall(limit: nat, max: nat, es: seq<Event>, s: State, id: RequestId) returns (es': seq<Event>)
    requires Run(limit, max, es) == s
    requires id !in s.requests && |s.requests| < max && EffectiveCount(s.row, s.day) < limit
    ensures var seen := if s.row.Some? then Some(s.row.value.resetDay) else None;
            Run(limit, max, es') == s.(requests := s.requests[id := Reading(s.day, seen)])
    ensures AlwaysSplit(es) ==> AlwaysSplit(es')
  {
    var s' := s.(requests := s.requests[id := Dated(s.day)]);
    es' := ThenOpen(limit, max, es, s, id);
    es' := Then(limit, max, es', s', ReadExisting(id));
    var seen := if s.row.Some? then Some(s.row.value.resetDay) else None;
    assert s'.requests[id := Reading(s.day, seen)] == s.requests[id := Reading(s.day, seen)];
  }

  lemma ThenWrite(limit: nat, max: nat, es: seq<Event>, s: State, id: RequestId, rest: map<RequestId, Phase>)
    returns (es': seq<Event>)
    requires Run(limit, max, es) == s && id in s.requests && s.requests[id].Reading? && rest == s.requests - {id}
    ensures Run(limit, max, es') == State(s.day, Written(s.row, s.requests[id].date, s.requests[id].seen), rest)
    ensures AlwaysSplit(es) ==> AlwaysSplit(es')
  {
    es' := Then(limit, max, es, s, Write(id));
  }

  /** All requests are of today and about to write. */
  ghost predicate AboutToWrite(s: State) { forall id <- s.requests :: s.requests[id] == Dated(s.day) }

  lemma {:induction false} ChatsOneByOne(limit: nat, max: nat, n: nat) returns (es: seq<Event>, s: State)
    requires n < limit && max > 0
    ensures Run(limit, max, es) == s && s.requests == map[] && EffectiveCount(s.row, s.day) == n
  {
    if n == 0 {
      es, s := [], INITIAL;
    } else {
      es, s := ChatsOneByOne(limit, max, n - 1);
      es := ThenOpen(limit, max, es, s, 0);
      s := s.(requests := map[0 := Dated(s.day)]);
      es := ThenUpsert(limit, max, es, s, 0, map[]);
      s := State(s.day, Some(Upserted(s.row, s.day)), map[]);
    }
  }

  lemma {:induction false} AllOpen(limit: nat, max: nat, n: nat) returns (es: seq<Event>, s: State)
    requires limit > 0 && 0 < max && n <= max
    ensures Run(limit, max, es) == s && AboutToWrite(s) && EffectiveCount(s.row, s.day) == limit - 1
    ensures |s.requests| == n && forall id <- s.requests :: id < n
  {
    if n == 0 {
      es, s := ChatsOneByOne(limit, max, limit - 1);
    } else {
      es, s := AllOpen(limit, max, n - 1);
      es := ThenOpen(limit, max, es, s, n - 1);
      s := s.(requests := s.requests[n - 1 := Dated(s.day)]);
    }
  }

  lemma {:induction false} AllWrite(limit: nat, max: nat, es: seq<Event>, s: State) returns (es': seq<Event>, s': State)
    requires Run(limit, max, es) == s && AboutToWrite(s)
    ensures Run(limit, max, es') == s'
    ensures EffectiveCount(s'.row, s'.day) == EffectiveCount(s.row, s.day) + |s.requests|
    decreases |s.requests|
  {
    es', s' := es, s;
    if exists id :: id in s.requests {
      var id :| id in s.requests;
      es' := ThenUpsert(limit, max, es, s, id, s.requests - {id});
      s' := State(s.day, Some(Upserted(s.row, s.day)), s.requests - {id});
      assert s'.requests.Keys == s.requests.Keys - {id};
      es', s' := AllWrite(limit, max, es', s');
    } else {
      assert s.requests == map[];
    }
  }

  /** For every limit and every number of requests in flight some run reaches the bound. */
  lemma BoundIsReached(limit: nat, max: nat)
    requires limit >= 1 && max >= 1
    ensures exists es :: var s := Run(limit, max, es); EffectiveCount(s.row, s.day) == limit - 1 + max
  {
    var es, s := AllOpen(limit, max, max);
    es, s := AllWrite(limit, max, es, s);
  }

  // ---- when the split upsert exceeds the bound ----

  ghost predicate Exceeds(limit: nat, max: nat, es: seq<Event>) {
    var s := Run(limit, max, es); EffectiveCount(s.row, s.day) > limit - 1 + max
  }

  /** An upsert that read the clock before today. */
  predicate Stale(s: State, id: RequestId)
    requires id in s.requests
  {
    (s.requests[id].Dated? || s.requests[id].Reading?) && s.requests[id].date < s.day
  }

  predicate RowIsOfToday(s: State) { s.row.Some? && s.row.value.resetDay == s.day }

  /** No write of another day can come between an increment of today and its read. */
  ghost predicate Tame(s: State) {
    && (s.row.Some? ==> s.row.value.count >= 1)
    && (forall id, other :: id in s.requests && other in s.requests && id != other && Stale(s, id) && RowIsOfToday(s)
          ==> s.requests[other] == Checking(s.day))
    && (forall id <- s.requests :: s.requests[id] == Reading(s.day, Some(s.day)) ==>
          RowIsOfToday(s) && forall other <- s.requests :: !Stale(s, other))
  }

  lemma ThreeDistinct(requests: map<RequestId, Phase>, a: RequestId, b: RequestId, c: RequestId)
    requires a in requests && b in requests && c in requests && a != b && a != c && b != c
    ensures |requests| >= 3
  {
    SubsetSize({a, b, c}, requests.Keys);
  }

  lemma TameWrite(limit: nat, max: nat, s: State, id: RequestId)
    requires Bounded(limit, max, s) && Tame(s) && max <= 2 && id in s.requests && s.requests[id].Reading?
    ensures Bounded(limit, max, Next(limit, max, s, Write(id))) && Tame(Next(limit, max, s, Write(id)))
  {
    FinishingKeepsBound(limit, max, s, id, Written(s.row, s.requests[id].date, s.requests[id].seen));
    forall a, b | a in s.requests && b in s.requests && a != b && a != id && b != id ensures false {
      ThreeDistinct(s.requests, a, b, id);
    }
  }

  lemma TameStep(limit: nat, max: nat, s: State, e: Event)
    requires limit >= 1 && (max == 1 || (max == 2 && limit == 1))
    requires Bounded(limit, max, s) && Tame(s)
    ensures Bounded(limit, max, Next(limit, max, s, e)) && Tame(Next(limit, max, s, e))
  {
    if e.Write? {
      if e.id in s.requests && s.requests[e.id].Reading? {
        TameWrite(limit, max, s, e.id);
      }
    } else {
      AtomicKeepsBound(limit, max, s, e);
      TameOtherwise(limit, max, s, e);
    }
  }

  lemma TameUpsert(limit: nat, max: nat, s: State, id: RequestId)
    requires Bounded(limit, max, s) && Tame(s) && max <= 2
    ensures Tame(Next(limit, max, s, Upsert(id)))
  {
    forall a, b | a in s.requests && b in s.requests && id in s.requests && a != b && a != id && b != id ensures false {
      ThreeDistinct(s.requests, a, b, id);
    }
  }

  lemma TameCheck(limit: nat, max: nat, s: State, id: RequestId)
    requires Bounded(limit, max, s) && Tame(s) && (max == 1 || (max == 2 && limit == 1))
    ensures Tame(Next(limit, max, s, Check(id)))
  {
    if id in s.requests && s.requests[id].Checking? {
      if EffectiveCount(s.row, s.requests[id].date) >= limit {
        TameWithout(s, id);
      } else {
        TamePassing(limit, max, s, id);
      }
    }
  }

  lemma TameWithout(s: State, id: RequestId)
    requires Tame(s) && id in s.requests
    ensures Tame(s.(requests := s.requests - {id}))
  {
  }

  /** A request that passes today while the row is of today has no stale upsert beside it. */
  lemma TamePassing(limit: nat, max: nat, s: State, id: RequestId)
    requires Bounded(limit, max, s) && Tame(s) && (max == 1 || (max == 2 && limit == 1))
    requires id in s.requests && s.requests[id].Checking? && EffectiveCount(s.row, s.requests[id].date) < limit
    ensures Tame(s.(requests := s.requests[id := Passed]))
  {
    forall other | other in s.requests && other != id ensures limit == 1 {
      SubsetSize({id, other}, s.requests.Keys);
    }
    forall other | other in s.requests && other != id && Stale(s, other) ensures !RowIsOfToday(s) {
    }
  }

  lemma TameRead(s: State, id: RequestId, phase: Phase)
    requires Tame(s) && id in s.requests && s.requests[id].Dated? && phase.Reading? && phase.date == s.requests[id].date
    requires phase.date <= s.day && (phase.seen.Some? ==> s.row.Some? && s.row.value.resetDay == phase.seen.value)
    ensures Tame(s.(requests := s.requests[id := phase]))
  {
    var s' := s.(requests := s.requests[id := phase]);
    assert forall other <- s.requests :: Stale(s', other) <==> Stale(s, other);
    if phase == Reading(s.day, Some(s.day)) {
      forall other | other in s.requests ensures !Stale(s, other) {
        assert s.requests[id] != Checking(s.day);
      }
    }
  }

  lemma TameTakeDate(limit: nat, max: nat, s: State, id: RequestId)
    requires Bounded(limit, max, s) && Tame(s)
    ensures Tame(Next(limit, max, s, TakeDate(id)))
  {
  }

  lemma TameStart(limit: nat, max: nat, s: State, id: RequestId)
    requires Bounded(limit, max, s) && Tame(s)
    ensures Tame(Next(limit, max, s, Start(id)))
  {
  }

  lemma TameOtherwise(limit: nat, max: nat, s: State, e: Event)
    requires limit >= 1 && (max == 1 || (max == 2 && limit == 1))
    requires Bounded(limit, max, s) && Tame(s) && !e.Write?
    ensures Tame(Next(limit, max, s, e))
  {
    match e
    case Upsert(id) => TameUpsert(limit, max, s, id);
    case Check(id) => TameCheck(limit, max, s, id);
    case ReadExisting(id) =>
      if id in s.requests && s.requests[id].Dated? {
        TameRead(s, id, Next(limit, max, s, e).requests[id]);
      }
    case TakeDate(id) => TameTakeDate(limit, max, s, id);
    case Start(id) => TameStart(limit, max, s, id);
    case Fail(id) =>
      if id in s.requests {
        TameWithout(s, id);
      }
    case Midnight =>
  }

  lemma {:induction false} TameRun(limit: nat, max: nat, es: seq<Event>)
    requires limit >= 1 && (max == 1 || (max == 2 && limit == 1))
    ensures Bounded(limit, max, Run(limit, max, es)) && Tame(Run(limit, max, es))
  {
    if es == [] {
      assert MayCount(INITIAL) == {};
    } else {
      TameRun(limit, max, es[..|es| - 1]);
      TameStep(limit, max, Run(limit, max, es[..|es| - 1]), es[|es| - 1]);
    }
  }

  // ---- ... and a run that does otherwise ----

  const YESTERDAYS := Reading(0, Some(0))
  const TODAYS := Reading(1, Some(1))

  /** Day 1, and an upsert of day 0 is still to write. */
  ghost predicate Stalled(s: State) { s.day == 1 && 0 in s.requests && s.requests[0] == YESTERDAYS }

  /** The row is of today, and all other requests will increment it. */
  ghost predicate Primed(limit: nat, max: nat, s: State) {
    && Stalled(s) && s.row.Some? && s.row.value.resetDay == 1
    && (forall id <- s.requests :: id != 0 ==> s.requests[id] == TODAYS)
    && 2 <= |s.requests| <= max && s.row.value.count + |s.requests| == limit - 1 + max
  }

  lemma StalledYesterday(limit: nat, max: nat) returns (es: seq<Event>)
    requires limit >= 1 && max >= 2
    ensures AlwaysSplit(es) && Run(limit, max, es) == State(1, Some(Usage(0, 1)), map[0 := YESTERDAYS])
  {
    var both := map[0 := Dated(0), 1 := Reading(0, None)];
    es := ThenOpen(limit, max, [], INITIAL, 0);
    es := ThenStall(limit, max, es, State(0, None, map[0 := Dated(0)]), 1);
    assert map[0 := Dated(0)][1 := Reading(0, None)] == both;
    es := ThenWrite(limit, max, es, State(0, None, both), 1, map[0 := Dated(0)]);
    es := Then(limit, max, es, State(0, Some(Usage(0, 1)), map[0 := Dated(0)]), ReadExisting(0));
    assert map[0 := Dated(0)][0 := YESTERDAYS] == map[0 := YESTERDAYS];
    es := Then(limit, max, es, State(0, Some(Usage(0, 1)), map[0 := YESTERDAYS]), Midnight);
  }

  /** One chat from start to end, beside those in flight. */
  lemma ThenChat(limit: nat, max: nat, es: seq<Event>, s: State, id: RequestId) returns (es': seq<Event>)
    requires Run(limit, max, es) == s && AlwaysSplit(es)
    requires id !in s.requests && |s.requests| < max && EffectiveCount(s.row, s.day) < limit
    ensures AlwaysSplit(es') && Run(limit, max, es') == s.(row := Some(Upserted(s.row, s.day)))
  {
    var seen := if s.row.Some? then Some(s.row.value.resetDay) else None;
    var requests := s.requests[id := Reading(s.day, seen)];
    es' := ThenStall(limit, max, es, s, id);
    RemovedAgain(s.requests, id, Reading(s.day, seen));
    es' := ThenWrite(limit, max, es', s.(requests := requests), id, s.requests);
    WrittenAtOnce(s.row, s.day);
  }

  lemma RemovedAgain(requests: map<RequestId, Phase>, id: RequestId, phase: Phase)
    requires id !in requests
    ensures requests[id := phase] - {id} == requests
  {
  }

  /** A split upsert with nothing in between is the upsert of the port. */
  lemma WrittenAtOnce(row: Option<Usage>, date: nat)
    ensures Written(row, date, if row.Some? then Some(row.value.resetDay) else None) == Some(Upserted(row, date))
  {
  }

  /** Some chats of today, with yesterday's upsert still to write. */
  lemma {:induction false} ChatsToday(limit: nat, max: nat, n: nat) returns (es: seq<Event>)
    requires 1 <= n <= limit && max >= 2
    ensures AlwaysSplit(es) && Run(limit, max, es) == State(1, Some(Usage(1, n)), map[0 := YESTERDAYS])
  {
    if n == 1 {
      es := StalledYesterday(limit, max);
      es := ThenChat(limit, max, es, State(1, Some(Usage(0, 1)), map[0 := YESTERDAYS]), 1);
    } else {
      es := ChatsToday(limit, max, n - 1);
      es := ThenChat(limit, max, es, State(1, Some(Usage(1, n - 1)), map[0 := YESTERDAYS]), 1);
    }
  }

  /** With a limit above 1, the row is of today and below the limit while the others come in. */
  lemma {:induction false} AllStall(limit: nat, max: nat, n: nat) returns (es: seq<Event>, s: State)
    requires limit >= 2 && 1 <= n <= max && max >= 2
    ensures AlwaysSplit(es) && Run(limit, max, es) == s && Stalled(s) && s.row == Some(Usage(1, limit - 1))
    ensures |s.requests| == n && forall id <- s.requests :: id < n && (id != 0 ==> s.requests[id] == TODAYS)
  {
    if n == 1 {
      es := ChatsToday(limit, max, limit - 1);
      s := State(1, Some(Usage(1, limit - 1)), map[0 := YESTERDAYS]);
    } else {
      es, s := AllStall(limit, max, n - 1);
      es := ThenStall(limit, max, es, s, n - 1);
      s := s.(requests := s.requests[n - 1 := TODAYS]);
    }
  }

  /** With limit 1 the others come in while the row is still of yesterday. */
  lemma {:induction false} OthersOpen(max: nat, n: nat) returns (es: seq<Event>, s: State)
    requires 1 <= n <= max && max >= 2
    ensures AlwaysSplit(es) && Run(1, max, es) == s && Stalled(s) && s.row == Some(Usage(0, 1))
    ensures |s.requests| == n && forall id <- s.requests :: id < n && (id != 0 ==> s.requests[id] == Dated(1))
  {
    if n == 1 {
      es := StalledYesterday(1, max);
      s := State(1, Some(Usage(0, 1)), map[0 := YESTERDAYS]);
    } else {
      es, s := OthersOpen(max, n - 1);
      es := ThenOpen(1, max, es, s, n - 1);
      s := s.(requests := s.requests[n - 1 := Dated(1)]);
    }
  }

  function StillDated(s: State): set<RequestId> { set id | id in s.requests && s.requests[id].Dated? }

  /** ... and read the row once the first of them has made it of today. */
  lemma {:induction false} AllRead(max: nat, es: seq<Event>, s: State) returns (es': seq<Event>, s': State)
    requires AlwaysSplit(es) && Run(1, max, es) == s && Stalled(s) && s.row == Some(Usage(1, 1))
    requires forall id <- s.requests :: id != 0 ==> s.requests[id] in {Dated(1), TODAYS}
    ensures AlwaysSplit(es') && Run(1, max, es') == s' && Stalled(s') && s'.row == s.row
    ensures |s'.requests| == |s.requests| && forall id <- s'.requests :: id != 0 ==> s'.requests[id] == TODAYS
    decreases |StillDated(s)|
  {
    es', s' := es, s;
    if exists id :: id in StillDated(s) {
      var id :| id in StillDated(s);
      es', s' := ReadOne(max, es, s, id);
      es', s' := AllRead(max, es', s');
    } else {
      NoneDated(s);
    }
  }

  lemma NoneDated(s: State)
    requires forall id :: id !in StillDated(s)
    requires forall id <- s.requests :: id != 0 ==> s.requests[id] in {Dated(1), TODAYS}
    ensures forall id <- s.requests :: id != 0 ==> s.requests[id] == TODAYS
  {
    forall id | id in s.requests && id != 0 ensures s.requests[id] == TODAYS {
      assert id !in StillDated(s);
    }
  }

  lemma ReadOne(max: nat, es: seq<Event>, s: State, id: RequestId) returns (es': seq<Event>, s': State)
    requires AlwaysSplit(es) && Run(1, max, es) == s && Stalled(s) && s.row == Some(Usage(1, 1)) && id in StillDated(s)
    requires forall id <- s.requests :: id != 0 ==> s.requests[id] in {Dated(1), TODAYS}
    ensures AlwaysSplit(es') && Run(1, max, es') == s' && Stalled(s') && s'.row == s.row
    ensures |s'.requests| == |s.requests| && StillDated(s') == StillDated(s) - {id}
    ensures forall id <- s'.requests :: id != 0 ==> s'.requests[id] in {Dated(1), TODAYS}
  {
    es' := Then(1, max, es, s, ReadExisting(id));
    s' := s.(requests := s.requests[id := TODAYS]);
    assert s'.requests.Keys == s.requests.Keys;
  }

  lemma PrimedAtOne(max: nat) returns (es: seq<Event>, s: State)
    requires max >= 3
    ensures AlwaysSplit(es) && Run(1, max, es) == s && Primed(1, max, s)
  {
    es, s := OthersOpen(max, max - 1);
    es := ThenChat(1, max, es, s, max - 1);
    es, s := AllRead(max, es, s.(row := Some(Usage(1, 1))));
  }

  /** The requests that are going to increment, and one that has only taken the date. */
  ghost predicate Incrementing(s: State, row: Usage) {
    && s.day == 1 && s.row == Some(row) && 0 in s.requests && s.requests[0] == Dated(1)
    && (forall id <- s.requests :: id != 0 ==> s.requests[id] == TODAYS)
    && (|s.requests| >= 2 || row.resetDay == 1)
  }

  lemma IncrementOne(limit: nat, max: nat, es: seq<Event>, s: State, row: Usage, id: RequestId)
    returns (es': seq<Event>, s': State)
    requires AlwaysSplit(es) && Run(limit, max, es) == s && Incrementing(s, row) && id in s.requests && id != 0
    ensures AlwaysSplit(es') && Run(limit, max, es') == s' && Incrementing(s', Usage(1, row.count + 1))
    ensures |s'.requests| == |s.requests| - 1
  {
    var rest := s.requests - {id};
    es' := ThenWrite(limit, max, es, s, id, rest);
    s' := State(1, Some(Usage(1, row.count + 1)), rest);
    assert rest.Keys == s.requests.Keys - {id};
  }

  lemma Another(requests: map<RequestId, Phase>) returns (id: RequestId)
    requires |requests| > 1
    ensures id in requests && id != 0
  {
    SubsetSize(requests.Keys, {0} + (requests.Keys - {0}));
    id :| id in requests.Keys - {0};
  }

  /** They all increment, after the row was reset to yesterday and another request passed. */
  lemma {:induction false} AllIncrement(limit: nat, max: nat, es: seq<Event>, s: State, row: Usage, total: nat)
    returns (es': seq<Event>, s': State)
    requires AlwaysSplit(es) && Run(limit, max, es) == s && Incrementing(s, row)
    requires row.count + |s.requests| == total + 1
    ensures AlwaysSplit(es') && Run(limit, max, es') == s' && Incrementing(s', Usage(1, total))
    decreases |s.requests|
  {
    es', s' := es, s;
    if |s.requests| > 1 {
      var id := Another(s.requests);
      es', s' := IncrementOne(limit, max, es, s, row, id);
      es', s' := AllIncrement(limit, max, es', s', Usage(1, row.count + 1), total);
    } else {
      SubsetSize({0}, s.requests.Keys);
    }
  }

  /** Yesterday's upsert writes its date back, and one more request passes. */
  lemma ResetToYesterday(limit: nat, max: nat, es: seq<Event>, s: State) returns (es': seq<Event>, s': State)
    requires limit >= 1 && AlwaysSplit(es) && Run(limit, max, es) == s && Primed(limit, max, s)
    ensures AlwaysSplit(es') && Run(limit, max, es') == s' && Incrementing(s', Usage(0, s.row.value.count + 1))
    ensures |s'.requests| == |s.requests|
  {
    var rest, row := s.requests - {0}, Usage(0, s.row.value.count + 1);
    OthersAreTodays(limit, max, s, rest);
    es' := ThenWrite(limit, max, es, s, 0, rest);
    s' := State(1, Some(row), rest);
    es' := ThenOpen(limit, max, es', s', 0);
    s' := s'.(requests := rest[0 := Dated(1)]);
  }

  lemma OthersAreTodays(limit: nat, max: nat, s: State, rest: map<RequestId, Phase>)
    requires Primed(limit, max, s) && rest == s.requests - {0}
    ensures 0 !in rest && |rest| == |s.requests| - 1 && forall id <- rest :: rest[id] == TODAYS
    ensures |rest[0 := Dated(1)]| == |s.requests|
  {
    assert rest.Keys == s.requests.Keys - {0};
    assert rest[0 := Dated(1)].Keys == s.requests.Keys;
  }

  lemma LastIncrement(limit: nat, max: nat, es: seq<Event>, s: State, count: nat) returns (es': seq<Event>)
    requires AlwaysSplit(es) && Run(limit, max, es) == s && Incrementing(s, Usage(1, count))
    ensures AlwaysSplit(es')
    ensures var s' := Run(limit, max, es'); EffectiveCount(s'.row, s'.day) == count + 1
  {
    es' := Then(limit, max, es, s, ReadExisting(0));
    var s' := s.(requests := s.requests[0 := TODAYS]);
    es' := ThenWrite(limit, max, es', s', 0, s'.requests - {0});
  }

  lemma PrimedExceeds(limit: nat, max: nat, es: seq<Event>, s: State) returns (es': seq<Event>)
    requires limit >= 1 && AlwaysSplit(es) && Run(limit, max, es) == s && Primed(limit, max, s)
    ensures AlwaysSplit(es') && Exceeds(limit, max, es')
  {
    var s';
    es', s' := ResetToYesterday(limit, max, es, s);
    var total := s.row.value.count + |s.requests|;
    es', s' := AllIncrement(limit, max, es', s', Usage(0, s.row.value.count + 1), total);
    es' := LastIncrement(limit, max, es', s', total);
  }

  /**
   Exactly for these limits and numbers of requests in flight a split upsert over
   midnight can exceed the bound: it writes yesterday's date back, and the requests
   that pass meanwhile are counted on top of those that had read today's row.
   */
  lemma SplitUpsertExceedsBoundIff(limit: nat, max: nat)
    requires limit >= 1 && max >= 1
    ensures (exists es :: Exceeds(limit, max, es)) <==> max >= 3 || (max == 2 && limit >= 2)
    ensures (exists es :: AlwaysSplit(es) && Exceeds(limit, max, es)) <==> max >= 3 || (max == 2 && limit >= 2)
  {
    if max >= 3 || (max == 2 && limit >= 2) {
      var es, s;
      if limit >= 2 {
        es, s := AllStall(limit, max, max);
      } else {
        es, s := PrimedAtOne(max);
      }
      es := PrimedExceeds(limit, max, es, s);
    } else {
      forall es ensures !Exceeds(limit, max, es) {
        TameRun(limit, max, es);
      }
    }
  }
}
