/**
 The clean-up migration run step by step on a store: deduplication, the batched
 prune loop, and the removal of empty subclusters and clusters; and the dry run.
 */
module Migration {
  import opened MacroGraph
  import opened MigrationPrediction
  import opened MigrationProofs
  import opened Sets

  const PRUNE_BATCH_LIMIT := 1000

  datatype DryReport = DryReport(
    duplicateNodes: nat, excessBelongsTo: int, contains: nat, represents: nat,
    emptySubclusters: nat, emptyClusters: nat)

  datatype ApplyReport = ApplyReport(
    duplicateNodes: nat, excessBelongsTo: int, contains: nat, represents: nat, batches: nat,
    emptySubclusters: nat, emptyClusters: nat)

  /** `ORDER BY clusterNum DESC ... collect(...)[0]`: some top-ranked candidate per node. */
  method PickKept(g: Graph, rank: Rank) returns (k: Choice)
    ensures ValidChoice(g, rank, k)
  {
    k := map[];
    var rest := g.belongsTo;
    while exists b :: b in rest
      invariant rest <= g.belongsTo
      invariant ValidChoice(g.(belongsTo := g.belongsTo - rest), rank, k)
      decreases rest
    {
      var b :| b in rest;
      if b.node !in k || rank(k[b.node]) < rank(b.cluster) {
        k := k[b.node := b.cluster];
      }
      rest := rest - {b};
    }
    assert g.belongsTo - rest == g.belongsTo;
  }

  /** `LIMIT n` on an unordered match: any rows, as many as there are up to the limit. */
  method TakeUpTo(ms: set<Membership>, limit: nat) returns (batch: set<Membership>)
    ensures batch <= ms && |batch| == if |ms| <= limit then |ms| else limit
  {
    batch := {};
    var rest := ms;
    while |batch| < limit && exists m :: m in rest
      invariant batch + rest == ms && batch !! rest
      invariant |batch| <= limit
      decreases rest
    {
      var m :| m in rest;
      batch, rest := batch + {m}, rest - {m};
    }
    SubsetSize(batch, ms);
    if |batch| < limit {
      assert rest == {};
      assert batch == ms;
    }
  }

  /** Exactly the clusters some BELONGS_TO points to are left, with their subclusters; nothing else is lost. */
  ghost predicate OnlyUsedClusters(g: Graph, g': Graph) {
    && g' == g.(clusters := g'.clusters, hasSub := g'.hasSub)
    && (forall c :: c in g'.clusters <==> c in g.clusters && exists b <- g.belongsTo :: b.cluster == c)
    && (WellFormed(g) ==> WellFormed(g') && forall h :: h in g'.hasSub <==> h in g.hasSub && h.cluster in g'.clusters)
  }

  /** Exactly the subclusters with a member or without a cluster are left; nothing else is lost. */
  ghost predicate OnlyUsedSubclusters(g: Graph, g': Graph) {
    && g' == g.(subclusters := g'.subclusters, hasSub := g'.hasSub)
    && (forall s <- g.subclusters :: s in g'.subclusters <==>
          (forall h <- g.hasSub :: h.sub != s) || exists m <- g.members :: m.sub == s)
    && (forall h :: h in g'.hasSub <==> h in g.hasSub && exists m <- g.members :: m.sub == h.sub)
    && g'.subclusters <= g.subclusters && (WellFormed(g) ==> WellFormed(g'))
  }

  class MacroGraphStore {
    var g: Graph
    const rank: Rank

    constructor (g: Graph, rank: Rank)
      ensures this.g == g && this.rank == rank
    {
      this.g, this.rank := g, rank;
    }

    method CountDuplicateBelongsTo() returns (duplicateNodes: nat, excess: int)
      ensures duplicateNodes == |DuplicateNodes(g)| && excess == SumExcess(g, DuplicateNodes(g))
    {
      var dups := DuplicateNodes(g);
      duplicateNodes := |dups|;
      excess := |set b | b in g.belongsTo && b.node in dups| - |dups|;
      SumExcessIsRelsMinusNodes(g, dups);
    }

    method DeduplicateBelongsTo() returns (ghost k: Choice)
      modifies this`g
      ensures ValidChoice(old(g), rank, k) && g == Dedup(old(g), k)
    {
      var kept := PickKept(g, rank);
      g := g.(belongsTo := g.belongsTo - DuplicateRels(g, kept));
      k := kept;
    }

    method PruneIncompatibleSubclusterMemberships(limit: nat)
      returns (contains: nat, represents: nat, ghost batch: set<Membership>)
      modifies this`g
      ensures g == Prune(old(g), batch) && batch <= Incompatible(old(g))
      ensures |batch| == if |Incompatible(old(g))| <= limit then |Incompatible(old(g))| else limit
      ensures contains == |OfKind(batch, Contains)| && represents == |OfKind(batch, Represents)|
    {
      var rels := TakeUpTo(Incompatible(g), limit);
      contains, represents := |OfKind(rels, Contains)|, |OfKind(rels, Represents)|;
      g := g.(members := g.members - rels);
      batch := rels;
    }

    method RemoveEmptyClusters()
      modifies this`g
      ensures g == DropClusters(old(g), EmptyClusters(old(g))) && OnlyUsedClusters(old(g), g)
    {
      g := DropClusters(g, EmptyClusters(g));
    }
  }

  method DeleteEmptySubclusters(store: MacroGraphStore) returns (deleted: nat)
    modifies store`g
    ensures store.g == DropSubclusters(old(store.g), EmptySubclusters(old(store.g)))
    ensures OnlyUsedSubclusters(old(store.g), store.g)
    ensures deleted == |EmptySubclusters(old(store.g))|
    ensures WellFormed(old(store.g)) ==> deleted == |old(store.g).subclusters| - |store.g.subclusters|
  {
    ghost var g := store.g;
    var subclusters := EmptySubclusters(store.g);
    store.g := DropSubclusters(store.g, subclusters);
    deleted := |subclusters|;
    DroppedSubclusters(g);
  }

  lemma DroppedSubclusters(g: Graph)
    ensures DropSubclusters(g, EmptySubclusters(g)).members == g.members
    ensures forall h <- g.hasSub :: h.sub !in EmptySubclusters(g) <==> exists m <- g.members :: m.sub == h.sub
    ensures WellFormed(g) ==> |EmptySubclusters(g)| == |g.subclusters| - |g.subclusters - EmptySubclusters(g)|
  {
    var ss := EmptySubclusters(g);
    if WellFormed(g) {
      assert ss <= g.subclusters;
      assert g.subclusters == ss + (g.subclusters - ss);
    }
  }

  /** The number of pages of the limit that `total` relationships fill, the last one perhaps partly. */
  predicate IsBatchCount(batches: nat, total: nat) {
    && total <= PRUNE_BATCH_LIMIT * batches
    && (batches > 0 ==> PRUNE_BATCH_LIMIT * (batches - 1) < total)
  }

  /** After some batches: what is removed, by kind, and all batches but the last were full. */
  ghost predicate Tally(total: set<Membership>, removed: set<Membership>,
                        contains: nat, represents: nat, batches: nat) {
    && removed <= total
    && contains == |OfKind(removed, Contains)| && represents == |OfKind(removed, Represents)|
    && (|removed| == PRUNE_BATCH_LIMIT * batches || (removed == total && |total| < PRUNE_BATCH_LIMIT * batches))
    && (batches > 0 ==> PRUNE_BATCH_LIMIT * (batches - 1) < |removed|)
  }

  ghost predicate Progress(g0: Graph, g: Graph, removed: set<Membership>,
                           contains: nat, represents: nat, batches: nat) {
    g == Prune(g0, removed) && Tally(Incompatible(g0), removed, contains, represents, batches)
  }

  /**
   For every batch the store may pick, the loop ends with no incompatible
   membership left, the totals are the initial counts of each kind, and it takes
   as many batches as pages of the limit are needed.
   */
  method RunPruneBatchLoop(store: MacroGraphStore) returns (contains: nat, represents: nat, batches: nat)
    modifies store`g
    ensures store.g == Prune(old(store.g), Incompatible(old(store.g)))
    ensures contains == |OfKind(Incompatible(old(store.g)), Contains)|
    ensures represents == |OfKind(Incompatible(old(store.g)), Represents)|
    ensures IsBatchCount(batches, |Incompatible(old(store.g))|)
  {
    ghost var g0, removed := store.g, {};
    contains, represents, batches := 0, 0, 0;
    assert Progress(g0, store.g, removed, 0, 0, 0);
    while true
      invariant Progress(g0, store.g, removed, contains, represents, batches)
      decreases |Incompatible(store.g)|
    {
      ghost var g := store.g;
      var containsDeleted, representsDeleted, batch := store.PruneIncompatibleSubclusterMemberships(PRUNE_BATCH_LIMIT);
      if containsDeleted + representsDeleted == 0 {
        LastBatch(g0, g, removed, batch, contains, represents, batches);
        break;
      }
      NextBatch(g0, g, removed, batch, contains, represents, batches);
      BatchShrinks(g, batch);
      removed := removed + batch;
      contains, represents := contains + containsDeleted, represents + representsDeleted;
      batches := batches + 1;
    }
  }

  ghost predicate BatchOf(g: Graph, batch: set<Membership>) {
    && batch <= Incompatible(g)
    && |batch| == if |Incompatible(g)| <= PRUNE_BATCH_LIMIT then |Incompatible(g)| else PRUNE_BATCH_LIMIT
  }

  lemma LastBatch(g0: Graph, g: Graph, removed: set<Membership>, batch: set<Membership>,
                  contains: nat, represents: nat, batches: nat)
    requires Progress(g0, g, removed, contains, represents, batches) && BatchOf(g, batch)
    requires |OfKind(batch, Contains)| + |OfKind(batch, Represents)| == 0
    ensures removed == Incompatible(g0) && Prune(g, batch) == Prune(g0, removed)
    ensures IsBatchCount(batches, |Incompatible(g0)|)
  {
    IncompatibleAfterPrune(g0, removed);
    BatchAdds(Incompatible(g0), removed, batch);
    assert batch == {};
  }

  lemma NextBatch(g0: Graph, g: Graph, removed: set<Membership>, batch: set<Membership>,
                  contains: nat, represents: nat, batches: nat)
    requires Progress(g0, g, removed, contains, represents, batches) && BatchOf(g, batch)
    requires |OfKind(batch, Contains)| + |OfKind(batch, Represents)| != 0
    ensures Progress(g0, Prune(g, batch), removed + batch, contains + |OfKind(batch, Contains)|,
                     represents + |OfKind(batch, Represents)|, batches + 1)
  {
    IncompatibleAfterPrune(g0, removed);
    TallyStep(Incompatible(g0), removed, batch, contains, represents, batches);
    PruneInSteps(g0, removed, batch);
  }

  lemma BatchShrinks(g: Graph, batch: set<Membership>)
    requires batch <= Incompatible(g)
    ensures |Incompatible(Prune(g, batch))|
         == |Incompatible(g)| - |OfKind(batch, Contains)| - |OfKind(batch, Represents)|
  {
    IncompatibleAfterPrune(g, batch);
    BatchAdds(Incompatible(g), batch, {});
    BatchAdds(Incompatible(g), {}, batch);
  }

  lemma TallyStep(total: set<Membership>, removed: set<Membership>, batch: set<Membership>,
                  contains: nat, represents: nat, batches: nat)
    requires Tally(total, removed, contains, represents, batches)
    requires batch <= total - removed && |OfKind(batch, Contains)| + |OfKind(batch, Represents)| != 0
    requires |batch| == if |total - removed| <= PRUNE_BATCH_LIMIT then |total - removed| else PRUNE_BATCH_LIMIT
    ensures Tally(total, removed + batch, contains + |OfKind(batch, Contains)|,
                  represents + |OfKind(batch, Represents)|, batches + 1)
  {
    BatchAdds(total, removed, batch);
  }

  lemma BatchAdds(total: set<Membership>, removed: set<Membership>, batch: set<Membership>)
    requires removed <= total && batch <= total - removed
    ensures |total - removed| == |total| - |removed|
    ensures |removed + batch| == |removed| + |batch| <= |total|
    ensures |batch| == |OfKind(batch, Contains)| + |OfKind(batch, Represents)|
    ensures forall kind :: |OfKind(removed + batch, kind)| == |OfKind(removed, kind)| + |OfKind(batch, kind)|
    ensures |batch| == |total| - |removed| ==> removed + batch == total
  {
    assert total == removed + (total - removed);
    SubsetSize(removed + batch, total);
    assert batch == OfKind(batch, Contains) + OfKind(batch, Represents);
    forall kind ensures |OfKind(removed + batch, kind)| == |OfKind(removed, kind)| + |OfKind(batch, kind)| {
      assert OfKind(removed + batch, kind) == OfKind(removed, kind) + OfKind(batch, kind);
    }
    if |batch| == |total| - |removed| {
      assert total == removed + batch + (total - (removed + batch));
      assert |total - (removed + batch)| == 0;
    }
  }

  lemma PruneInSteps(g: Graph, removed: set<Membership>, batch: set<Membership>)
    ensures Prune(Prune(g, removed), batch) == Prune(g, removed + batch)
  {
    assert g.members - removed - batch == g.members - (removed + batch);
  }

  lemma IncompatibleAfterPrune(g: Graph, batch: set<Membership>)
    ensures Incompatible(Prune(g, batch)) == Incompatible(g) - batch
  {
  }

  /** The counts of the report are the numbers of records gone from the graph. */
  ghost predicate CountsRemoved(r: ApplyReport, g: Graph, k: Choice) {
    var c := Cleaned(g, k);
    && r.excessBelongsTo == |g.belongsTo - c.belongsTo|
    && r.contains == |OfKind(g.members - Pruned(g, k).members, Contains)|
    && r.represents == |OfKind(g.members - Pruned(g, k).members, Represents)|
    && r.emptySubclusters == |g.subclusters - c.subclusters|
    && r.emptyClusters == |g.clusters - c.clusters|
  }

  /** The last steps: empty subclusters, then empty clusters, counted before and after. */
  method CleanUpEmpties(store: MacroGraphStore) returns (subclusters: nat, clusters: nat)
    modifies store`g
    ensures var w := DropSubclusters(old(store.g), EmptySubclusters(old(store.g)));
            store.g == DropClusters(w, EmptyClusters(w))
    ensures subclusters == |EmptySubclusters(old(store.g))|
    ensures var gone := |EmptyClusters(old(store.g))| - |EmptyClusters(store.g)|;
            clusters == if gone > 0 then gone else 0
  {
    var pre := |EmptyClusters(store.g)|;
    subclusters := DeleteEmptySubclusters(store);
    store.RemoveEmptyClusters();
    var post := |EmptyClusters(store.g)|;
    clusters := if pre - post > 0 then pre - post else 0;
  }

  method Apply(store: MacroGraphStore) returns (r: ApplyReport, ghost k: Choice)
    requires WellFormed(store.g)
    modifies store`g
    ensures ValidChoice(old(store.g), store.rank, k) && store.g == Cleaned(old(store.g), k)
    ensures r.duplicateNodes == |DuplicateNodes(old(store.g))| && CountsRemoved(r, old(store.g), k)
  {
    ghost var g0 := store.g;
    var duplicateNodes, excess := store.CountDuplicateBelongsTo();
    k := store.DeduplicateBelongsTo();
    var contains, represents, batches := RunPruneBatchLoop(store);
    assert store.g == Pruned(g0, k);
    var subclusters, clusters := CleanUpEmpties(store);
    r := ApplyReport(duplicateNodes, excess, contains, represents, batches, subclusters, clusters);
    ReportIsExact(r, g0, store.rank, k);
  }

  lemma ReportIsExact(r: ApplyReport, g: Graph, rank: Rank, k: Choice)
    requires WellFormed(g) && ValidChoice(g, rank, k)
    requires r.excessBelongsTo == SumExcess(g, DuplicateNodes(g))
    requires r.contains == |OfKind(Incompatible(Dedup(g, k)), Contains)|
    requires r.represents == |OfKind(Incompatible(Dedup(g, k)), Represents)|
    requires r.emptySubclusters == |EmptySubclusters(Pruned(g, k))|
    requires r.emptyClusters ==
             var gone := |EmptyClusters(Pruned(g, k))| - |EmptyClusters(Cleaned(g, k))|; if gone > 0 then gone else 0
    ensures CountsRemoved(r, g, k)
  {
    ExcessIsWhatDedupDeletes(g, rank, k);
    StepsDelete(g, rank, k);
  }

  /** What the deleting steps report is what is gone in the end. */
  lemma StepsDelete(g: Graph, rank: Rank, k: Choice)
    requires WellFormed(g) && ValidChoice(g, rank, k)
    ensures g.belongsTo - Cleaned(g, k).belongsTo == g.belongsTo - Dedup(g, k).belongsTo
    ensures g.members - Pruned(g, k).members == Incompatible(Dedup(g, k))
    ensures g.subclusters - Cleaned(g, k).subclusters == EmptySubclusters(Pruned(g, k))
    ensures g.clusters - Cleaned(g, k).clusters == EmptyClusters(Pruned(g, k))
    ensures EmptyClusters(Cleaned(g, k)) == {}
  {
    CleanedRelations(g, rank, k);
    assert Incompatible(Dedup(g, k)) <= g.members;
    assert EmptyClusters(Pruned(g, k)) == EmptyClusters(WithoutEmptySubclusters(g, k));
    ReachesNormalForm(g, rank, k);
  }

  /** Each counting query sorts for itself, so each may break ties its own way. */
  method DryRun(store: MacroGraphStore) returns (r: DryReport, km: Choice, ks: Choice, kc: Choice)
    ensures ValidChoice(store.g, store.rank, km) && ValidChoice(store.g, store.rank, ks)
    ensures ValidChoice(store.g, store.rank, kc)
    ensures r == DryReport(
                   |DuplicateNodes(store.g)|, SumExcess(store.g, DuplicateNodes(store.g)),
                   |OfKind(ExpectedIncompatible(store.g, km), Contains)|,
                   |OfKind(ExpectedIncompatible(store.g, km), Represents)|,
                   |ExpectedEmptySubclusters(store.g, ks)|, |ExpectedEmptyClusters(store.g, kc)|)
  {
    var duplicateNodes, excess := store.CountDuplicateBelongsTo();
    km := PickKept(store.g, store.rank);
    ks := PickKept(store.g, store.rank);
    kc := PickKept(store.g, store.rank);
    var incompatible := ExpectedIncompatible(store.g, km);
    r := DryReport(duplicateNodes, excess,
                   |OfKind(incompatible, Contains)|, |OfKind(incompatible, Represents)|,
                   |ExpectedEmptySubclusters(store.g, ks)|, |ExpectedEmptyClusters(store.g, kc)|);
  }

  /**
   A dry run followed by an apply run: the duplicates are always counted alike, the
   memberships if ties agree on their numbers, and on a predictable graph all counts are,
   each being what was removed.
   */
  method DryRunThenApply(store: MacroGraphStore) returns (dry: DryReport, run: ApplyReport)
    requires WellFormed(store.g)
    modifies store`g
    ensures dry.duplicateNodes == run.duplicateNodes && dry.excessBelongsTo == run.excessBelongsTo
    ensures TiesAgreeOnCounts(old(store.g), store.rank) ==>
              dry.contains == run.contains && dry.represents == run.represents
    ensures Predictable(old(store.g), store.rank) ==>
              dry == DryReport(run.duplicateNodes, run.excessBelongsTo, run.contains, run.represents,
                               run.emptySubclusters, run.emptyClusters)
    ensures NormalForm(store.g)
  {
    ghost var g0, rank, k' := store.g, store.rank, map[];
    var km, ks, kc;
    dry, km, ks, kc := DryRun(store);
    run, k' := Apply(store);
    ExcessIsWhatDedupDeletes(g0, rank, k');
    CleanedRelations(g0, rank, k');
    ReachesNormalForm(g0, rank, k');
    MemberCountsExactIff(g0, rank, k');
    assert OfKind(ExpectedIncompatible(g0, km), Contains) == ExpectedOfKind(g0, km, Contains);
    assert OfKind(ExpectedIncompatible(g0, km), Represents) == ExpectedOfKind(g0, km, Represents);
    if Predictable(g0, rank) {
      DryRunPredictsApply(g0, rank, km, k');
      DryRunPredictsApply(g0, rank, ks, k');
      DryRunPredictsApply(g0, rank, kc, k');
      assert g0.subclusters - store.g.subclusters == g0.subclusters - WithoutEmptySubclusters(g0, k').subclusters;
    }
  }

  // ---- a failed user is retried ----

  /** Where an apply run can stop: the queries are atomic, and the prune loop may have done some batches. */
  ghost predicate StoppedAt(g: Graph, k: Choice, x: Graph) {
    || x == g
    || (exists batch :: batch <= Incompatible(Dedup(g, k)) && x == Prune(Dedup(g, k), batch))
    || x == WithoutEmptySubclusters(g, k)
    || x == Cleaned(g, k)
  }

  /**
   Running again after a failure at any query ends in the graph of an uninterrupted
   run: of the run that failed once it has written anything, of the new one otherwise.
   */
  lemma RetryCompletesTheRun(g: Graph, rank: Rank, k: Choice, x: Graph, k': Choice)
    requires WellFormed(g) && ValidChoice(g, rank, k)
    requires StoppedAt(g, k, x) && ValidChoice(x, rank, k')
    ensures if x == g then ValidChoice(g, rank, k') && Cleaned(x, k') == Cleaned(g, k')
            else Cleaned(x, k') == Cleaned(g, k)
  {
    if x == g {
      return;
    }
    if x == Cleaned(g, k) {
      SecondRunIsIdle(g, rank, k, k');
    } else {
      CleanedRelations(g, rank, k);
      DedupKeepsTheChoice(g, rank, k);
      assert x.belongsTo == Dedup(g, k).belongsTo;
      DedupedIsStable(g, rank, k, x, k');
      IncompatibleAfterPrune(Dedup(g, k), Dedup(g, k).members - x.members);
      if x == WithoutEmptySubclusters(g, k) {
        assert Incompatible(x) <= Incompatible(Pruned(g, k));
        assert Pruned(x, k') == x;
        assert EmptySubclusters(x) == {} by {
          forall h | h in x.hasSub ensures exists m <- x.members :: m.sub == h.sub {
            assert h.sub !in EmptySubclusters(Pruned(g, k));
          }
        }
        assert WithoutEmptySubclusters(x, k') == x;
      } else {
        assert Pruned(x, k') == Pruned(g, k);
      }
    }
  }

  lemma DedupedIsStable(g: Graph, rank: Rank, k: Choice, x: Graph, k': Choice)
    requires ValidChoice(g, rank, k) && ValidChoice(x, rank, k')
    requires x.belongsTo == set n | n in k :: BelongsTo(n, k[n])
    ensures k' == k && Dedup(x, k') == x
  {
    forall n | n in k' ensures n in k && k'[n] == k[n] {
      assert BelongsTo(n, k'[n]) in x.belongsTo;
    }
    forall n | n in k ensures n in k' {
      assert BelongsTo(n, k[n]) in x.belongsTo;
    }
    assert DuplicateRels(x, k') == {};
  }
}
