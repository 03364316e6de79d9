/**
 The dry run of the clean-up migration predicts, on the untouched graph, exactly
 what the apply run removes, and the apply run reaches a normal form.
 */
module MigrationProofs {
  import opened MacroGraph
  import opened Sets

  // ---- which cluster is kept ----

  /** The kept clusters are forced exactly when no node has two top-ranked candidates. */
  lemma ChoiceForcedIffNoTopTie(g: Graph, rank: Rank, k: Choice)
    requires ValidChoice(g, rank, k)
    ensures NoTopTie(g, rank) <==> forall k' :: ValidChoice(g, rank, k') ==> k' == k
  {
    if NoTopTie(g, rank) {
      forall k' | ValidChoice(g, rank, k') ensures k' == k {
        ChoicesAgree(g, rank, k, k');
      }
    } else {
      var b, b' :| IsTop(g, rank, b) && IsTop(g, rank, b') && b.node == b'.node && b != b';
      var other := if k[b.node] == b.cluster then b' else b;
      assert ValidChoice(g, rank, k[b.node := other.cluster]);
    }
  }

  lemma ChoicesAgree(g: Graph, rank: Rank, k: Choice, k': Choice)
    requires ValidChoice(g, rank, k) && ValidChoice(g, rank, k') && NoTopTie(g, rank)
    ensures k == k'
  {
    assert forall n <- k :: BelongsTo(n, k[n]) in g.belongsTo;
    assert forall n <- k' :: BelongsTo(n, k'[n]) in g.belongsTo;
    forall n | n in k ensures k[n] == k'[n] {
      assert IsTop(g, rank, BelongsTo(n, k[n])) && IsTop(g, rank, BelongsTo(n, k'[n]));
    }
  }

  /** Deduplication leaves the graph of the choice: one relationship per node that had any. */
  lemma DedupKeepsTheChoice(g: Graph, rank: Rank, k: Choice)
    requires ValidChoice(g, rank, k)
    ensures Dedup(g, k).belongsTo == set n | n in k :: BelongsTo(n, k[n])
  {
    forall b | b in g.belongsTo && b.cluster != k[b.node] ensures b in DuplicateRels(g, k) {
      assert {b, BelongsTo(b.node, k[b.node])} <= Candidates(g, b.node);
      SubsetSize({b, BelongsTo(b.node, k[b.node])}, Candidates(g, b.node));
    }
  }

  // ---- BELONGS_TO: the reported excess is what deduplication deletes ----

  function LosingRels(g: Graph, k: Choice, ns: set<NodeId>): set<BelongsTo> {
    set b | b in g.belongsTo && b.node in ns && b.node in k && b.cluster != k[b.node]
  }

  lemma ExcessIsWhatDedupDeletes(g: Graph, rank: Rank, k: Choice)
    requires WellFormed(g) && ValidChoice(g, rank, k)
    ensures SumExcess(g, DuplicateNodes(g)) == |g.belongsTo - Dedup(g, k).belongsTo|
  {
    var dups := DuplicateNodes(g);
    ExcessOver(g, rank, k, dups);
    assert g.belongsTo - Dedup(g, k).belongsTo == LosingRels(g, k, dups);
  }

  lemma ExcessOver(g: Graph, rank: Rank, k: Choice, ns: set<NodeId>)
    requires ValidChoice(g, rank, k) && ns <= DuplicateNodes(g)
    ensures SumExcess(g, ns) == |LosingRels(g, k, ns)|
  {
    if exists n :: n in ns {
      var n :| n in ns && SumExcess(g, ns) == |Candidates(g, n)| - 1 + SumExcess(g, ns - {n});
      ExcessOver(g, rank, k, ns - {n});
      OneNodeLoses(g, rank, k, ns, n);
    } else {
      assert LosingRels(g, k, ns) == {};
    }
  }

  /** The nodes counted are those with two BELONGS_TO or more. */
  lemma DuplicateNodesAre(g: Graph, n: NodeId)
    ensures n in DuplicateNodes(g) <==>
            n in g.nodes && exists c, c' :: c != c' && BelongsTo(n, c) in g.belongsTo && BelongsTo(n, c') in g.belongsTo
  {
    var cs := Candidates(g, n);
    if c, c' :| c != c' && BelongsTo(n, c) in g.belongsTo && BelongsTo(n, c') in g.belongsTo {
      SubsetSize({BelongsTo(n, c), BelongsTo(n, c')}, cs);
    } else if b :| b in cs {
      assert forall b' <- cs :: b' == BelongsTo(n, b'.cluster) && BelongsTo(n, b.cluster) == b;
      assert cs == {b};
    } else {
      assert cs == {};
    }
  }

  lemma SumExcessIsRelsMinusNodes(g: Graph, ns: set<NodeId>)
    ensures SumExcess(g, ns) == |set b | b in g.belongsTo && b.node in ns| - |ns|
  {
    if exists n :: n in ns {
      var n :| n in ns && SumExcess(g, ns) == |Candidates(g, n)| - 1 + SumExcess(g, ns - {n});
      SumExcessIsRelsMinusNodes(g, ns - {n});
      assert (set b | b in g.belongsTo && b.node in ns)
          == (set b | b in g.belongsTo && b.node in ns - {n}) + Candidates(g, n);
    } else {
      assert ns == {} && (set b | b in g.belongsTo && b.node in ns) == {};
    }
  }

  lemma OneNodeLoses(g: Graph, rank: Rank, k: Choice, ns: set<NodeId>, n: NodeId)
    requires ValidChoice(g, rank, k) && n in ns && n in DuplicateNodes(g)
    ensures |LosingRels(g, k, ns)| == |LosingRels(g, k, ns - {n})| + |Candidates(g, n)| - 1
  {
    var lost := LosingRels(g, k, {n});
    assert LosingRels(g, k, ns) == LosingRels(g, k, ns - {n}) + lost;
    SomeCandidate(g, n);
    assert Candidates(g, n) == lost + {BelongsTo(n, k[n])};
  }

  lemma SomeCandidate(g: Graph, n: NodeId)
    ensures |Candidates(g, n)| > 0 ==> exists b :: b in Candidates(g, n)
  {
    if forall b :: b !in Candidates(g, n) {
      assert Candidates(g, n) == {};
    }
  }

  // ---- memberships and empties: the two families of queries agree ----

  lemma IncompatibleIsPredicted(g: Graph, rank: Rank, k: Choice)
    requires ValidChoice(g, rank, k)
    ensures Incompatible(Dedup(g, k)) == ExpectedIncompatible(g, k)
  {
    DedupKeepsTheChoice(g, rank, k);
    var d := Dedup(g, k);
    forall m | m in ExpectedIncompatible(g, k) ensures m in Incompatible(d) {
      assert BelongsTo(m.node, k[m.node]) in d.belongsTo;
    }
  }

  /** A membership survives pruning unless its node kept a cluster other than a parent of its subcluster. */
  lemma PrunedMembers(g: Graph, rank: Rank, k: Choice)
    requires ValidChoice(g, rank, k)
    ensures Pruned(g, k).members == g.members - ExpectedIncompatible(g, k)
  {
    IncompatibleIsPredicted(g, rank, k);
  }

  lemma EmptyClustersArePredicted(g: Graph, rank: Rank, k: Choice)
    requires ValidChoice(g, rank, k)
    ensures EmptyClusters(WithoutEmptySubclusters(g, k)) == ExpectedEmptyClusters(g, k)
  {
    DedupKeepsTheChoice(g, rank, k);
    var w := WithoutEmptySubclusters(g, k);
    assert w.belongsTo == Dedup(g, k).belongsTo;
    forall c | c in ExpectedEmptyClusters(g, k) ensures c in EmptyClusters(w) {
    }
    forall c | c in EmptyClusters(w) ensures c in ExpectedEmptyClusters(g, k) {
      forall n | n in k ensures k[n] != c {
        assert BelongsTo(n, k[n]) in w.belongsTo;
      }
    }
  }

  lemma RemovedMembers(g: Graph, rank: Rank, k: Choice)
    requires ValidChoice(g, rank, k)
    ensures g.members - Pruned(g, k).members == ExpectedIncompatible(g, k)
  {
    PrunedMembers(g, rank, k);
  }

  lemma RemovedSubclusters(g: Graph, k: Choice)
    requires WellFormed(g)
    ensures g.subclusters - WithoutEmptySubclusters(g, k).subclusters == EmptySubclusters(Pruned(g, k))
  {
  }

  lemma RemovedClusters(g: Graph, rank: Rank, k: Choice)
    requires ValidChoice(g, rank, k)
    ensures g.clusters - Cleaned(g, k).clusters == ExpectedEmptyClusters(g, k)
  {
    EmptyClustersArePredicted(g, rank, k);
  }

  // ---- normal form ----

  /** A graph the migration has nothing to do on. */
  ghost predicate NormalForm(g: Graph) {
    && (forall b, b' :: b in g.belongsTo && b' in g.belongsTo && b.node == b'.node ==> b == b')
    && Incompatible(g) == {}
    && EmptySubclusters(g) == {}
    && EmptyClusters(g) == {}
  }

  /** Dropping empty clusters loses no BELONGS_TO and no membership. */
  lemma CleanedRelations(g: Graph, rank: Rank, k: Choice)
    requires ValidChoice(g, rank, k)
    ensures Cleaned(g, k).belongsTo == Dedup(g, k).belongsTo
    ensures Cleaned(g, k).members <= Pruned(g, k).members <= g.members
    ensures Cleaned(g, k).hasSub <= g.hasSub
  {
  }

  function HasCluster(g: Graph): set<NodeId> {
    set b | b in g.belongsTo :: b.node
  }

  lemma ReachesNormalForm(g: Graph, rank: Rank, k: Choice)
    requires WellFormed(g) && ValidChoice(g, rank, k)
    ensures NormalForm(Cleaned(g, k)) && WellFormed(Cleaned(g, k))
    ensures HasCluster(Cleaned(g, k)) == HasCluster(g)
    ensures forall b <- Cleaned(g, k).belongsTo :: IsTop(g, rank, b)
  {
    var c := Cleaned(g, k);
    CleanedRelations(g, rank, k);
    DedupKeepsTheChoice(g, rank, k);
    forall b | b in g.belongsTo ensures b.node in HasCluster(c) {
      assert BelongsTo(b.node, k[b.node]) in c.belongsTo;
    }
    assert Incompatible(c) <= Incompatible(Dedup(g, k));
    var w := WithoutEmptySubclusters(g, k);
    forall h | h in c.hasSub ensures exists m <- c.members :: m.sub == h.sub {
      assert h in w.hasSub && h.sub !in EmptySubclusters(Pruned(g, k));
    }
    forall cl | cl in c.clusters ensures exists b <- c.belongsTo :: b.cluster == cl {
      assert cl !in EmptyClusters(w);
    }
  }

  /** In other words: every membership fits the cluster of its node, and nothing is empty. */
  lemma NormalFormMeans(g: Graph)
    ensures NormalForm(g) <==>
            && (forall b, b' :: b in g.belongsTo && b' in g.belongsTo && b.node == b'.node ==> b == b')
            && (forall m, b, h ::
                  m in g.members && b in g.belongsTo && h in g.hasSub && b.node == m.node && h.sub == m.sub ==>
                  h.cluster == b.cluster)
            && (forall h <- g.hasSub :: exists m <- g.members :: m.sub == h.sub)
            && (forall c <- g.clusters :: exists b <- g.belongsTo :: b.cluster == c)
  {
    if forall h <- g.hasSub :: exists m <- g.members :: m.sub == h.sub {
      assert EmptySubclusters(g) == {};
    }
    if forall c <- g.clusters :: exists b <- g.belongsTo :: b.cluster == c {
      assert EmptyClusters(g) == {};
    }
    if EmptySubclusters(g) == {} {
      forall h | h in g.hasSub ensures exists m <- g.members :: m.sub == h.sub {
        assert h.sub !in EmptySubclusters(g);
      }
    }
    if EmptyClusters(g) == {} {
      forall c | c in g.clusters ensures exists b <- g.belongsTo :: b.cluster == c {
        assert c !in EmptyClusters(g);
      }
    }
    if Incompatible(g) == {} {
      forall m, b, h | m in g.members && b in g.belongsTo && h in g.hasSub && b.node == m.node && h.sub == m.sub
        ensures h.cluster == b.cluster {
        assert m !in Incompatible(g);
      }
    }
  }

  /** The membership stays: its node keeps no cluster, or the only one its subcluster is in. */
  predicate Stays(g: Graph, k: Choice, m: Membership) {
    m in g.members && (m.node in k ==> forall h <- g.hasSub :: h.sub == m.sub ==> h.cluster == k[m.node])
  }

  /** What is left of the graph, record by record. */
  lemma CleanedIs(g: Graph, rank: Rank, k: Choice)
    requires WellFormed(g) && ValidChoice(g, rank, k)
    ensures var c := Cleaned(g, k);
            && c.nodes == g.nodes
            && (forall b :: b in c.belongsTo <==> b.node in k && k[b.node] == b.cluster)
            && (forall m :: m in c.members <==> Stays(g, k, m))
            && (forall s :: s in c.subclusters <==>
                  && s in g.subclusters
                  && ((forall h <- g.hasSub :: h.sub != s) || exists m :: Stays(g, k, m) && m.sub == s))
            && (forall cl :: cl in c.clusters <==> cl in g.clusters && exists n <- k :: k[n] == cl)
            && (forall h :: h in c.hasSub <==>
                  h in g.hasSub && (exists m :: Stays(g, k, m) && m.sub == h.sub) && exists n <- k :: k[n] == h.cluster)
  {
    DedupKeepsTheChoice(g, rank, k);
    PrunedMembers(g, rank, k);
    EmptyClustersArePredicted(g, rank, k);
    var p, w, c := Pruned(g, k), WithoutEmptySubclusters(g, k), Cleaned(g, k);
    forall m ensures m in p.members <==> Stays(g, k, m) {
    }
    forall h | h in g.hasSub ensures h.sub in EmptySubclusters(p) <==> !(exists m :: Stays(g, k, m) && m.sub == h.sub) {
    }
    assert c.belongsTo == Dedup(g, k).belongsTo;
    assert w.members == p.members;
  }

  /** A surviving subcluster keeps its cluster exactly when some node kept that cluster. */
  lemma OrphanedExactlyWhen(g: Graph, rank: Rank, k: Choice, h: HasSubcluster)
    requires WellFormed(g) && ValidChoice(g, rank, k)
    requires h in g.hasSub && h.sub in Cleaned(g, k).subclusters
    ensures h in Cleaned(g, k).hasSub <==> exists n <- k :: k[n] == h.cluster
  {
    EmptyClustersArePredicted(g, rank, k);
    assert h in WithoutEmptySubclusters(g, k).hasSub;
    assert h in Cleaned(g, k).hasSub <==> h.cluster !in ExpectedEmptyClusters(g, k);
  }

  /** So none is orphaned, if every member node has a BELONGS_TO. */
  lemma NoSubclusterOrphaned(g: Graph, rank: Rank, k: Choice)
    requires WellFormed(g) && ValidChoice(g, rank, k)
    requires forall m <- g.members :: m.node in k
    ensures forall h <- g.hasSub :: h.sub in Cleaned(g, k).subclusters ==> h in Cleaned(g, k).hasSub
  {
    PrunedMembers(g, rank, k);
    forall h | h in g.hasSub && h.sub in Cleaned(g, k).subclusters ensures h in Cleaned(g, k).hasSub {
      assert h.sub !in EmptySubclusters(Pruned(g, k));
      var m :| m in Pruned(g, k).members && m.sub == h.sub;
      assert m.node in k && k[m.node] == h.cluster;
      OrphanedExactlyWhen(g, rank, k, h);
    }
  }

  /** A member node without a BELONGS_TO is what can orphan a subcluster. */
  lemma UnattachedMemberOrphans()
    ensures exists g, rank, k, h ::
      && WellFormed(g) && SingleParent(g) && ValidChoice(g, rank, k)
      && h in g.hasSub && h.sub in Cleaned(g, k).subclusters && h !in Cleaned(g, k).hasSub
  {
    var rank: Rank := c => 0;
    var h := HasSubcluster("a", "s");
    var m := Membership(Contains, "s", 1);
    var g := Graph({1}, {"a"}, {"s"}, {}, {h}, {m});
    var k: Choice := map[];
    assert ValidChoice(g, rank, k);
    PrunedMembers(g, rank, k);
    assert m in Pruned(g, k).members;
    assert EmptySubclusters(Pruned(g, k)) == {};
    assert "a" in EmptyClusters(WithoutEmptySubclusters(g, k));
    assert h !in Cleaned(g, k).hasSub;
    assert "s" in Cleaned(g, k).subclusters;
  }

  /** On a graph in normal form a run deletes nothing and the dry run counts nothing. */
  lemma NormalFormIsFixed(g: Graph, rank: Rank, k: Choice)
    requires WellFormed(g) && ValidChoice(g, rank, k) && NormalForm(g)
    ensures Cleaned(g, k) == g
    ensures DuplicateNodes(g) == {} && ExpectedIncompatible(g, k) == {}
    ensures ExpectedEmptySubclusters(g, k) == {} && ExpectedEmptyClusters(g, k) == {}
  {
    forall n | n in g.nodes ensures |Candidates(g, n)| <= 1 {
      if b :| b in Candidates(g, n) {
        assert Candidates(g, n) == {b};
      }
    }
    assert Dedup(g, k) == g;
    IncompatibleIsPredicted(g, rank, k);
    assert Pruned(g, k) == g;
    assert WithoutEmptySubclusters(g, k) == g;
    forall h | h in g.hasSub
      ensures exists m <- g.members :: m.sub == h.sub && (m.node !in k || k[m.node] == h.cluster) {
      assert h.sub !in EmptySubclusters(g);
      var m :| m in g.members && m.sub == h.sub;
      assert m !in ExpectedIncompatible(g, k);
    }
    EmptyClustersArePredicted(g, rank, k);
  }

  /** A second run changes nothing and reports zeros. */
  lemma SecondRunIsIdle(g: Graph, rank: Rank, k: Choice, k': Choice)
    requires WellFormed(g) && ValidChoice(g, rank, k)
    requires ValidChoice(Cleaned(g, k), rank, k')
    ensures Cleaned(Cleaned(g, k), k') == Cleaned(g, k)
    ensures SumExcess(Cleaned(g, k), DuplicateNodes(Cleaned(g, k))) == 0
    ensures ExpectedIncompatible(Cleaned(g, k), k') == {}
    ensures ExpectedEmptySubclusters(Cleaned(g, k), k') == {} && ExpectedEmptyClusters(Cleaned(g, k), k') == {}
  {
    ReachesNormalForm(g, rank, k);
    CleanedRelations(g, rank, k);
    NormalFormIsFixed(Cleaned(g, k), rank, k');
  }
}
