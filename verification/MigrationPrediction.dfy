/**
 Exactly when the dry run of the clean-up migration predicts, record by record, what
 the apply run removes, however the two runs order equal sort keys.
 */
module MigrationPrediction {
  import opened MacroGraph
  import opened MigrationProofs

  // ---- the conditions, all on the untouched graph ----

  function Parents(g: Graph, s: SubclusterId): set<ClusterId> {
    set h | h in g.hasSub && h.sub == s :: h.cluster
  }

  predicate SeveralParents(g: Graph, s: SubclusterId) {
    exists c, c' :: c in Parents(g, s) && c' in Parents(g, s) && c != c'
  }

  predicate Attached(g: Graph, n: NodeId) { exists b <- g.belongsTo :: b.node == n }

  predicate AllAttached(g: Graph, s: SubclusterId) {
    forall m <- g.members :: m.sub == s ==> Attached(g, m.node)
  }

  predicate HasMember(g: Graph, s: SubclusterId, n: NodeId) { exists m <- g.members :: m.sub == s && m.node == n }

  /** Whether the membership goes when its node keeps the given cluster. */
  predicate Doomed(g: Graph, m: Membership, c: ClusterId) {
    exists h <- g.hasSub :: h.sub == m.sub && h.cluster != c
  }

  /** Every tied top cluster of a node gives each of its memberships the same fate. */
  ghost predicate TiesAgreeOnMembers(g: Graph, rank: Rank) {
    forall m, b, b' ::
      m in g.members && IsTop(g, rank, b) && IsTop(g, rank, b') && b.node == m.node && b'.node == m.node ==>
      (Doomed(g, m, b.cluster) <==> Doomed(g, m, b'.cluster))
  }

  ghost predicate IsOnlyTop(g: Graph, rank: Rank, b: BelongsTo) {
    IsTop(g, rank, b) && forall b' :: IsTop(g, rank, b') && b'.node == b.node ==> b' == b
  }

  /** Some node has no other cluster to keep. */
  ghost predicate MustBeKept(g: Graph, rank: Rank, c: ClusterId) {
    exists n :: IsOnlyTop(g, rank, BelongsTo(n, c))
  }

  /** A cluster some node may keep is one that some node must keep. */
  ghost predicate TiesAgreeOnClusters(g: Graph, rank: Rank) {
    forall b :: IsTop(g, rank, b) ==> MustBeKept(g, rank, b.cluster)
  }

  /** A different member for every parent, of which that parent is a top cluster. */
  ghost predicate Covers(g: Graph, rank: Rank, s: SubclusterId, w: map<ClusterId, NodeId>) {
    && w.Keys == Parents(g, s)
    && (forall c <- w :: HasMember(g, s, w[c]) && IsTop(g, rank, BelongsTo(w[c], c)))
    && (forall c, c' :: c in w && c' in w && w[c] == w[c'] ==> c == c')
  }

  ghost predicate Coverable(g: Graph, rank: Rank, s: SubclusterId) { exists w :: Covers(g, rank, s, w) }

  /** The case the two empty-subcluster queries see differently. */
  ghost predicate Misjudged(g: Graph, rank: Rank, s: SubclusterId) {
    SeveralParents(g, s) && AllAttached(g, s) && Coverable(g, rank, s)
  }

  ghost predicate Predictable(g: Graph, rank: Rank) {
    && TiesAgreeOnMembers(g, rank) && TiesAgreeOnClusters(g, rank)
    && forall s :: !Misjudged(g, rank, s)
  }

  /** The dry run counts exactly the records that the apply run removes. */
  ghost predicate Predicts(g: Graph, dry: Choice, run: Choice) {
    && ExpectedIncompatible(g, dry) == g.members - Pruned(g, run).members
    && ExpectedEmptySubclusters(g, dry) == g.subclusters - WithoutEmptySubclusters(g, run).subclusters
    && ExpectedEmptyClusters(g, dry) == g.clusters - Cleaned(g, run).clusters
  }

  // ---- choices ----

  lemma KeptIsTop(g: Graph, rank: Rank, k: Choice, n: NodeId)
    requires ValidChoice(g, rank, k) && n in k
    ensures IsTop(g, rank, BelongsTo(n, k[n]))
  {
    assert BelongsTo(n, k[n]) in g.belongsTo;
  }

  /** A tied cluster can be kept instead. */
  lemma KeepInstead(g: Graph, rank: Rank, k: Choice, b: BelongsTo)
    requires ValidChoice(g, rank, k) && IsTop(g, rank, b)
    ensures ValidChoice(g, rank, k[b.node := b.cluster])
  {
  }

  lemma AttachedIsKept(g: Graph, rank: Rank, k: Choice, n: NodeId)
    requires ValidChoice(g, rank, k)
    ensures n in k <==> Attached(g, n)
  {
    if n in k {
      assert BelongsTo(n, k[n]) in g.belongsTo;
    }
  }

  // ---- memberships ----

  lemma ExpectedIsDoomed(g: Graph, k: Choice, m: Membership)
    ensures m in ExpectedIncompatible(g, k) <==> m in g.members && m.node in k && Doomed(g, m, k[m.node])
  {
  }

  /** The predicted memberships are the same for every order of equal keys iff ties agree on them. */
  lemma MembersForcedIff(g: Graph, rank: Rank, k: Choice)
    requires ValidChoice(g, rank, k)
    ensures TiesAgreeOnMembers(g, rank) <==>
            forall dry, run :: ValidChoice(g, rank, dry) && ValidChoice(g, rank, run)
              ==> ExpectedIncompatible(g, dry) == ExpectedIncompatible(g, run)
  {
    if TiesAgreeOnMembers(g, rank) {
      forall dry, run | ValidChoice(g, rank, dry) && ValidChoice(g, rank, run)
        ensures ExpectedIncompatible(g, dry) == ExpectedIncompatible(g, run) {
        MembersAgree(g, rank, dry, run);
        MembersAgree(g, rank, run, dry);
      }
    } else {
      var dry, run := MembersDiffer(g, rank, k);
    }
  }

  lemma MembersDiffer(g: Graph, rank: Rank, k: Choice) returns (dry: Choice, run: Choice)
    requires ValidChoice(g, rank, k) && !TiesAgreeOnMembers(g, rank)
    ensures ValidChoice(g, rank, dry) && ValidChoice(g, rank, run)
    ensures ExpectedIncompatible(g, dry) != ExpectedIncompatible(g, run)
  {
    var m, b, b' :| m in g.members && IsTop(g, rank, b) && IsTop(g, rank, b') && b.node == m.node && b'.node == m.node
      && !(Doomed(g, m, b.cluster) <==> Doomed(g, m, b'.cluster));
    KeepInstead(g, rank, k, b);
    KeepInstead(g, rank, k, b');
    dry, run := k[m.node := b.cluster], k[m.node := b'.cluster];
    ExpectedIsDoomed(g, dry, m);
    ExpectedIsDoomed(g, run, m);
  }

  lemma MembersAgree(g: Graph, rank: Rank, k: Choice, k': Choice)
    requires TiesAgreeOnMembers(g, rank) && ValidChoice(g, rank, k) && ValidChoice(g, rank, k')
    ensures ExpectedIncompatible(g, k) <= ExpectedIncompatible(g, k')
  {
    forall m | m in ExpectedIncompatible(g, k) ensures m in ExpectedIncompatible(g, k') {
      ExpectedIsDoomed(g, k, m);
      ExpectedIsDoomed(g, k', m);
      AttachedIsKept(g, rank, k, m.node);
      AttachedIsKept(g, rank, k', m.node);
      KeptIsTop(g, rank, k, m.node);
      KeptIsTop(g, rank, k', m.node);
      var b, b' := BelongsTo(m.node, k[m.node]), BelongsTo(m.node, k'[m.node]);
      assert Doomed(g, m, b.cluster) <==> Doomed(g, m, b'.cluster);
    }
  }

  // ---- how many memberships of each kind ----

  /** The memberships of one node that go when it keeps the given cluster. */
  function DoomedOf(g: Graph, n: NodeId, kind: Kind, c: ClusterId): set<Membership> {
    set m | m in g.members && m.node == n && m.kind == kind && Doomed(g, m, c)
  }

  /** Every tied top cluster of a node dooms as many of its memberships of each kind. */
  ghost predicate TiesAgreeOnCounts(g: Graph, rank: Rank) {
    forall b, b', kind :: IsTop(g, rank, b) && IsTop(g, rank, b') && b.node == b'.node ==>
      |DoomedOf(g, b.node, kind, b.cluster)| == |DoomedOf(g, b.node, kind, b'.cluster)|
  }

  function ExpectedOfKind(g: Graph, k: Choice, kind: Kind): set<Membership> { OfKind(ExpectedIncompatible(g, k), kind) }

  ghost predicate SameCounts(g: Graph, k: Choice, k': Choice) {
    forall kind :: |ExpectedOfKind(g, k, kind)| == |ExpectedOfKind(g, k', kind)|
  }

  /** Keeping another cluster for one node changes the count by that node's memberships only. */
  lemma CountAtNode(g: Graph, k: Choice, n: NodeId, c: ClusterId, kind: Kind)
    requires n in k
    ensures |ExpectedOfKind(g, k[n := c], kind)| - |DoomedOf(g, n, kind, c)|
         == |ExpectedOfKind(g, k, kind)| - |DoomedOf(g, n, kind, k[n])|
  {
    var others := set m | m in ExpectedOfKind(g, k, kind) && m.node != n;
    assert ExpectedOfKind(g, k, kind) == others + DoomedOf(g, n, kind, k[n]);
    assert ExpectedOfKind(g, k[n := c], kind) == others + DoomedOf(g, n, kind, c);
  }

  /** One choice is turned into another node by node. */
  lemma CountsAgree(g: Graph, rank: Rank, k: Choice, k': Choice, ns: set<NodeId>)
    requires TiesAgreeOnCounts(g, rank) && ValidChoice(g, rank, k) && ValidChoice(g, rank, k')
    requires forall n <- k :: n in ns || (n in k' && k[n] == k'[n])
    ensures SameCounts(g, k, k')
    decreases ns
  {
    if n :| n in ns {
      if n in k {
        AttachedIsKept(g, rank, k, n);
        AttachedIsKept(g, rank, k', n);
        KeptIsTop(g, rank, k, n);
        KeptIsTop(g, rank, k', n);
        var c := k'[n];
        KeepInstead(g, rank, k, BelongsTo(n, c));
        CountsAgree(g, rank, k[n := c], k', ns - {n});
        CountsAtTies(g, rank, k, n, c);
      } else {
        CountsAgree(g, rank, k, k', ns - {n});
      }
    } else {
      SameKeys(g, rank, k, k');
      forall n | n in k ensures k[n] == k'[n] {
        assert n !in ns;
      }
      assert k == k';
    }
  }

  lemma CountsAtTies(g: Graph, rank: Rank, k: Choice, n: NodeId, c: ClusterId)
    requires TiesAgreeOnCounts(g, rank) && n in k
    requires IsTop(g, rank, BelongsTo(n, k[n])) && IsTop(g, rank, BelongsTo(n, c))
    ensures SameCounts(g, k, k[n := c])
  {
    var b, b' := BelongsTo(n, k[n]), BelongsTo(n, c);
    forall kind ensures |ExpectedOfKind(g, k, kind)| == |ExpectedOfKind(g, k[n := c], kind)| {
      CountAtNode(g, k, n, c, kind);
      assert |DoomedOf(g, b.node, kind, b.cluster)| == |DoomedOf(g, b.node, kind, b'.cluster)|;
    }
  }

  lemma SameKeys(g: Graph, rank: Rank, k: Choice, k': Choice)
    requires ValidChoice(g, rank, k) && ValidChoice(g, rank, k')
    ensures k.Keys == k'.Keys
  {
    forall n ensures n in k <==> n in k' {
      AttachedIsKept(g, rank, k, n);
      AttachedIsKept(g, rank, k', n);
    }
  }

  lemma CountsDiffer(g: Graph, rank: Rank, k: Choice) returns (dry: Choice, run: Choice)
    requires ValidChoice(g, rank, k) && !TiesAgreeOnCounts(g, rank)
    ensures ValidChoice(g, rank, dry) && ValidChoice(g, rank, run) && !SameCounts(g, dry, run)
  {
    var b, b', kind :| IsTop(g, rank, b) && IsTop(g, rank, b') && b.node == b'.node
      && |DoomedOf(g, b.node, kind, b.cluster)| != |DoomedOf(g, b.node, kind, b'.cluster)|;
    KeepInstead(g, rank, k, b);
    KeepInstead(g, rank, k, b');
    dry, run := k[b.node := b.cluster], k[b.node := b'.cluster];
    CountAtNode(g, dry, b.node, b'.cluster, kind);
    assert dry[b.node := b'.cluster] == run;
  }

  /**
   The two membership counts of the report are right for all orders of equal keys iff
   the tied top clusters of each node doom as many of its memberships of each kind.
   */
  lemma MemberCountsExactIff(g: Graph, rank: Rank, k: Choice)
    requires ValidChoice(g, rank, k)
    ensures TiesAgreeOnCounts(g, rank) <==>
            forall dry, run, kind :: ValidChoice(g, rank, dry) && ValidChoice(g, rank, run) ==>
              |ExpectedOfKind(g, dry, kind)| == |OfKind(g.members - Pruned(g, run).members, kind)|
  {
    if TiesAgreeOnCounts(g, rank) {
      forall dry, run, kind | ValidChoice(g, rank, dry) && ValidChoice(g, rank, run)
        ensures |ExpectedOfKind(g, dry, kind)| == |OfKind(g.members - Pruned(g, run).members, kind)| {
        RemovedMembers(g, rank, run);
        CountsAgree(g, rank, dry, run, dry.Keys);
      }
    } else {
      var dry, run := CountsDiffer(g, rank, k);
      RemovedMembers(g, rank, run);
    }
  }

  // ---- clusters ----

  /** The predicted empty clusters are the same for every order of equal keys iff ties agree on them. */
  lemma ClustersForcedIff(g: Graph, rank: Rank, k: Choice)
    requires WellFormed(g) && ValidChoice(g, rank, k)
    ensures TiesAgreeOnClusters(g, rank) <==>
            forall dry, run :: ValidChoice(g, rank, dry) && ValidChoice(g, rank, run)
              ==> ExpectedEmptyClusters(g, dry) == ExpectedEmptyClusters(g, run)
  {
    if TiesAgreeOnClusters(g, rank) {
      forall dry, run | ValidChoice(g, rank, dry) && ValidChoice(g, rank, run)
        ensures ExpectedEmptyClusters(g, dry) == ExpectedEmptyClusters(g, run) {
        ClustersAgree(g, rank, dry, run);
        ClustersAgree(g, rank, run, dry);
      }
    } else {
      var dry, run := ClustersDiffer(g, rank, k);
    }
  }

  lemma ClustersDiffer(g: Graph, rank: Rank, k: Choice) returns (dry: Choice, run: Choice)
    requires WellFormed(g) && ValidChoice(g, rank, k) && !TiesAgreeOnClusters(g, rank)
    ensures ValidChoice(g, rank, dry) && ValidChoice(g, rank, run)
    ensures ExpectedEmptyClusters(g, dry) != ExpectedEmptyClusters(g, run)
  {
    var b :| IsTop(g, rank, b) && !MustBeKept(g, rank, b.cluster);
    run := Avoiding(g, rank, k, b.cluster, g.nodes);
    dry := k[b.node := b.cluster];
    KeepInstead(g, rank, k, b);
    assert dry[b.node] == b.cluster;
    forall n | n in run ensures run[n] != b.cluster {
      assert BelongsTo(n, run[n]) in g.belongsTo;
    }
    assert b.cluster in ExpectedEmptyClusters(g, run);
  }

  lemma ClustersAgree(g: Graph, rank: Rank, k: Choice, k': Choice)
    requires TiesAgreeOnClusters(g, rank) && ValidChoice(g, rank, k) && ValidChoice(g, rank, k')
    ensures ExpectedEmptyClusters(g, k) <= ExpectedEmptyClusters(g, k')
  {
    forall n | n in k' ensures k'[n] !in ExpectedEmptyClusters(g, k) {
      KeptIsTop(g, rank, k', n);
      TopIsKept(g, rank, k, BelongsTo(n, k'[n]));
    }
  }

  lemma TopIsKept(g: Graph, rank: Rank, k: Choice, b: BelongsTo)
    requires TiesAgreeOnClusters(g, rank) && ValidChoice(g, rank, k) && IsTop(g, rank, b)
    ensures exists n <- k :: k[n] == b.cluster
  {
    var n :| IsOnlyTop(g, rank, BelongsTo(n, b.cluster));
    AttachedIsKept(g, rank, k, n);
    KeptIsTop(g, rank, k, n);
    assert k[n] == b.cluster;
  }

  /** A choice by which none of the given nodes keeps a cluster that is the only top of none. */
  lemma Avoiding(g: Graph, rank: Rank, k: Choice, c: ClusterId, ns: set<NodeId>) returns (k': Choice)
    requires ValidChoice(g, rank, k) && !MustBeKept(g, rank, c)
    ensures ValidChoice(g, rank, k') && forall n <- ns :: n in k' ==> k'[n] != c
    decreases ns
  {
    k' := k;
    if exists n :: n in ns {
      var n :| n in ns;
      k' := Avoiding(g, rank, k, c, ns - {n});
      if n in k' && k'[n] == c {
        KeptIsTop(g, rank, k', n);
        assert !IsOnlyTop(g, rank, BelongsTo(n, c));
        var b :| IsTop(g, rank, b) && b.node == n && b != BelongsTo(n, c);
        KeepInstead(g, rank, k', b);
        k' := k'[n := b.cluster];
      }
    }
  }

  // ---- subclusters ----

  /** The clusters kept by the members of the subcluster. */
  function KeptBy(g: Graph, k: Choice, s: SubclusterId): set<ClusterId> {
    set m | m in g.members && m.sub == s && m.node in k :: k[m.node]
  }

  /** For one choice the two queries disagree on a subcluster exactly in this case. */
  lemma SubclusterJudgedIff(g: Graph, rank: Rank, k: Choice, s: SubclusterId)
    requires ValidChoice(g, rank, k)
    ensures (s in EmptySubclusters(Pruned(g, k)) <==> s in ExpectedEmptySubclusters(g, k)) <==>
            !(SeveralParents(g, s) && AllAttached(g, s) && Parents(g, s) <= KeptBy(g, k, s))
  {
    EmptyWhen(g, rank, k, s);
    ExpectedEmptyWhen(g, rank, k, s);
    MemberFate(g, k, s);
  }

  /** All members go iff none keeps a sole parent. */
  lemma MemberFate(g: Graph, k: Choice, s: SubclusterId)
    ensures SeveralParents(g, s) ==>
              forall m <- g.members :: m.sub == s && m.node in k ==> Doomed(g, m, k[m.node])
    ensures !SeveralParents(g, s) ==>
              forall m <- g.members, c <- Parents(g, s) :: m.sub == s && m.node in k ==>
                (Doomed(g, m, k[m.node]) <==> k[m.node] != c)
  {
    forall m | m in g.members && m.sub == s && m.node in k && SeveralParents(g, s) ensures Doomed(g, m, k[m.node]) {
      var c, c' :| c in Parents(g, s) && c' in Parents(g, s) && c != c';
      assert HasSubcluster(c, s) in g.hasSub && HasSubcluster(c', s) in g.hasSub;
    }
    forall m, c | m in g.members && c in Parents(g, s) && m.sub == s && m.node in k && !SeveralParents(g, s)
      ensures Doomed(g, m, k[m.node]) <==> k[m.node] != c {
      assert HasSubcluster(c, s) in g.hasSub;
      assert forall h <- g.hasSub :: h.sub == s ==> h.cluster in Parents(g, s);
    }
  }

  lemma EmptyWhen(g: Graph, rank: Rank, k: Choice, s: SubclusterId)
    requires ValidChoice(g, rank, k)
    ensures s in EmptySubclusters(Pruned(g, k)) <==>
            Parents(g, s) != {} && AllAttached(g, s)
            && forall m <- g.members :: m.sub == s ==> m.node in k && Doomed(g, m, k[m.node])
  {
    PrunedMembers(g, rank, k);
    MembersAttached(g, rank, k, s);
    var p := Pruned(g, k);
    forall m | m in g.members ensures m in p.members <==> !(m.node in k && Doomed(g, m, k[m.node])) {
      ExpectedIsDoomed(g, k, m);
    }
    assert p.hasSub == g.hasSub && p.members <= g.members;
    if s in EmptySubclusters(p) {
      var h :| h in p.hasSub && h.sub == s && forall m <- p.members :: m.sub != h.sub;
      assert h.cluster in Parents(g, s);
      assert forall m <- g.members :: m.sub == s ==> m !in p.members;
    }
    if Parents(g, s) != {} && forall m <- g.members :: m.sub == s ==> m.node in k && Doomed(g, m, k[m.node]) {
      var c :| c in Parents(g, s);
      assert HasSubcluster(c, s) in p.hasSub && HasSubcluster(c, s).sub == s;
      assert forall m <- p.members :: m.sub != s;
    }
  }

  lemma ExpectedEmptyWhen(g: Graph, rank: Rank, k: Choice, s: SubclusterId)
    requires ValidChoice(g, rank, k)
    ensures s in ExpectedEmptySubclusters(g, k) <==> AllAttached(g, s) && !(Parents(g, s) <= KeptBy(g, k, s))
  {
    MembersAttached(g, rank, k, s);
    if s in ExpectedEmptySubclusters(g, k) {
      var h :| h in g.hasSub && h.sub == s &&
               !(exists m <- g.members :: m.sub == h.sub && (m.node !in k || k[m.node] == h.cluster));
      assert h.cluster in Parents(g, s) && h.cluster !in KeptBy(g, k, s);
    }
    if !(Parents(g, s) <= KeptBy(g, k, s)) && AllAttached(g, s) {
      var c :| c in Parents(g, s) && c !in KeptBy(g, k, s);
      var h := HasSubcluster(c, s);
      assert h in g.hasSub;
      assert !(exists m <- g.members :: m.sub == h.sub && (m.node !in k || k[m.node] == h.cluster));
      assert h.sub in ExpectedEmptySubclusters(g, k);
    }
  }

  lemma MembersAttached(g: Graph, rank: Rank, k: Choice, s: SubclusterId)
    requires ValidChoice(g, rank, k)
    ensures AllAttached(g, s) <==> forall m <- g.members :: m.sub == s ==> m.node in k
  {
    forall m | m in g.members && m.sub == s ensures m.node in k <==> Attached(g, m.node) {
      AttachedIsKept(g, rank, k, m.node);
    }
  }

  /** Some order of equal keys makes the members keep every parent iff there is a different member for each. */
  lemma CoverableIff(g: Graph, rank: Rank, k: Choice, s: SubclusterId)
    requires ValidChoice(g, rank, k)
    ensures Coverable(g, rank, s) <==> exists k' :: ValidChoice(g, rank, k') && Parents(g, s) <= KeptBy(g, k', s)
  {
    if Coverable(g, rank, s) {
      var w :| Covers(g, rank, s, w);
      var k' := KeepCovers(g, rank, k, s, w, Parents(g, s));
    }
    forall k' | ValidChoice(g, rank, k') && Parents(g, s) <= KeptBy(g, k', s) ensures Coverable(g, rank, s) {
      CoverKept(g, rank, k', s);
    }
  }

  lemma CoverKept(g: Graph, rank: Rank, k: Choice, s: SubclusterId)
    requires ValidChoice(g, rank, k) && Parents(g, s) <= KeptBy(g, k, s)
    ensures Coverable(g, rank, s)
  {
    var w := CoverOf(g, rank, k, s, Parents(g, s));
    assert Covers(g, rank, s, w);
  }

  /** The members standing for the given parents can keep them all. */
  lemma KeepCovers(g: Graph, rank: Rank, k: Choice, s: SubclusterId, w: map<ClusterId, NodeId>, cs: set<ClusterId>)
    returns (k': Choice)
    requires ValidChoice(g, rank, k) && Covers(g, rank, s, w) && cs <= w.Keys
    ensures ValidChoice(g, rank, k') && forall c <- cs :: w[c] in k' && k'[w[c]] == c
    ensures cs <= KeptBy(g, k', s)
    decreases cs
  {
    k' := k;
    if exists c :: c in cs {
      var c :| c in cs;
      k' := KeepCovers(g, rank, k, s, w, cs - {c});
      KeepInstead(g, rank, k', BelongsTo(w[c], c));
      k' := k'[w[c] := c];
    }
    forall c | c in cs ensures c in KeptBy(g, k', s) {
      assert HasMember(g, s, w[c]);
    }
  }

  lemma CoverOf(g: Graph, rank: Rank, k: Choice, s: SubclusterId, cs: set<ClusterId>)
    returns (w: map<ClusterId, NodeId>)
    requires ValidChoice(g, rank, k) && cs <= KeptBy(g, k, s)
    ensures w.Keys == cs
    ensures forall c <- w :: HasMember(g, s, w[c]) && IsTop(g, rank, BelongsTo(w[c], c)) && w[c] in k && k[w[c]] == c
    ensures forall c, c' :: c in w && c' in w && w[c] == w[c'] ==> c == c'
    decreases cs
  {
    w := map[];
    if exists c :: c in cs {
      var c :| c in cs;
      w := CoverOf(g, rank, k, s, cs - {c});
      var m :| m in g.members && m.sub == s && m.node in k && k[m.node] == c;
      KeptIsTop(g, rank, k, m.node);
      w := w[c := m.node];
    }
  }

  // ---- all together ----

  /**
   Whichever way the dry run and the apply run order equal keys, the dry run counts
   exactly the records removed iff the graph is predictable.
   */
  lemma PredictionIsExactIff(g: Graph, rank: Rank, k: Choice)
    requires WellFormed(g) && ValidChoice(g, rank, k)
    ensures Predictable(g, rank) <==>
            forall dry, run :: ValidChoice(g, rank, dry) && ValidChoice(g, rank, run) ==> Predicts(g, dry, run)
  {
    if Predictable(g, rank) {
      forall dry, run | ValidChoice(g, rank, dry) && ValidChoice(g, rank, run) ensures Predicts(g, dry, run) {
        PredictableIsPredicted(g, rank, dry, run);
      }
    }
    if !Predictable(g, rank) {
      var dry, run := SomePredictionMisses(g, rank, k);
    }
  }

  lemma PredictableIsPredicted(g: Graph, rank: Rank, dry: Choice, run: Choice)
    requires WellFormed(g) && Predictable(g, rank)
    requires ValidChoice(g, rank, dry) && ValidChoice(g, rank, run)
    ensures Predicts(g, dry, run)
  {
    MembersAgree(g, rank, dry, run);
    MembersAgree(g, rank, run, dry);
    ClustersAgree(g, rank, dry, run);
    ClustersAgree(g, rank, run, dry);
    RemovedMembers(g, rank, run);
    RemovedClusters(g, rank, run);
    RemovedSubclusters(g, run);
    EmptiesForced(g, rank, dry, run);
    EmptiesPredicted(g, rank, dry);
  }

  lemma EmptiesForced(g: Graph, rank: Rank, k: Choice, k': Choice)
    requires ValidChoice(g, rank, k) && ValidChoice(g, rank, k')
    requires ExpectedIncompatible(g, k) == ExpectedIncompatible(g, k')
    ensures EmptySubclusters(Pruned(g, k)) == EmptySubclusters(Pruned(g, k'))
  {
    PrunedMembers(g, rank, k);
    PrunedMembers(g, rank, k');
  }

  lemma EmptiesPredicted(g: Graph, rank: Rank, k: Choice)
    requires ValidChoice(g, rank, k) && forall s :: !Misjudged(g, rank, s)
    ensures EmptySubclusters(Pruned(g, k)) == ExpectedEmptySubclusters(g, k)
  {
    forall s ensures s in EmptySubclusters(Pruned(g, k)) <==> s in ExpectedEmptySubclusters(g, k) {
      JudgedRight(g, rank, k, s);
    }
  }

  lemma JudgedRight(g: Graph, rank: Rank, k: Choice, s: SubclusterId)
    requires ValidChoice(g, rank, k) && !Misjudged(g, rank, s)
    ensures s in EmptySubclusters(Pruned(g, k)) <==> s in ExpectedEmptySubclusters(g, k)
  {
    SubclusterJudgedIff(g, rank, k, s);
    if Parents(g, s) <= KeptBy(g, k, s) {
      CoverKept(g, rank, k, s);
    }
  }

  /** Otherwise some two orders of equal keys miss. */
  lemma SomePredictionMisses(g: Graph, rank: Rank, k: Choice) returns (dry: Choice, run: Choice)
    requires WellFormed(g) && ValidChoice(g, rank, k) && !Predictable(g, rank)
    ensures ValidChoice(g, rank, dry) && ValidChoice(g, rank, run) && !Predicts(g, dry, run)
  {
    if !TiesAgreeOnMembers(g, rank) {
      dry, run := MembersDiffer(g, rank, k);
      RemovedMembers(g, rank, run);
    } else if !TiesAgreeOnClusters(g, rank) {
      dry, run := ClustersDiffer(g, rank, k);
      RemovedClusters(g, rank, run);
    } else {
      var s :| Misjudged(g, rank, s);
      dry := MisjudgedBy(g, rank, k, s);
      run := dry;
    }
  }

  lemma MisjudgedBy(g: Graph, rank: Rank, k: Choice, s: SubclusterId) returns (k': Choice)
    requires WellFormed(g) && ValidChoice(g, rank, k) && Misjudged(g, rank, s)
    ensures ValidChoice(g, rank, k') && !Predicts(g, k', k')
  {
    CoverableIff(g, rank, k, s);
    k' :| ValidChoice(g, rank, k') && Parents(g, s) <= KeptBy(g, k', s);
    RemovedSubclusters(g, k');
    SubclusterJudgedIff(g, rank, k', s);
  }

  /** So every count of the dry run is what the apply run removes, for any two orders of equal keys. */
  lemma DryRunPredictsApply(g: Graph, rank: Rank, dry: Choice, run: Choice)
    requires WellFormed(g) && Predictable(g, rank)
    requires ValidChoice(g, rank, dry) && ValidChoice(g, rank, run)
    ensures SumExcess(g, DuplicateNodes(g)) == |g.belongsTo - Dedup(g, run).belongsTo|
    ensures forall kind :: OfKind(ExpectedIncompatible(g, dry), kind)
                        == OfKind(g.members - Pruned(g, run).members, kind)
    ensures ExpectedEmptySubclusters(g, dry) == g.subclusters - WithoutEmptySubclusters(g, run).subclusters
    ensures ExpectedEmptyClusters(g, dry) == g.clusters - Cleaned(g, run).clusters
  {
    ExcessIsWhatDedupDeletes(g, rank, run);
    PredictableIsPredicted(g, rank, dry, run);
  }

  /** One parent per subcluster and no tie at the top is more than is needed. */
  lemma PlainGraphsArePredictable(g: Graph, rank: Rank)
    requires SingleParent(g) && NoTopTie(g, rank)
    ensures Predictable(g, rank)
  {
    forall b | IsTop(g, rank, b) ensures IsOnlyTop(g, rank, BelongsTo(b.node, b.cluster)) {
      assert b == BelongsTo(b.node, b.cluster);
    }
    forall s ensures !SeveralParents(g, s) {
    }
  }

  // ---- examples ----

  /** With a tie at the top the prediction can miss: two valid choices prune different memberships. */
  lemma TopTieBreaksPrediction()
    ensures exists g, rank, dry, run ::
      && WellFormed(g) && SingleParent(g) && ValidChoice(g, rank, dry) && ValidChoice(g, rank, run)
      && |ExpectedIncompatible(g, dry)| != |g.members - Pruned(g, run).members|
  {
    var rank: Rank := c => 0;
    var m := Membership(Contains, "s", 1);
    var g := Graph({1}, {"a", "bb"}, {"s"}, {BelongsTo(1, "a"), BelongsTo(1, "bb")}, {HasSubcluster("a", "s")}, {m});
    var dry: Choice, run: Choice := map[1 := "a"], map[1 := "bb"];
    assert ValidChoice(g, rank, dry) && ValidChoice(g, rank, run);
    assert ExpectedIncompatible(g, dry) == {};
    PrunedMembers(g, rank, run);
    assert HasSubcluster("a", "s") in g.hasSub;
    assert ExpectedIncompatible(g, run) == {m};
    assert g.members - Pruned(g, run).members == {m};
  }

  const TWO_PARENTS := Graph(
    {1, 2}, {"a", "bb"}, {"s"},
    {BelongsTo(1, "a"), BelongsTo(2, "bb")},
    {HasSubcluster("a", "s"), HasSubcluster("bb", "s")},
    {Membership(Contains, "s", 1), Membership(Contains, "s", 2)})

  const TWO_PARENTS_CHOICE: Choice := map[1 := "a", 2 := "bb"]

  lemma TwoParentsValid(rank: Rank)
    ensures ValidChoice(TWO_PARENTS, rank, TWO_PARENTS_CHOICE) && NoTopTie(TWO_PARENTS, rank)
  {
    var b1, b2 := BelongsTo(1, "a"), BelongsTo(2, "bb");
    assert b1 in TWO_PARENTS.belongsTo && b2 in TWO_PARENTS.belongsTo;
    assert forall b <- TWO_PARENTS.belongsTo :: b == b1 || b == b2;
  }

  /** With two parents the empty-subcluster count misses as well, whatever the rank. */
  lemma SecondParentBreaksPrediction(rank: Rank)
    ensures ValidChoice(TWO_PARENTS, rank, TWO_PARENTS_CHOICE) && NoTopTie(TWO_PARENTS, rank)
    ensures "s" in EmptySubclusters(Pruned(TWO_PARENTS, TWO_PARENTS_CHOICE))
    ensures "s" !in ExpectedEmptySubclusters(TWO_PARENTS, TWO_PARENTS_CHOICE)
  {
    var g, k := TWO_PARENTS, TWO_PARENTS_CHOICE;
    TwoParentsValid(rank);
    var toA, toB := HasSubcluster("a", "s"), HasSubcluster("bb", "s");
    var m1, m2 := Membership(Contains, "s", 1), Membership(Contains, "s", 2);
    assert toA in g.hasSub && toB in g.hasSub && m1 in g.members && m2 in g.members;
    RemovedMembers(g, rank, k);
    assert m1 in ExpectedIncompatible(g, k) && m2 in ExpectedIncompatible(g, k);
    assert Pruned(g, k).members == {};
  }
}
