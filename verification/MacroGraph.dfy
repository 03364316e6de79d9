/**
 The stored macro graph of one user, and the Cypher queries of the clean-up
 migration written as set comprehensions over it.

 Every node and cluster is taken to hang off the user's graph root, as every
 upsert of the adapter links it there.
 */
module MacroGraph {

  type NodeId = int
  type ClusterId = string
  type SubclusterId = string

  datatype BelongsTo = BelongsTo(node: NodeId, cluster: ClusterId)
  datatype HasSubcluster = HasSubcluster(cluster: ClusterId, sub: SubclusterId)
  datatype Kind = Contains | Represents
  datatype Membership = Membership(kind: Kind, sub: SubclusterId, node: NodeId)

  datatype Graph = Graph(
    nodes: set<NodeId>,
    clusters: set<ClusterId>,
    subclusters: set<SubclusterId>,
    belongsTo: set<BelongsTo>,
    hasSub: set<HasSubcluster>,
    members: set<Membership>)

  /** The sort key `toInteger(split(id, '_')[1])`; a null key is any value above the numeric ones. */
  type Rank = ClusterId -> int

  /** The cluster each node keeps: the head of its candidates sorted by descending rank. */
  type Choice = map<NodeId, ClusterId>

  predicate WellFormed(g: Graph) {
    && (forall b <- g.belongsTo :: b.node in g.nodes && b.cluster in g.clusters)
    && (forall h <- g.hasSub :: h.cluster in g.clusters && h.sub in g.subclusters)
    && (forall m <- g.members :: m.sub in g.subclusters && m.node in g.nodes)
  }

  predicate SingleParent(g: Graph) {
    forall h, h' :: h in g.hasSub && h' in g.hasSub && h.sub == h'.sub ==> h == h'
  }

  /** Sorting leaves ties in any order, so several choices may be valid for one graph. */
  ghost predicate ValidChoice(g: Graph, rank: Rank, k: Choice) {
    && (forall n <- k :: BelongsTo(n, k[n]) in g.belongsTo)
    && (forall b <- g.belongsTo :: b.node in k && rank(b.cluster) <= rank(k[b.node]))
  }

  predicate IsTop(g: Graph, rank: Rank, b: BelongsTo) {
    b in g.belongsTo && forall b' <- g.belongsTo :: b'.node == b.node ==> rank(b'.cluster) <= rank(b.cluster)
  }

  /** No node has two top-ranked candidate clusters. */
  ghost predicate NoTopTie(g: Graph, rank: Rank) {
    forall b, b' :: IsTop(g, rank, b) && IsTop(g, rank, b') && b.node == b'.node ==> b == b'
  }

  // ---- duplicate BELONGS_TO ----

  function Candidates(g: Graph, n: NodeId): set<BelongsTo> {
    set b | b in g.belongsTo && b.node == n
  }

  function DuplicateNodes(g: Graph): set<NodeId> {
    set n | n in g.nodes && |Candidates(g, n)| > 1
  }

  /** `sum(relCount - 1)` over the given nodes. */
  ghost function SumExcess(g: Graph, ns: set<NodeId>): int {
    if exists n :: n in ns then
      var n :| n in ns;
      |Candidates(g, n)| - 1 + SumExcess(g, ns - {n})
    else 0
  }

  /** The relationships deduplicateBelongsTo deletes. */
  function DuplicateRels(g: Graph, k: Choice): set<BelongsTo> {
    set b | b in g.belongsTo && b.node in k && |Candidates(g, b.node)| > 1 && b.cluster != k[b.node]
  }

  function Dedup(g: Graph, k: Choice): Graph {
    g.(belongsTo := g.belongsTo - DuplicateRels(g, k))
  }

  // ---- incompatible memberships ----

  /** What the prune query matches on the graph as it stands. */
  function Incompatible(g: Graph): set<Membership> {
    set m | m in g.members &&
      exists b <- g.belongsTo, h <- g.hasSub :: b.node == m.node && h.sub == m.sub && h.cluster != b.cluster
  }

  /** What the dry run counts on the graph before deduplication. */
  function ExpectedIncompatible(g: Graph, k: Choice): set<Membership> {
    set m | m in g.members && m.node in k &&
      exists h <- g.hasSub :: h.sub == m.sub && h.cluster != k[m.node]
  }

  function OfKind(ms: set<Membership>, kind: Kind): set<Membership> {
    set m | m in ms && m.kind == kind
  }

  function Prune(g: Graph, batch: set<Membership>): Graph {
    g.(members := g.members - batch)
  }

  // ---- empty subclusters and clusters ----

  function EmptySubclusters(g: Graph): set<SubclusterId> {
    set h | h in g.hasSub && (forall m <- g.members :: m.sub != h.sub) :: h.sub
  }

  function EmptyClusters(g: Graph): set<ClusterId> {
    set c | c in g.clusters && forall b <- g.belongsTo :: b.cluster != c
  }

  function ExpectedEmptySubclusters(g: Graph, k: Choice): set<SubclusterId> {
    set h | h in g.hasSub &&
            !(exists m <- g.members :: m.sub == h.sub && (m.node !in k || k[m.node] == h.cluster)) :: h.sub
  }

  function ExpectedEmptyClusters(g: Graph, k: Choice): set<ClusterId> {
    set c | c in g.clusters && forall n <- k :: k[n] != c
  }

  /** DETACH DELETE of subclusters takes their relationships with them. */
  function DropSubclusters(g: Graph, ss: set<SubclusterId>): Graph {
    g.(subclusters := g.subclusters - ss,
       hasSub := (set h | h in g.hasSub && h.sub !in ss),
       members := (set m | m in g.members && m.sub !in ss))
  }

  function DropClusters(g: Graph, cs: set<ClusterId>): Graph {
    g.(clusters := g.clusters - cs,
       hasSub := (set h | h in g.hasSub && h.cluster !in cs),
       belongsTo := (set b | b in g.belongsTo && b.cluster !in cs))
  }

  // ---- the whole clean-up ----

  function Pruned(g: Graph, k: Choice): Graph {
    Prune(Dedup(g, k), Incompatible(Dedup(g, k)))
  }

  function WithoutEmptySubclusters(g: Graph, k: Choice): Graph {
    DropSubclusters(Pruned(g, k), EmptySubclusters(Pruned(g, k)))
  }

  function Cleaned(g: Graph, k: Choice): Graph {
    DropClusters(WithoutEmptySubclusters(g, k), EmptyClusters(WithoutEmptySubclusters(g, k)))
  }
}
