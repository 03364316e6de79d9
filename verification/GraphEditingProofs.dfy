/**
 What every sequence of edits keeps, what deleting a cluster with its nodes leaves,
 and which edits undo each other.
 */
module GraphEditingProofs {
  import opened RelationType
  import opened GraphEditing

  // ---- deleting nodes ----

  ghost predicate NodesOutside(nodes: map<NodeId, Node>, nodes': map<NodeId, Node>, ids: set<NodeId>) {
    forall n :: (Live(nodes', n) <==> Live(nodes, n) && n !in ids) && (Live(nodes', n) ==> nodes'[n] == nodes[n])
  }

  ghost predicate EdgesOutside(edges: map<EdgeId, Edge>, edges': map<EdgeId, Edge>, ids: set<NodeId>) {
    forall e :: (Linked(edges', e) <==> Linked(edges, e) && edges[e].source !in ids && edges[e].target !in ids)
             && (Linked(edges', e) ==> edges'[e] == edges[e])
  }

  ghost predicate ClustersOutside(clusters: map<ClusterId, Cluster>, clusters': map<ClusterId, Cluster>, c: ClusterId) {
    forall d :: (Open(clusters', d) <==> Open(clusters, d) && d != c)
             && (Open(clusters', d) ==> clusters'[d] == clusters[d])
  }

  ghost predicate SubsOutside(g: Graph, g': Graph, ids: set<NodeId>) {
    && (forall s :: g'.HasSub(s) <==> g.HasSub(s))
    && (forall s | g'.HasSub(s) :: ActiveMembers(g', s) == ActiveMembers(g, s) - ids)
  }

  lemma DroppingEdges(g: Graph, ids: set<NodeId>, permanent: bool)
    ensures EdgesOutside(g.edges, WithoutEdges(g, ids, permanent).edges, ids)
  {
  }

  lemma DroppingEdgesKeepsThemClean(g: Graph, ids: set<NodeId>, permanent: bool)
    requires CleanEdges(g.edges, g.nodes.Keys)
    ensures CleanEdges(WithoutEdges(g, ids, permanent).edges, if permanent then g.nodes.Keys - ids else g.nodes.Keys)
  {
  }

  /** Deleting nodes leaves the subgraph induced by the others. */
  lemma DeletingNodesInduces(g: Graph, ids: set<NodeId>, permanent: bool)
    ensures var g' := WithoutNodes(g, ids, permanent);
            && NodesOutside(g.nodes, g'.nodes, ids) && EdgesOutside(g.edges, g'.edges, ids)
            && SubsOutside(g, g', ids) && g'.clusters == g.clusters
  {
    DroppingEdges(g, ids, permanent);
  }

  // ---- the invariant is kept ----

  lemma DeletingNodesKeepsInv(g: Graph, ids: set<NodeId>, permanent: bool)
    requires Inv(g)
    ensures Inv(WithoutNodes(g, ids, permanent))
  {
    var g' := WithoutNodes(g, ids, permanent);
    DeletingNodesInduces(g, ids, permanent);
    DroppingEdgesKeepsThemClean(g, ids, permanent);
    assert g'.nodes.Keys == if permanent then g.nodes.Keys - ids else g.nodes.Keys;
    EdgesOutsideJoin(g, g', ids);
  }

  lemma EdgesOutsideJoin(g: Graph, g': Graph, ids: set<NodeId>)
    requires EdgesJoinNodes(g.edges, g.nodes)
    requires NodesOutside(g.nodes, g'.nodes, ids) && EdgesOutside(g.edges, g'.edges, ids)
    ensures EdgesJoinNodes(g'.edges, g'.nodes)
  {
    forall e | e in g'.edges && !g'.edges[e].deleted
      ensures Live(g'.nodes, g'.edges[e].source) && Live(g'.nodes, g'.edges[e].target)
      ensures g'.edges[e].source != g'.edges[e].target {
      assert Linked(g'.edges, e);
    }
  }

  /** A cluster may go once no active node is in it. */
  lemma DeletingClusterKeepsInv(g: Graph, c: ClusterId, permanent: bool)
    requires Inv(g) && c in g.clusters && NodesIn(g, c) == {}
    ensures Inv(WithoutCluster(g, c, permanent))
  {
    var g' := WithoutCluster(g, c, permanent);
    forall n | Live(g.nodes, n) ensures g.nodes[n].cluster != c && g'.nodes[n] == g.nodes[n] {
      assert n !in NodesIn(g, c);
    }
    assert forall n :: Live(g'.nodes, n) <==> Live(g.nodes, n);
  }

  lemma CascadeEmptiesCluster(g: Graph, c: ClusterId, permanent: bool)
    ensures NodesIn(WithoutNodes(g, NodesIn(g, c), permanent), c) == {}
  {
  }

  lemma MovingNodeKeepsInv(g: Graph, n: NodeId, c: ClusterId)
    requires Inv(g) && g.HasNode(n) && g.HasCluster(c)
    ensures Inv(g.(nodes := Moved(g, {n}, c), subs := LeaveOthers(g, n, c)))
  {
    var g' := g.(nodes := Moved(g, {n}, c), subs := LeaveOthers(g, n, c));
    assert forall m :: Live(g'.nodes, m) <==> Live(g.nodes, m);
  }

  /**
   Moving a subcluster keeps the invariant exactly when none of its active members
   also sits in an active subcluster of a third cluster: those memberships stay behind.
   */
  lemma MovingSubclusterKeepsInvIff(up: char -> string, g: Graph, s: SubclusterId, c: ClusterId)
    requires Inv(g) && Effect(up, g, MoveSubcluster(s, c)).Done?
    ensures Inv(Effect(up, g, MoveSubcluster(s, c)).g) <==> !SharedElsewhere(g, s, c)
  {
    var g' := Effect(up, g, MoveSubcluster(s, c)).g;
    assert forall n :: Live(g'.nodes, n) <==> Live(g.nodes, n);
    MembersAfterMoveIff(g, g', s, c);
  }

  lemma MembersAfterMoveIff(g: Graph, g': Graph, s: SubclusterId, c: ClusterId)
    requires MembersShareCluster(g.subs, g.nodes) && s in g.subs && g.HasSub(s)
    requires g'.subs == g.subs[s := g.subs[s].(cluster := c)] && g'.nodes == Moved(g, ActiveMembers(g, s), c)
    ensures MembersShareCluster(g'.subs, g'.nodes) <==> !SharedElsewhere(g, s, c)
  {
    assert forall n :: Live(g'.nodes, n) <==> Live(g.nodes, n);
    if SharedElsewhere(g, s, c) {
      var s', n :| s' in g.subs && s' != s && !g.subs[s'].deleted && g.subs[s'].cluster != c
        && n in g.subs[s].members && n in g.subs[s'].members && g.HasNode(n);
      assert Live(g'.nodes, n) && g'.nodes[n].cluster == c && g'.subs[s'] == g.subs[s'];
    } else {
      forall s', n | s' in g'.subs && !g'.subs[s'].deleted && n in g'.subs[s'].members && Live(g'.nodes, n)
        ensures g'.nodes[n].cluster == g'.subs[s'].cluster {
        assert g.nodes[n].cluster == g.subs[s'].cluster;
      }
    }
  }

  lemma StoringNodeKeepsInv(g: Graph, n: NodeId, node: Node)
    requires Inv(g) && !node.deleted && node.metadata.Keys !! RESERVED_PROPERTY_KEYS && g.HasCluster(node.cluster)
    requires n in g.nodes ==> g.HasNode(n) && node.cluster == g.nodes[n].cluster
    ensures Inv(g.(nodes := g.nodes[n := node]))
  {
    var nodes := g.nodes[n := node];
    forall m | Live(nodes, m) ensures m == n || (Live(g.nodes, m) && nodes[m] == g.nodes[m]) {
    }
    forall m | Live(g.nodes, m) ensures Live(nodes, m) && nodes[m].cluster == g.nodes[m].cluster {
    }
  }

  lemma StoringEdgeKeepsInv(g: Graph, e: EdgeId, edge: Edge)
    requires Inv(g) && g.HasNode(edge.source) && g.HasNode(edge.target) && edge.source != edge.target
    requires edge.properties.Keys !! RESERVED_PROPERTY_KEYS && IsUserType(edge.relationType)
    ensures Inv(g.(edges := g.edges[e := edge]))
  {
  }

  lemma DroppingEdgeKeepsInv(g: Graph, e: EdgeId, permanent: bool)
    requires Inv(g) && e in g.edges
    ensures Inv(g.(edges := if permanent then g.edges - {e} else g.edges[e := g.edges[e].(deleted := true)]))
  {
  }

  lemma StoringClusterKeepsInv(g: Graph, c: ClusterId, cluster: Cluster)
    requires Inv(g) && !cluster.deleted
    ensures Inv(g.(clusters := g.clusters[c := cluster]))
  {
    assert forall d :: Open(g.clusters, d) ==> Open(g.clusters[c := cluster], d);
  }

  lemma StoringSubKeepsInv(g: Graph, s: SubclusterId, sub: Subcluster)
    requires Inv(g) && sub.members <= g.nodes.Keys && (sub.cluster == "" || sub.cluster in g.clusters)
    requires !sub.deleted ==> forall n <- sub.members :: Live(g.nodes, n) ==> g.nodes[n].cluster == sub.cluster
    ensures Inv(g.(subs := g.subs[s := sub]))
  {
  }

  lemma DroppingSubKeepsInv(g: Graph, s: SubclusterId)
    requires Inv(g)
    ensures Inv(g.(subs := g.subs - {s}))
  {
  }

  lemma InsightIsAUserType()
    ensures IsUserType("INSIGHT")
  {
  }

  lemma NodeOpsKeepInv(up: char -> string, g: Graph, op: Op)
    requires Inv(g) && Effect(up, g, op).Done? && (op.CreateNode? || op.UpdateNode? || op.DeleteNode?)
    ensures Inv(Effect(up, g, op).g)
  {
    match op
    case CreateNode(name, c, metadata) =>
      StoringNodeKeepsInv(g, NextNodeId(g), Node(Trim(name), c, Sanitized(metadata), false));
    case UpdateNode(n, _, _) => StoringNodeKeepsInv(g, n, Effect(up, g, op).g.nodes[n]);
    case DeleteNode(n, permanent) => DeletingNodesKeepsInv(g, {n}, permanent);
  }

  lemma EdgeOpsKeepInv(up: char -> string, g: Graph, op: Op)
    requires Inv(g) && UpperCasing(up) && Effect(up, g, op).Done?
    requires op.CreateEdge? || op.UpdateEdge? || op.DeleteEdge?
    ensures Inv(Effect(up, g, op).g)
  {
    match op
    case CreateEdge(id, _, _, relationType, _) =>
      InsightIsAUserType();
      if relationType != "" {
        AcceptedIsFixed(up, relationType);
      }
      StoringEdgeKeepsInv(g, id, Effect(up, g, op).g.edges[id]);
    case UpdateEdge(e, relationType, _) =>
      if relationType.Some? {
        AcceptedIsFixed(up, relationType.value);
      }
      StoringEdgeKeepsInv(g, e, Effect(up, g, op).g.edges[e]);
    case DeleteEdge(e, permanent) => DroppingEdgeKeepsInv(g, e, permanent);
  }

  /** Cluster and subcluster operations, and moves. */
  lemma ClusterOpsKeepInv(up: char -> string, g: Graph, op: Op)
    requires Inv(g) && Safe(g, op) && Effect(up, g, op).Done?
    requires op.CreateCluster? || op.UpdateCluster? || op.DeleteCluster? || op.MoveNode? || op.MoveSubcluster?
    ensures Inv(Effect(up, g, op).g)
  {
    match op
    case CreateCluster(given, uuid, name) =>
      StoringClusterKeepsInv(g, ChosenId(given, uuid), Cluster(Trim(name), false));
    case UpdateCluster(c, name) => StoringClusterKeepsInv(g, c, Effect(up, g, op).g.clusters[c]);
    case DeleteCluster(c, _, permanent) =>
      DeletingNodesKeepsInv(g, NodesIn(g, c), permanent);
      CascadeEmptiesCluster(g, c, permanent);
      DeletingClusterKeepsInv(WithoutNodes(g, NodesIn(g, c), permanent), c, permanent);
    case MoveNode(n, c) => MovingNodeKeepsInv(g, n, c);
    case MoveSubcluster(s, c) => MovingSubclusterKeepsInvIff(up, g, s, c);
  }

  lemma SubclusterOpsKeepInv(up: char -> string, g: Graph, op: Op)
    requires Inv(g) && Effect(up, g, op).Done?
    requires op.CreateSubcluster? || op.UpdateSubcluster? || op.DeleteSubcluster? || op.AddNode? || op.RemoveNode?
    ensures Inv(Effect(up, g, op).g)
  {
    match op
    case CreateSubcluster(given, uuid, c, keywords) =>
      StoringSubKeepsInv(g, ChosenId(given, uuid), Subcluster(c, keywords, {}, false));
    case UpdateSubcluster(s, _) => StoringSubKeepsInv(g, s, Effect(up, g, op).g.subs[s]);
    case DeleteSubcluster(s, permanent) =>
      DroppingSubKeepsInv(g, s);
      StoringSubKeepsInv(g, s, g.subs[s].(deleted := true));
    case AddNode(s, _) => StoringSubKeepsInv(g, s, Effect(up, g, op).g.subs[s]);
    case RemoveNode(s, _) => StoringSubKeepsInv(g, s, Effect(up, g, op).g.subs[s]);
  }

  lemma EffectKeepsInv(up: char -> string, g: Graph, op: Op)
    requires Inv(g) && UpperCasing(up) && Safe(g, op)
    ensures Inv(After(up, g, op))
  {
    if Effect(up, g, op).Done? {
      if op.CreateNode? || op.UpdateNode? || op.DeleteNode? {
        NodeOpsKeepInv(up, g, op);
      } else if op.CreateEdge? || op.UpdateEdge? || op.DeleteEdge? {
        EdgeOpsKeepInv(up, g, op);
      } else if op.CreateCluster? || op.UpdateCluster? || op.DeleteCluster? || op.MoveNode? || op.MoveSubcluster? {
        ClusterOpsKeepInv(up, g, op);
      } else {
        SubclusterOpsKeepInv(up, g, op);
      }
    }
  }

  ghost predicate SafeRun(up: char -> string, g: Graph, ops: seq<Op>) {
    forall i | 0 <= i < |ops| :: Safe(Fold(up, g, ops[..i]), ops[i])
  }

  lemma {:induction false} RunKeepsInv(up: char -> string, g: Graph, ops: seq<Op>)
    requires Inv(g) && UpperCasing(up) && SafeRun(up, g, ops)
    ensures Inv(Fold(up, g, ops))
  {
    if ops != [] {
      var init := ops[..|ops| - 1];
      assert forall i | 0 <= i < |init| :: init[..i] == ops[..i];
      RunKeepsInv(up, g, init);
      EffectKeepsInv(up, Fold(up, g, init), ops[|ops| - 1]);
    }
  }

  /** Two subclusters of one cluster share a node; moving one of them splits its node from the other. */
  lemma SharedMemberBreaksInv(up: char -> string)
    ensures
      var g := Graph(map[1 := Node("n", "a", map[], false)], map[],
                     map["a" := Cluster("A", false), "b" := Cluster("B", false)],
                     map["s" := Subcluster("a", [], {1}, false), "t" := Subcluster("a", [], {1}, false)]);
      Inv(g) && Effect(up, g, MoveSubcluster("s", "b")).Done? && !Inv(After(up, g, MoveSubcluster("s", "b")))
  {
    var g := Graph(map[1 := Node("n", "a", map[], false)], map[],
                   map["a" := Cluster("A", false), "b" := Cluster("B", false)],
                   map["s" := Subcluster("a", [], {1}, false), "t" := Subcluster("a", [], {1}, false)]);
    NotBlank("b");
    assert Effect(up, g, MoveSubcluster("s", "b")).Done?;
    assert 1 in g.subs["s"].members && 1 in g.subs["t"].members && g.HasNode(1);
    assert SharedElsewhere(g, "s", "b");
    MovingSubclusterKeepsInvIff(up, g, "s", "b");
  }

  lemma NotBlank(s: string)
    requires |s| == 1 && !IsSpace(s[0])
    ensures Trim(s) == s
  {
  }

  // ---- what single operations leave and undo ----

  lemma KeepsInv(up: char -> string, g: Graph, op: Op)
    ensures Inv(g) && UpperCasing(up) && Safe(g, op) ==> Inv(After(up, g, op))
  {
    if Inv(g) && UpperCasing(up) && Safe(g, op) {
      EffectKeepsInv(up, g, op);
    }
  }

  /** The same values under all keys but the reserved ones. */
  ghost predicate IsCleanCopy(given: Props, stored: Props) {
    forall k :: (k in stored <==> k in given && k !in RESERVED_PROPERTY_KEYS) && (k in stored ==> stored[k] == given[k])
  }

  /** Cascade delete leaves exactly the active subgraph induced by the nodes outside the cluster. */
  lemma CascadeLeavesInducedSubgraph(up: char -> string, g: Graph, c: ClusterId, permanent: bool)
    requires Inv(g) && Effect(up, g, DeleteCluster(c, true, permanent)).Done?
    ensures var g', ids := Effect(up, g, DeleteCluster(c, true, permanent)).g, NodesIn(g, c);
            && NodesOutside(g.nodes, g'.nodes, ids) && EdgesOutside(g.edges, g'.edges, ids)
            && ClustersOutside(g.clusters, g'.clusters, c) && SubsOutside(g, g', ids)
  {
    var h := WithoutNodes(g, NodesIn(g, c), permanent);
    DeletingNodesInduces(g, NodesIn(g, c), permanent);
    CascadeEmptiesCluster(g, c, permanent);
    DeletingClusterLeavesRest(h, c, permanent);
  }

  lemma DeletingClusterLeavesRest(h: Graph, c: ClusterId, permanent: bool)
    requires c in h.clusters && NodesIn(h, c) == {}
    ensures var g' := WithoutCluster(h, c, permanent);
            && NodesOutside(h.nodes, g'.nodes, {}) && g'.edges == h.edges
            && ClustersOutside(h.clusters, g'.clusters, c) && SubsOutside(h, g', {})
  {
    var g' := WithoutCluster(h, c, permanent);
    forall n | Live(h.nodes, n) ensures h.nodes[n].cluster != c {
      assert n !in NodesIn(h, c);
    }
    forall s | g'.HasSub(s) ensures ActiveMembers(g', s) == ActiveMembers(h, s) {
      assert g'.subs[s].members == h.subs[s].members;
    }
  }

  // ---- deleting a new record for good gives back the graph before it was created ----

  /** The operation stores a record, or a membership, that was not stored before. */
  predicate Creates(g: Graph, op: Op) {
    match op
    case CreateNode(_, _, _) => true
    case CreateEdge(id, _, _, _, _) => id != "" && id !in g.edges
    case CreateCluster(given, uuid, _) => ChosenId(given, uuid) != "" && ChosenId(given, uuid) !in g.clusters
    case CreateSubcluster(given, uuid, _, _) => ChosenId(given, uuid) != "" && ChosenId(given, uuid) !in g.subs
    case AddNode(s, n) => s in g.subs && n !in g.subs[s].members
    case _ => false
  }

  function Undo(g: Graph, op: Op): Op
    requires Creates(g, op)
  {
    match op
    case CreateNode(_, _, _) => DeleteNode(NextNodeId(g), true)
    case CreateEdge(id, _, _, _, _) => DeleteEdge(id, true)
    case CreateCluster(given, uuid, _) => DeleteCluster(ChosenId(given, uuid), false, true)
    case CreateSubcluster(given, uuid, _, _) => DeleteSubcluster(ChosenId(given, uuid), true)
    case AddNode(s, n) => RemoveNode(s, n)
  }

  lemma CreatingIsUndone(up: char -> string, g: Graph, op: Op)
    requires Inv(g) && Creates(g, op) && Effect(up, g, op).Done?
    ensures Effect(up, Effect(up, g, op).g, Undo(g, op)) == Done(g)
  {
    match op
    case CreateNode(_, _, _) => CreatingNodeIsUndone(up, g, op);
    case CreateEdge(_, _, _, _, _) => CreatingEdgeIsUndone(up, g, op);
    case CreateCluster(_, _, _) => CreatingClusterIsUndone(up, g, op);
    case CreateSubcluster(_, _, _, _) => CreatingSubclusterIsUndone(up, g, op);
    case AddNode(_, _) => JoiningIsUndone(up, g, op);
  }

  lemma CreatingEdgeIsUndone(up: char -> string, g: Graph, op: Op)
    requires op.CreateEdge? && Creates(g, op) && Effect(up, g, op).Done?
    ensures Effect(up, Effect(up, g, op).g, Undo(g, op)) == Done(g)
  {
    assert Effect(up, g, op).g.edges - {op.uuid} == g.edges;
  }

  lemma CreatingSubclusterIsUndone(up: char -> string, g: Graph, op: Op)
    requires op.CreateSubcluster? && Creates(g, op) && Effect(up, g, op).Done?
    ensures Effect(up, Effect(up, g, op).g, Undo(g, op)) == Done(g)
  {
    assert Effect(up, g, op).g.subs - {ChosenId(op.given, op.uuid)} == g.subs;
  }

  lemma JoiningIsUndone(up: char -> string, g: Graph, op: Op)
    requires op.AddNode? && Creates(g, op) && Effect(up, g, op).Done?
    ensures Effect(up, Effect(up, g, op).g, Undo(g, op)) == Done(g)
  {
    var s, g' := op.sub, Effect(up, g, op).g;
    assert g'.subs[s].members - {op.node} == g.subs[s].members;
    assert g'.subs[s := g.subs[s]] == g.subs;
  }

  lemma CreatingNodeIsUndone(up: char -> string, g: Graph, op: Op)
    requires Inv(g) && op.CreateNode? && Effect(up, g, op).Done?
    ensures Effect(up, Effect(up, g, op).g, Undo(g, op)) == Done(g)
  {
    var n, g' := NextNodeId(g), Effect(up, g, op).g;
    var h := WithoutNodes(g', {n}, true);
    assert h.nodes == g.nodes;
    assert h.edges == g.edges;
    assert h.subs == g.subs by {
      forall s | s in g.subs ensures g.subs[s].members - {n} == g.subs[s].members {
      }
    }
  }

  lemma CreatingClusterIsUndone(up: char -> string, g: Graph, op: Op)
    requires Inv(g) && op.CreateCluster? && Creates(g, op) && Effect(up, g, op).Done?
    ensures Effect(up, Effect(up, g, op).g, Undo(g, op)) == Done(g)
  {
    var c, g' := ChosenId(op.given, op.uuid), Effect(up, g, op).g;
    assert NodesIn(g', c) == {} by {
      assert forall n <- g.nodes :: g.nodes[n].cluster != c;
    }
    DeletingNoNodes(g');
    var h := WithoutCluster(g', c, true);
    assert h.clusters == g.clusters;
    NoRecordsIn(g', c);
  }

  lemma NoRecordsIn(g: Graph, c: ClusterId)
    requires c in g.clusters
    requires (forall n <- g.nodes :: g.nodes[n].cluster != c) && forall s <- g.subs :: g.subs[s].cluster != c
    ensures WithoutCluster(g, c, true) == g.(clusters := g.clusters - {c})
  {
    var h := WithoutCluster(g, c, true);
    assert h.nodes == g.nodes by {
      assert h.nodes.Keys == g.nodes.Keys;
      forall n | n in g.nodes ensures h.nodes[n] == g.nodes[n] {
      }
    }
    assert h.subs == g.subs by {
      assert h.subs.Keys == g.subs.Keys;
    }
  }

  lemma DeletingNoNodes(g: Graph)
    ensures WithoutNodes(g, {}, true) == g
  {
    var h := WithoutNodes(g, {}, true);
    assert h.nodes.Keys == g.nodes.Keys;
    assert h.nodes == g.nodes;
    assert h.edges.Keys == g.edges.Keys;
    assert h.edges == g.edges;
    assert h.subs == g.subs by {
      forall s | s in g.subs ensures g.subs[s].members - {} == g.subs[s].members {
      }
    }
  }

  // ---- batches ----

  /** The accepted prefix is the longest run of accepted operations from the start. */
  lemma {:induction false} AcceptedPrefixIs(up: char -> string, g: Graph, ops: seq<Op>, n: nat)
    requires n <= |ops|
    requires forall i | 0 <= i < n :: Effect(up, Fold(up, g, ops[..i]), ops[i]).Done?
    requires n < |ops| ==> Effect(up, Fold(up, g, ops[..n]), ops[n]).Rejected?
    ensures AcceptedPrefix(up, g, ops) == n
  {
    if ops != [] {
      var init := ops[..|ops| - 1];
      assert forall i | 0 <= i <= |init| :: init[..i] == ops[..i];
      AcceptedPrefixIs(up, g, init, if n == |ops| then n - 1 else n);
    }
  }

  /** One more operation: it is either part of the prefix, or ends it for all longer batches. */
  lemma {:induction false} PrefixStep(up: char -> string, g: Graph, ops: seq<Op>, i: nat)
    requires i < |ops| && AcceptedPrefix(up, g, ops[..i]) == i
    ensures match Effect(up, Fold(up, g, ops[..i]), ops[i])
            case Done(h) => AcceptedPrefix(up, g, ops[..i + 1]) == i + 1 && Fold(up, g, ops[..i + 1]) == h
            case Rejected(_) => AcceptedPrefix(up, g, ops) == i
  {
    assert ops[..i + 1][..i] == ops[..i];
    if Effect(up, Fold(up, g, ops[..i]), ops[i]).Rejected? {
      RejectionEndsPrefix(up, g, ops, i);
    }
  }

  lemma {:induction false} RejectionEndsPrefix(up: char -> string, g: Graph, ops: seq<Op>, i: nat)
    requires i < |ops| && AcceptedPrefix(up, g, ops[..i]) == i
    requires Effect(up, Fold(up, g, ops[..i]), ops[i]).Rejected?
    ensures AcceptedPrefix(up, g, ops) == i
  {
    var init := ops[..|ops| - 1];
    if i < |init| {
      assert init[..i] == ops[..i];
      RejectionEndsPrefix(up, g, init, i);
    }
  }

  /** Operations before a failing one stay: a batch is not all-or-nothing. */
  lemma BatchIsNotAtomic(up: char -> string)
    ensures
      var ops := [CreateCluster("", "c", "C"), DeleteNode(1, false)];
      AcceptedPrefix(up, EMPTY, ops) == 1 && Fold(up, EMPTY, ops[..1]) != EMPTY
  {
    var ops := [CreateCluster("", "c", "C"), DeleteNode(1, false)];
    NotBlank("C");
    assert Trim("") == "";
    assert ops[..0] == [] && ops[..1][..0] == [];
    assert "c" in Fold(up, EMPTY, ops[..1]).clusters;
    AcceptedPrefixIs(up, EMPTY, ops, 1);
  }
}
