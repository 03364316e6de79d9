/**
 The graph editor service: every method checks, then writes through the store step
 by step, and ends in the effect of its operation; a rejected call writes nothing.
 */
module GraphEditor {
  import opened Options
  import opened RelationType
  import opened GraphEditing
  import opened GraphEditingProofs

  /** The call ends as the operation says, with the error it says. */
  ghost predicate Agrees(up: char -> string, g: Graph, g': Graph, op: Op, error: Option<Error>) {
    match Effect(up, g, op)
    case Done(h) => error.None? && g' == h
    case Rejected(e) => error == Some(e) && g' == g
  }

  // ---- what one call may change ----

  ghost predicate SameExcept<K(!new), V>(m: map<K, V>, m': map<K, V>, k: K) {
    forall j :: j != k ==> (j in m' <==> j in m) && (j in m ==> m'[j] == m[j])
  }

  /** Some active node, edge, ... is stored under the id, and nothing else has changed. */
  ghost predicate OneNode(g: Graph, g': Graph, n: NodeId) {
    g' == g.(nodes := g'.nodes) && SameExcept(g.nodes, g'.nodes, n) && g'.HasNode(n)
  }

  ghost predicate OneEdge(g: Graph, g': Graph, e: EdgeId) {
    g' == g.(edges := g'.edges) && SameExcept(g.edges, g'.edges, e) && g'.HasEdge(e)
  }

  ghost predicate OneCluster(g: Graph, g': Graph, c: ClusterId) {
    g' == g.(clusters := g'.clusters) && SameExcept(g.clusters, g'.clusters, c) && g'.HasCluster(c)
  }

  ghost predicate OneSub(g: Graph, g': Graph, s: SubclusterId) {
    g' == g.(subs := g'.subs) && SameExcept(g.subs, g'.subs, s) && g'.HasSub(s)
  }

  /** Given values are stored without the reserved keys; absent ones leave the old values. */
  ghost predicate PropsUpdated(given: Option<Props>, before: Props, stored: Props) {
    if given.Some? then IsCleanCopy(given.value, stored) else stored == before
  }

  /** The node has gone from the active graph with its edges and memberships; all the rest is as it was. */
  ghost predicate Without(g: Graph, g': Graph, n: NodeId) {
    && NodesOutside(g.nodes, g'.nodes, {n}) && EdgesOutside(g.edges, g'.edges, {n})
    && SubsOutside(g, g', {n}) && g'.clusters == g.clusters
  }

  /** Record by record: those deleted for good are no longer stored, the others are marked; all else stays. */
  ghost predicate NodeRecords(g: Graph, g': Graph, ids: set<NodeId>, permanent: bool) {
    && (forall n :: n in g'.nodes <==> n in g.nodes && !(permanent && n in ids))
    && (forall n <- g'.nodes :: g'.nodes[n] == if n in ids then g.nodes[n].(deleted := true) else g.nodes[n])
    && EdgeRecords(g, g', ids, permanent)
  }

  ghost predicate EdgeRecords(g: Graph, g': Graph, ids: set<NodeId>, permanent: bool) {
    && (forall e :: e in g'.edges <==>
          e in g.edges && !(permanent && (g.edges[e].source in ids || g.edges[e].target in ids)))
    && (forall e <- g'.edges ::
          g'.edges[e] == if g.edges[e].source in ids || g.edges[e].target in ids then g.edges[e].(deleted := true)
                         else g.edges[e])
  }

  /** Subclusters stay, and list the nodes they listed, but none that is deleted for good. */
  ghost predicate SubRecords(g: Graph, g': Graph, ids: set<NodeId>, permanent: bool) {
    && g'.subs.Keys == g.subs.Keys
    && (forall s <- g.subs ::
          g'.subs[s] == g.subs[s].(members := if permanent then g.subs[s].members - ids else g.subs[s].members))
  }

  /** What deleting a cluster does to every record; for good, no record refers to the cluster any more. */
  ghost predicate ClusterRecords(g: Graph, g': Graph, c: ClusterId, permanent: bool) {
    var ids := set n | n in g.nodes && !g.nodes[n].deleted && g.nodes[n].cluster == c;
    && (forall n :: n in g'.nodes <==> n in g.nodes && !(permanent && n in ids))
    && (forall n <- g'.nodes ::
          g'.nodes[n] == if n in ids then g.nodes[n].(deleted := true)
                         else if permanent && g.nodes[n].cluster == c then g.nodes[n].(cluster := "") else g.nodes[n])
    && EdgeRecords(g, g', ids, permanent)
    && g'.subs.Keys == g.subs.Keys
    && (forall s <- g.subs ::
          g'.subs[s] == g.subs[s].(
            members := if permanent then g.subs[s].members - ids else g.subs[s].members,
            cluster := if permanent && g.subs[s].cluster == c then "" else g.subs[s].cluster))
    && SameExcept(g.clusters, g'.clusters, c)
    && (c in g'.clusters ==> c in g.clusters && g'.clusters[c] == g.clusters[c].(deleted := true))
  }

  /** The cluster has gone from the active graph with its nodes; all the rest is as it was. */
  ghost predicate ClusterGone(g: Graph, g': Graph, c: ClusterId) {
    var ids := NodesIn(g, c);
    && NodesOutside(g.nodes, g'.nodes, ids) && EdgesOutside(g.edges, g'.edges, ids)
    && SubsOutside(g, g', ids) && ClustersOutside(g.clusters, g'.clusters, c)
  }

  /** The subcluster and its active members are in the cluster; nothing else has changed. */
  ghost predicate SubMoved(g: Graph, g': Graph, s: SubclusterId, c: ClusterId)
    requires s in g.subs
  {
    && OneSub(g.(nodes := g'.nodes), g', s) && g'.subs[s] == g.subs[s].(cluster := c)
    && g'.nodes.Keys == g.nodes.Keys
    && (forall n <- g.nodes ::
          var moves := n in g.subs[s].members && !g.nodes[n].deleted;
          g'.nodes[n] == if moves then g.nodes[n].(cluster := c) else g.nodes[n])
  }

  /** The node is in the cluster and in just those of its subclusters that are of it; nothing else has changed. */
  ghost predicate NodeMoved(g: Graph, g': Graph, n: NodeId, c: ClusterId)
    requires n in g.nodes
  {
    && g' == g.(nodes := g'.nodes, subs := g'.subs) && SameExcept(g.nodes, g'.nodes, n)
    && n in g'.nodes && g'.nodes[n] == g.nodes[n].(cluster := c)
    && g'.subs.Keys == g.subs.Keys
    && (forall s <- g.subs ::
          var sub := g.subs[s];
          g'.subs[s] == if sub.deleted || sub.cluster == c then sub else sub.(members := sub.members - {n}))
  }

  /** The store calls that are more than one stored record. */
  class EditableGraph {
    var g: Graph

    constructor ()
      ensures g == EMPTY
    {
      g := EMPTY;
    }

    method DeleteEdgesByNodeIds(ids: set<NodeId>, permanent: bool)
      modifies this
      ensures g == WithoutEdges(old(g), ids, permanent)
    {
      g := WithoutEdges(g, ids, permanent);
    }

    method DeleteNodes(ids: set<NodeId>, permanent: bool)
      modifies this
      ensures g == WithoutNodes(old(g), ids, permanent)
    {
      g := WithoutNodes(g, ids, permanent);
    }

    method DeleteCluster(c: ClusterId, permanent: bool)
      requires c in g.clusters
      modifies this
      ensures g == WithoutCluster(old(g), c, permanent)
    {
      g := WithoutCluster(g, c, permanent);
    }

    method MoveNodeToCluster(n: NodeId, c: ClusterId)
      modifies this
      ensures g == old(g).(nodes := Moved(old(g), {n}, c))
    {
      g := g.(nodes := Moved(g, {n}, c));
    }

    method RemoveNodeFromSubcluster(s: SubclusterId, n: NodeId)
      requires s in g.subs
      modifies this
      ensures g == old(g).(subs := old(g).subs[s := old(g).subs[s].(members := old(g).subs[s].members - {n})])
    {
      g := g.(subs := g.subs[s := g.subs[s].(members := g.subs[s].members - {n})]);
    }

    method MoveSubclusterToCluster(s: SubclusterId, c: ClusterId)
      requires s in g.subs
      modifies this
      ensures g == old(g).(subs := old(g).subs[s := old(g).subs[s].(cluster := c)],
                           nodes := Moved(old(g), ActiveMembers(old(g), s), c))
    {
      var members := ActiveMembers(g, s);
      g := g.(subs := g.subs[s := g.subs[s].(cluster := c)]);
      g := g.(nodes := Moved(g, members, c));
    }
  }

  /** A copy of the given map, from which the reserved keys are deleted one by one. */
  method SanitizeProps(props: Option<Props>) returns (r: Option<Props>)
    ensures r.Some? <==> props.Some?
    ensures r.Some? ==> r.value == Sanitized(props)
    ensures r.None? ==> Sanitized(props) == map[]
  {
    if props.None? {
      return None;
    }
    var sanitized := props.value;
    var keys := ["id", "userId", "createdAt"];
    for i := 0 to |keys|
      invariant sanitized == map k | k in props.value && k !in keys[..i] :: props.value[k]
    {
      assert keys[..i + 1] == keys[..i] + [keys[i]];
      sanitized := sanitized - {keys[i]};
    }
    assert keys[..|keys|] == keys;
    assert forall k :: k in keys <==> k in RESERVED_PROPERTY_KEYS;
    r := Some(sanitized);
  }

  datatype OperationResult = OperationResult(index: nat, success: bool)
  datatype BatchResponse = Completed(results: seq<OperationResult>) | Failed(index: nat, error: Error) | BadRequest

  function Successes(n: nat): seq<OperationResult> { seq(n, i requires 0 <= i => OperationResult(i, true)) }

  class GraphEditorService {
    const repo: EditableGraph
    const up: char -> string

    constructor (repo: EditableGraph, up: char -> string)
      ensures this.repo == repo && this.up == up
    {
      this.repo, this.up := repo, up;
    }

    /** The new id is above every stored one. */
    method CreateNode(name: string, c: ClusterId, metadata: Option<Props>) returns (error: Option<Error>, id: NodeId)
      modifies repo
      ensures Agrees(up, old(repo.g), repo.g, Op.CreateNode(name, c, metadata), error)
      ensures error.Some? ==> repo.g == old(repo.g)
      ensures error.None? <==> Trim(name) != "" && Trim(c) != "" && old(repo.g).HasCluster(c)
      ensures error.None? ==>
                && OneNode(old(repo.g), repo.g, id) && repo.g.nodes[id].name == Trim(name)
                && (forall m <- old(repo.g).nodes :: m < id)
                && (id - 1 in old(repo.g).nodes || (old(repo.g).nodes.Keys == {} && id == 1))
                && PropsUpdated(metadata, map[], repo.g.nodes[id].metadata)
      ensures Inv(old(repo.g)) && UpperCasing(up) ==> Inv(repo.g)
      ensures error.None? ==> id !in old(repo.g).nodes && repo.g.HasNode(id) && repo.g.nodes[id].cluster == c
    {
      KeepsInv(up, repo.g, Op.CreateNode(name, c, metadata));
      id := 0;
      if Trim(name) == "" || Trim(c) == "" {
        return Some(Invalid), id;
      }
      if !repo.g.HasCluster(c) {
        return Some(NotFound), id;
      }
      id := NextNodeId(repo.g);
      var clean := SanitizeProps(metadata);
      var stored := if clean.Some? then clean.value else map[];
      repo.g := repo.g.(nodes := repo.g.nodes[id := Node(Trim(name), c, stored, false)]);
      error := None;
    }

    method UpdateNode(n: NodeId, name: Option<string>, metadata: Option<Props>) returns (error: Option<Error>)
      modifies repo
      ensures Agrees(up, old(repo.g), repo.g, Op.UpdateNode(n, name, metadata), error)
      ensures error.Some? ==> repo.g == old(repo.g)
      ensures (error.None? <==> old(repo.g).HasNode(n)) && (error.Some? ==> error.value == NotFound)
      ensures error.None? ==>
                var node, before := repo.g.nodes[n], old(repo.g).nodes[n];
                && OneNode(old(repo.g), repo.g, n) && node.cluster == before.cluster
                && node.name == (if name.Some? then name.value else before.name)
                && PropsUpdated(metadata, before.metadata, node.metadata)
      ensures Inv(old(repo.g)) && UpperCasing(up) ==> Inv(repo.g)
    {
      KeepsInv(up, repo.g, Op.UpdateNode(n, name, metadata));
      if !repo.g.HasNode(n) {
        return Some(NotFound);
      }
      var node := repo.g.nodes[n];
      if name.Some? {
        node := node.(name := name.value);
      }
      if metadata.Some? {
        var clean := SanitizeProps(metadata);
        node := node.(metadata := clean.value);
      }
      repo.g := repo.g.(nodes := repo.g.nodes[n := node]);
      return None;
    }

    method DeleteNode(n: NodeId, permanent: bool) returns (error: Option<Error>)
      modifies repo
      ensures Agrees(up, old(repo.g), repo.g, Op.DeleteNode(n, permanent), error)
      ensures error.Some? ==> repo.g == old(repo.g)
      ensures (error.None? <==> old(repo.g).HasNode(n)) && (error.Some? ==> error.value == NotFound)
      ensures error.None? ==> Without(old(repo.g), repo.g, n) && (n in repo.g.nodes <==> !permanent)
      ensures error.None? ==>
                NodeRecords(old(repo.g), repo.g, {n}, permanent) && SubRecords(old(repo.g), repo.g, {n}, permanent)
      ensures Inv(old(repo.g)) && UpperCasing(up) ==> Inv(repo.g)
    {
      KeepsInv(up, repo.g, Op.DeleteNode(n, permanent));
      NodeDeleted(repo.g, n, permanent);
      if !repo.g.HasNode(n) {
        return Some(NotFound);
      }
      repo.DeleteNodes({n}, permanent);
      return None;
    }

    method CreateEdge(uuid: EdgeId, source: NodeId, target: NodeId, relationType: string, properties: Option<Props>)
      returns (error: Option<Error>)
      modifies repo
      ensures Agrees(up, old(repo.g), repo.g, Op.CreateEdge(uuid, source, target, relationType, properties), error)
      ensures error.Some? ==> repo.g == old(repo.g)
      ensures error.None? <==> source != target && old(repo.g).HasNode(source) && old(repo.g).HasNode(target)
                               && (relationType == "" || Normalize(up, relationType).Some?)
      ensures error == Some(NotFound) <==>
                source != target && !(old(repo.g).HasNode(source) && old(repo.g).HasNode(target))
      ensures error.None? ==>
                var edge := repo.g.edges[uuid];
                && OneEdge(old(repo.g), repo.g, uuid) && edge.source == source && edge.target == target
                && PropsUpdated(properties, map[], edge.properties)
                && (if relationType == "" then edge.relationType == "INSIGHT"
                    else Normalize(up, relationType) == Some(edge.relationType))
      ensures Inv(old(repo.g)) && UpperCasing(up) ==> Inv(repo.g)
    {
      KeepsInv(up, repo.g, Op.CreateEdge(uuid, source, target, relationType, properties));
      if source == target {
        return Some(Invalid);
      }
      if !repo.g.HasNode(source) || !repo.g.HasNode(target) {
        return Some(NotFound);
      }
      var name := if relationType != "" then Normalize(up, relationType) else Some("INSIGHT");
      if name.None? {
        return Some(Invalid);
      }
      var clean := SanitizeProps(properties);
      var stored := if clean.Some? then clean.value else map[];
      repo.g := repo.g.(edges := repo.g.edges[uuid := Edge(source, target, name.value, stored, false)]);
      return None;
    }

    method UpdateEdge(e: EdgeId, relationType: Option<string>, properties: Option<Props>) returns (error: Option<Error>)
      modifies repo
      ensures Agrees(up, old(repo.g), repo.g, Op.UpdateEdge(e, relationType, properties), error)
      ensures error.Some? ==> repo.g == old(repo.g)
      ensures error.None? <==> e != "" && old(repo.g).HasEdge(e)
                               && (relationType.Some? ==> Normalize(up, relationType.value).Some?)
      ensures error == Some(NotFound) <==> e != "" && !old(repo.g).HasEdge(e)
      ensures error.None? ==>
                var edge, before := repo.g.edges[e], old(repo.g).edges[e];
                && OneEdge(old(repo.g), repo.g, e) && edge.source == before.source && edge.target == before.target
                && PropsUpdated(properties, before.properties, edge.properties)
                && (if relationType.None? then edge.relationType == before.relationType
                    else Normalize(up, relationType.value) == Some(edge.relationType))
      ensures Inv(old(repo.g)) && UpperCasing(up) ==> Inv(repo.g)
    {
      KeepsInv(up, repo.g, Op.UpdateEdge(e, relationType, properties));
      if e == "" {
        return Some(Invalid);
      }
      if !repo.g.HasEdge(e) {
        return Some(NotFound);
      }
      var edge := repo.g.edges[e];
      if properties.Some? {
        var clean := SanitizeProps(properties);
        edge := edge.(properties := clean.value);
      }
      if relationType.Some? {
        var name := Normalize(up, relationType.value);
        if name.None? {
          return Some(Invalid);
        }
        edge := edge.(relationType := name.value);
      }
      repo.g := repo.g.(edges := repo.g.edges[e := edge]);
      return None;
    }

    method DeleteEdge(e: EdgeId, permanent: bool) returns (error: Option<Error>)
      modifies repo
      ensures Agrees(up, old(repo.g), repo.g, Op.DeleteEdge(e, permanent), error)
      ensures error.Some? ==> repo.g == old(repo.g)
      ensures error.None? <==> e != "" && old(repo.g).HasEdge(e)
      ensures error == Some(NotFound) <==> e != "" && !old(repo.g).HasEdge(e)
      ensures error.None? ==>
                && repo.g == old(repo.g).(edges := repo.g.edges) && SameExcept(old(repo.g).edges, repo.g.edges, e)
                && !repo.g.HasEdge(e) && (e in repo.g.edges <==> !permanent)
                && (!permanent ==> repo.g.edges[e] == old(repo.g).edges[e].(deleted := true))
      ensures Inv(old(repo.g)) && UpperCasing(up) ==> Inv(repo.g)
    {
      KeepsInv(up, repo.g, Op.DeleteEdge(e, permanent));
      if e == "" {
        return Some(Invalid);
      }
      if !repo.g.HasEdge(e) {
        return Some(NotFound);
      }
      if permanent {
        repo.g := repo.g.(edges := repo.g.edges - {e});
      } else {
        repo.g := repo.g.(edges := repo.g.edges[e := repo.g.edges[e].(deleted := true)]);
      }
      return None;
    }

    method CreateCluster(given: string, uuid: string, name: string) returns (error: Option<Error>)
      modifies repo
      ensures Agrees(up, old(repo.g), repo.g, Op.CreateCluster(given, uuid, name), error)
      ensures error.Some? ==> repo.g == old(repo.g)
      ensures error == Some(Conflict) <==>
                && Trim(name) != "" && given != ""
                && old(repo.g).HasCluster(if Trim(given) != "" then Trim(given) else uuid)
      ensures error.Some? && error.value != Conflict <==> Trim(name) == ""
      ensures error.None? ==>
                var c := if Trim(given) != "" then Trim(given) else uuid;
                && OneCluster(old(repo.g), repo.g, c) && repo.g.clusters[c].name == Trim(name) != ""
                && (given != "" ==> !old(repo.g).HasCluster(c))
      ensures Inv(old(repo.g)) && UpperCasing(up) ==> Inv(repo.g)
    {
      KeepsInv(up, repo.g, Op.CreateCluster(given, uuid, name));
      if Trim(name) == "" {
        return Some(Invalid);
      }
      var id := ChosenId(given, uuid);
      if given != "" && repo.g.HasCluster(id) {
        return Some(Conflict);
      }
      repo.g := repo.g.(clusters := repo.g.clusters[id := Cluster(Trim(name), false)]);
      return None;
    }

    method UpdateCluster(c: ClusterId, name: Option<string>) returns (error: Option<Error>)
      modifies repo
      ensures Agrees(up, old(repo.g), repo.g, Op.UpdateCluster(c, name), error)
      ensures error.Some? ==> repo.g == old(repo.g)
      ensures error.None? <==> c != "" && old(repo.g).HasCluster(c)
      ensures error == Some(NotFound) <==> c != "" && !old(repo.g).HasCluster(c)
      ensures error.None? ==>
                && OneCluster(old(repo.g), repo.g, c)
                && repo.g.clusters[c].name == (if name.Some? then name.value else old(repo.g).clusters[c].name)
      ensures Inv(old(repo.g)) && UpperCasing(up) ==> Inv(repo.g)
    {
      KeepsInv(up, repo.g, Op.UpdateCluster(c, name));
      if c == "" {
        return Some(Invalid);
      }
      if !repo.g.HasCluster(c) {
        return Some(NotFound);
      }
      var cluster := repo.g.clusters[c];
      if name.Some? {
        cluster := cluster.(name := name.value);
      }
      repo.g := repo.g.(clusters := repo.g.clusters[c := cluster]);
      return None;
    }

    method DeleteCluster(c: ClusterId, cascade: bool, permanent: bool) returns (error: Option<Error>)
      modifies repo
      ensures Agrees(up, old(repo.g), repo.g, Op.DeleteCluster(c, cascade, permanent), error)
      ensures error.Some? ==> repo.g == old(repo.g)
      ensures error == Some(NotFound) <==> c != "" && !old(repo.g).HasCluster(c)
      ensures error == Some(Conflict) <==>
                && c != "" && old(repo.g).HasCluster(c) && !cascade
                && exists n <- old(repo.g).nodes :: !old(repo.g).nodes[n].deleted && old(repo.g).nodes[n].cluster == c
      ensures error.None? ==> !repo.g.HasCluster(c) && (c in repo.g.clusters <==> !permanent)
      ensures error.None? && Inv(old(repo.g)) ==> ClusterGone(old(repo.g), repo.g, c)
      ensures error.None? ==> ClusterRecords(old(repo.g), repo.g, c, permanent)
      ensures Inv(old(repo.g)) && UpperCasing(up) ==> Inv(repo.g)
    {
      KeepsInv(up, repo.g, Op.DeleteCluster(c, cascade, permanent));
      CascadeOrEmpty(up, repo.g, c, cascade, permanent);
      DeletingClusterRecords(up, repo.g, c, cascade, permanent);
      if c == "" {
        return Some(Invalid);
      }
      if !repo.g.HasCluster(c) {
        return Some(NotFound);
      }
      var nodes := NodesIn(repo.g, c);
      SomeNodeIn(repo.g, c);
      if !cascade {
        if nodes != {} {
          return Some(Conflict);
        }
        DeletingNone(repo.g, permanent);
      } else if nodes != {} {
        repo.DeleteEdgesByNodeIds(nodes, permanent);
        EdgesGoOnce(old(repo.g), nodes, permanent);
        repo.DeleteNodes(nodes, permanent);
      } else {
        DeletingNone(repo.g, permanent);
      }
      repo.DeleteCluster(c, permanent);
      return None;
    }

    method CreateSubcluster(given: string, uuid: string, c: ClusterId, keywords: seq<string>)
      returns (error: Option<Error>)
      modifies repo
      ensures Agrees(up, old(repo.g), repo.g, Op.CreateSubcluster(given, uuid, c, keywords), error)
      ensures error.Some? ==> repo.g == old(repo.g)
      ensures error == Some(NotFound) <==> Trim(c) != "" && !old(repo.g).HasCluster(c)
      ensures error == Some(Conflict) <==>
                && Trim(c) != "" && old(repo.g).HasCluster(c) && given != ""
                && old(repo.g).HasSub(if Trim(given) != "" then Trim(given) else uuid)
      ensures error == Some(Invalid) <==> Trim(c) == ""
      ensures error.None? ==>
                var s := if Trim(given) != "" then Trim(given) else uuid;
                && OneSub(old(repo.g), repo.g, s)
                && repo.g.HasCluster(repo.g.subs[s].cluster) && repo.g.subs[s].cluster == c
                && repo.g.subs[s].members == {} && repo.g.subs[s].keywords == keywords
      ensures Inv(old(repo.g)) && UpperCasing(up) ==> Inv(repo.g)
    {
      KeepsInv(up, repo.g, Op.CreateSubcluster(given, uuid, c, keywords));
      if Trim(c) == "" {
        return Some(Invalid);
      }
      if !repo.g.HasCluster(c) {
        return Some(NotFound);
      }
      var id := ChosenId(given, uuid);
      if given != "" && repo.g.HasSub(id) {
        return Some(Conflict);
      }
      repo.g := repo.g.(subs := repo.g.subs[id := Subcluster(c, keywords, {}, false)]);
      return None;
    }

    method UpdateSubcluster(s: SubclusterId, keywords: Option<seq<string>>) returns (error: Option<Error>)
      modifies repo
      ensures Agrees(up, old(repo.g), repo.g, Op.UpdateSubcluster(s, keywords), error)
      ensures error.Some? ==> repo.g == old(repo.g)
      ensures error.None? <==> s != "" && old(repo.g).HasSub(s)
      ensures error == Some(NotFound) <==> s != "" && !old(repo.g).HasSub(s)
      ensures error.None? ==>
                var sub, before := repo.g.subs[s], old(repo.g).subs[s];
                && OneSub(old(repo.g), repo.g, s) && sub.cluster == before.cluster && sub.members == before.members
                && sub.keywords == (if keywords.Some? then keywords.value else before.keywords)
      ensures Inv(old(repo.g)) && UpperCasing(up) ==> Inv(repo.g)
    {
      KeepsInv(up, repo.g, Op.UpdateSubcluster(s, keywords));
      if s == "" {
        return Some(Invalid);
      }
      if !repo.g.HasSub(s) {
        return Some(NotFound);
      }
      var sub := repo.g.subs[s];
      if keywords.Some? {
        sub := sub.(keywords := keywords.value);
      }
      repo.g := repo.g.(subs := repo.g.subs[s := sub]);
      return None;
    }

    method DeleteSubcluster(s: SubclusterId, permanent: bool) returns (error: Option<Error>)
      modifies repo
      ensures Agrees(up, old(repo.g), repo.g, Op.DeleteSubcluster(s, permanent), error)
      ensures error.Some? ==> repo.g == old(repo.g)
      ensures error.None? <==> s != "" && old(repo.g).HasSub(s)
      ensures error == Some(NotFound) <==> s != "" && !old(repo.g).HasSub(s)
      ensures error.None? ==>
                && repo.g == old(repo.g).(subs := repo.g.subs) && SameExcept(old(repo.g).subs, repo.g.subs, s)
                && !repo.g.HasSub(s) && (s in repo.g.subs <==> !permanent)
                && (!permanent ==> repo.g.subs[s] == old(repo.g).subs[s].(deleted := true))
      ensures Inv(old(repo.g)) && UpperCasing(up) ==> Inv(repo.g)
    {
      KeepsInv(up, repo.g, Op.DeleteSubcluster(s, permanent));
      if s == "" {
        return Some(Invalid);
      }
      if !repo.g.HasSub(s) {
        return Some(NotFound);
      }
      if permanent {
        repo.g := repo.g.(subs := repo.g.subs - {s});
      } else {
        repo.g := repo.g.(subs := repo.g.subs[s := repo.g.subs[s].(deleted := true)]);
      }
      return None;
    }

    /** After the move, the node is taken out of the subclusters it no longer fits, one at a time. */
    method MoveNodeToCluster(n: NodeId, c: ClusterId) returns (error: Option<Error>)
      modifies repo
      ensures Agrees(up, old(repo.g), repo.g, MoveNode(n, c), error)
      ensures error.Some? ==> repo.g == old(repo.g)
      ensures error.None? <==> Trim(c) != "" && old(repo.g).HasNode(n) && old(repo.g).HasCluster(c)
      ensures error.None? ==> NodeMoved(old(repo.g), repo.g, n, c)
      ensures Inv(old(repo.g)) && UpperCasing(up) ==> Inv(repo.g)
    {
      KeepsInv(up, repo.g, MoveNode(n, c));
      if Trim(c) == "" {
        return Some(Invalid);
      }
      if !repo.g.HasNode(n) || !repo.g.HasCluster(c) {
        return Some(NotFound);
      }
      repo.MoveNodeToCluster(n, c);
      LeaveSubclusters(n, c);
      return None;
    }

    method LeaveSubclusters(n: NodeId, c: ClusterId)
      modifies repo
      ensures repo.g == old(repo.g).(subs := LeaveOthers(old(repo.g), n, c))
    {
      ghost var g := repo.g;
      var leaving := set s | s in repo.g.subs && repo.g.HasSub(s)
                             && repo.g.subs[s].cluster != c && n in repo.g.subs[s].members;
      ghost var all := leaving;
      while exists s :: s in leaving
        invariant leaving <= all <= g.subs.Keys
        invariant repo.g == g.(subs := Left(g, all - leaving, n))
        decreases |leaving|
      {
        var s :| s in leaving;
        repo.RemoveNodeFromSubcluster(s, n);
        LeftOneMore(g, all - leaving, s, n);
        assert all - (leaving - {s}) == (all - leaving) + {s};
        leaving := leaving - {s};
      }
      assert leaving == {} && all - leaving == all;
      LeavingAllIsLeaving(g, all, n, c);
    }

    method MoveSubclusterToCluster(s: SubclusterId, c: ClusterId) returns (error: Option<Error>)
      modifies repo
      ensures Agrees(up, old(repo.g), repo.g, MoveSubcluster(s, c), error)
      ensures error.Some? ==> repo.g == old(repo.g)
      ensures error.None? <==> s != "" && Trim(c) != "" && old(repo.g).HasSub(s) && old(repo.g).HasCluster(c)
      ensures error == Some(NotFound) <==>
                s != "" && Trim(c) != "" && !(old(repo.g).HasSub(s) && old(repo.g).HasCluster(c))
      ensures error.None? ==> SubMoved(old(repo.g), repo.g, s, c)
      ensures error.None? && Inv(old(repo.g)) ==> (Inv(repo.g) <==> !SharedElsewhere(old(repo.g), s, c))
    {
      if Inv(repo.g) && Effect(up, repo.g, MoveSubcluster(s, c)).Done? {
        MovingSubclusterKeepsInvIff(up, repo.g, s, c);
      }
      if s == "" || Trim(c) == "" {
        return Some(Invalid);
      }
      if !repo.g.HasSub(s) || !repo.g.HasCluster(c) {
        return Some(NotFound);
      }
      repo.MoveSubclusterToCluster(s, c);
      return None;
    }

    method AddNodeToSubcluster(s: SubclusterId, n: NodeId) returns (error: Option<Error>)
      modifies repo
      ensures Agrees(up, old(repo.g), repo.g, AddNode(s, n), error)
      ensures error.Some? ==> repo.g == old(repo.g)
      ensures error.None? <==> s != "" && old(repo.g).HasNode(n) && old(repo.g).HasSub(s)
                               && old(repo.g).nodes[n].cluster == old(repo.g).subs[s].cluster
      ensures error == Some(NotFound) <==> s != "" && !(old(repo.g).HasNode(n) && old(repo.g).HasSub(s))
      ensures error.None? ==>
                && OneSub(old(repo.g), repo.g, s) && repo.g.subs[s].cluster == repo.g.nodes[n].cluster
                && repo.g.subs[s].keywords == old(repo.g).subs[s].keywords
                && forall m :: m in repo.g.subs[s].members <==> m in old(repo.g).subs[s].members || m == n
      ensures Inv(old(repo.g)) && UpperCasing(up) ==> Inv(repo.g)
    {
      KeepsInv(up, repo.g, AddNode(s, n));
      if s == "" {
        return Some(Invalid);
      }
      if !repo.g.HasNode(n) || !repo.g.HasSub(s) {
        return Some(NotFound);
      }
      if repo.g.nodes[n].cluster != repo.g.subs[s].cluster {
        return Some(Invalid);
      }
      repo.g := repo.g.(subs := repo.g.subs[s := repo.g.subs[s].(members := repo.g.subs[s].members + {n})]);
      return None;
    }

    method RemoveNodeFromSubcluster(s: SubclusterId, n: NodeId) returns (error: Option<Error>)
      modifies repo
      ensures Agrees(up, old(repo.g), repo.g, RemoveNode(s, n), error)
      ensures error.Some? ==> repo.g == old(repo.g)
      ensures error.None? <==> s != "" && old(repo.g).HasSub(s)
      ensures error == Some(NotFound) <==> s != "" && !old(repo.g).HasSub(s)
      ensures error.None? ==>
                && OneSub(old(repo.g), repo.g, s) && repo.g.subs[s].cluster == old(repo.g).subs[s].cluster
                && repo.g.subs[s].keywords == old(repo.g).subs[s].keywords
                && forall m :: m in repo.g.subs[s].members <==> m in old(repo.g).subs[s].members && m != n
      ensures Inv(old(repo.g)) && UpperCasing(up) ==> Inv(repo.g)
    {
      KeepsInv(up, repo.g, RemoveNode(s, n));
      if s == "" {
        return Some(Invalid);
      }
      if !repo.g.HasSub(s) {
        return Some(NotFound);
      }
      repo.RemoveNodeFromSubcluster(s, n);
      return None;
    }

    method ExecuteOperation(op: Op) returns (error: Option<Error>)
      modifies repo
      ensures Agrees(up, old(repo.g), repo.g, op, error)
    {
      match op {
        case CreateNode(name, c, metadata) => var id; error, id := CreateNode(name, c, metadata);
        case UpdateNode(n, name, metadata) => error := UpdateNode(n, name, metadata);
        case DeleteNode(n, permanent) => error := DeleteNode(n, permanent);
        case CreateEdge(uuid, a, b, relationType, properties) =>
          error := CreateEdge(uuid, a, b, relationType, properties);
        case UpdateEdge(e, relationType, properties) => error := UpdateEdge(e, relationType, properties);
        case DeleteEdge(e, permanent) => error := DeleteEdge(e, permanent);
        case CreateCluster(given, uuid, name) => error := CreateCluster(given, uuid, name);
        case UpdateCluster(c, name) => error := UpdateCluster(c, name);
        case DeleteCluster(c, cascade, permanent) => error := DeleteCluster(c, cascade, permanent);
        case CreateSubcluster(given, uuid, c, keywords) => error := CreateSubcluster(given, uuid, c, keywords);
        case UpdateSubcluster(s, keywords) => error := UpdateSubcluster(s, keywords);
        case DeleteSubcluster(s, permanent) => error := DeleteSubcluster(s, permanent);
        case MoveNode(n, c) => error := MoveNodeToCluster(n, c);
        case MoveSubcluster(s, c) => error := MoveSubclusterToCluster(s, c);
        case AddNode(s, n) => error := AddNodeToSubcluster(s, n);
        case RemoveNode(s, n) => error := RemoveNodeFromSubcluster(s, n);
      }
    }

    /**
     The graph is that of the operations before the first rejected one, and the
     batch is reported complete exactly when there is none.
     */
    method ExecuteBatch(ops: seq<Op>) returns (r: BatchResponse)
      modifies repo
      ensures r.BadRequest? <==> |ops| == 0 || |ops| > 100
      ensures r.BadRequest? ==> repo.g == old(repo.g)
      ensures !r.BadRequest? ==> repo.g == Fold(up, old(repo.g), ops[..AcceptedPrefix(up, old(repo.g), ops)])
      ensures r.Completed? ==> AcceptedPrefix(up, old(repo.g), ops) == |ops|
                               && r.results == Successes(|ops|)
      ensures r.Failed? ==> r.index == AcceptedPrefix(up, old(repo.g), ops) < |ops|
                            && Effect(up, repo.g, ops[r.index]) == Rejected(r.error)
    {
      if |ops| == 0 || |ops| > 100 {
        return BadRequest;
      }
      var results := [];
      for i := 0 to |ops|
        invariant results == Successes(i)
        invariant AllAccepted(up, old(repo.g), repo.g, ops, i)
      {
        ghost var g := repo.g;
        var error := ExecuteOperation(ops[i]);
        BatchStep(up, old(repo.g), g, repo.g, ops, i, error);
        if error.Some? {
          return Failed(i, error.value);
        }
        results := results + [OperationResult(i, true)];
      }
      BatchEnds(up, old(repo.g), repo.g, ops);
      return Completed(results);
    }
  }

  // ---- why the steps compose ----

  /** The first operations were all accepted, and this is where they lead. */
  ghost predicate AllAccepted(up: char -> string, g0: Graph, g: Graph, ops: seq<Op>, i: nat) {
    i <= |ops| && g == Fold(up, g0, ops[..i]) && AcceptedPrefix(up, g0, ops[..i]) == i
  }

  lemma BatchStep(up: char -> string, g0: Graph, g: Graph, g': Graph, ops: seq<Op>, i: nat, error: Option<Error>)
    requires i < |ops| && AllAccepted(up, g0, g, ops, i) && Agrees(up, g, g', ops[i], error)
    ensures error.None? ==> AllAccepted(up, g0, g', ops, i + 1)
    ensures error.Some? ==>
              && g' == Fold(up, g0, ops[..AcceptedPrefix(up, g0, ops)]) && AcceptedPrefix(up, g0, ops) == i
              && Effect(up, g', ops[i]) == Rejected(error.value)
  {
    PrefixStep(up, g0, ops, i);
  }

  lemma BatchEnds(up: char -> string, g0: Graph, g: Graph, ops: seq<Op>)
    requires AllAccepted(up, g0, g, ops, |ops|)
    ensures AcceptedPrefix(up, g0, ops) == |ops| && g == Fold(up, g0, ops[..AcceptedPrefix(up, g0, ops)])
  {
    assert ops[..|ops|] == ops;
  }

  lemma DeletingClusterRecords(up: char -> string, g: Graph, c: ClusterId, cascade: bool, permanent: bool)
    ensures var r := Effect(up, g, DeleteCluster(c, cascade, permanent));
            r.Done? ==> ClusterRecords(g, r.g, c, permanent)
  {
    var r, ids := Effect(up, g, DeleteCluster(c, cascade, permanent)), NodesIn(g, c);
    if r.Done? {
      DeletingNodeRecords(g, ids, permanent);
      ClusterRecordsAfter(g, WithoutNodes(g, ids, permanent), c, ids, permanent);
    }
  }

  lemma DeletingNodeRecords(g: Graph, ids: set<NodeId>, permanent: bool)
    ensures NodeRecords(g, WithoutNodes(g, ids, permanent), ids, permanent)
    ensures SubRecords(g, WithoutNodes(g, ids, permanent), ids, permanent)
  {
  }

  lemma NodeDeleted(g: Graph, n: NodeId, permanent: bool)
    ensures var g' := WithoutNodes(g, {n}, permanent);
            && Without(g, g', n) && NodeRecords(g, g', {n}, permanent) && SubRecords(g, g', {n}, permanent)
            && (g.HasNode(n) ==> (n in g'.nodes <==> !permanent))
  {
    DeletingNodesInduces(g, {n}, permanent);
    DeletingNodeRecords(g, {n}, permanent);
  }

  lemma ClusterRecordsAfter(g: Graph, h: Graph, c: ClusterId, ids: set<NodeId>, permanent: bool)
    requires NodeRecords(g, h, ids, permanent) && SubRecords(g, h, ids, permanent) && h.clusters == g.clusters
    requires c in g.clusters && ids == set n | n in g.nodes && !g.nodes[n].deleted && g.nodes[n].cluster == c
    ensures ClusterRecords(g, WithoutCluster(h, c, permanent), c, permanent)
  {
  }

  lemma CascadeOrEmpty(up: char -> string, g: Graph, c: ClusterId, cascade: bool, permanent: bool)
    ensures Inv(g) && Effect(up, g, DeleteCluster(c, cascade, permanent)).Done? ==>
              ClusterGone(g, Effect(up, g, DeleteCluster(c, cascade, permanent)).g, c)
  {
    if Inv(g) && Effect(up, g, DeleteCluster(c, cascade, permanent)).Done? {
      CascadeLeavesInducedSubgraph(up, g, c, permanent);
    }
  }

  lemma SomeNodeIn(g: Graph, c: ClusterId)
    ensures NodesIn(g, c) != {} <==> exists n <- g.nodes :: !g.nodes[n].deleted && g.nodes[n].cluster == c
  {
    if n :| n in g.nodes && !g.nodes[n].deleted && g.nodes[n].cluster == c {
      assert n in NodesIn(g, c);
    }
    if forall n <- g.nodes :: g.nodes[n].deleted || g.nodes[n].cluster != c {
      assert NodesIn(g, c) == {};
    }
  }

  lemma DeletingNone(g: Graph, permanent: bool)
    ensures WithoutNodes(g, {}, permanent) == g
  {
    if permanent {
      DeletingNoNodes(g);
    } else {
      assert WithoutNodes(g, {}, false).nodes == g.nodes;
      assert WithoutNodes(g, {}, false).edges == g.edges;
    }
  }

  /** Deleting the edges first changes nothing: deleting the nodes takes them anyway. */
  lemma EdgesGoOnce(g: Graph, ids: set<NodeId>, permanent: bool)
    ensures WithoutNodes(WithoutEdges(g, ids, permanent), ids, permanent) == WithoutNodes(g, ids, permanent)
  {
    assert WithoutEdges(WithoutEdges(g, ids, permanent), ids, permanent).edges == WithoutEdges(g, ids, permanent).edges;
  }

  function Left(g: Graph, ss: set<SubclusterId>, n: NodeId): map<SubclusterId, Subcluster> {
    map s | s in g.subs :: if s in ss then g.subs[s].(members := g.subs[s].members - {n}) else g.subs[s]
  }

  lemma LeftOneMore(g: Graph, ss: set<SubclusterId>, s: SubclusterId, n: NodeId)
    requires s in g.subs && s !in ss
    ensures var subs := Left(g, ss, n); subs[s := subs[s].(members := subs[s].members - {n})] == Left(g, ss + {s}, n)
  {
  }

  lemma LeavingAllIsLeaving(g: Graph, all: set<SubclusterId>, n: NodeId, c: ClusterId)
    requires all == set s | s in g.subs && g.HasSub(s) && g.subs[s].cluster != c && n in g.subs[s].members
    ensures Left(g, all, n) == LeaveOthers(g, n, c)
  {
    forall s | s in g.subs ensures Left(g, all, n)[s] == LeaveOthers(g, n, c)[s] {
      assert n !in g.subs[s].members ==> g.subs[s].members - {n} == g.subs[s].members;
    }
  }
}
