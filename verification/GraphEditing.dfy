/**
 The direct edits of one user's macro graph, as the effect of each operation on
 the stored graph. Deleting softly marks a record; only active records are found.
 */
module GraphEditing {
  import opened Options
  import opened RelationType

  type NodeId = int
  type EdgeId = string
  type ClusterId = string
  type SubclusterId = string
  type Props = map<string, string>

  datatype Node = Node(name: string, cluster: ClusterId, metadata: Props, deleted: bool)
  datatype Edge = Edge(source: NodeId, target: NodeId, relationType: string, properties: Props, deleted: bool)
  datatype Cluster = Cluster(name: string, deleted: bool)
  datatype Subcluster = Subcluster(cluster: ClusterId, keywords: seq<string>, members: set<NodeId>, deleted: bool)

  /** A node or subcluster without a cluster has the empty cluster id. */
  datatype Graph = Graph(
    nodes: map<NodeId, Node>,
    edges: map<EdgeId, Edge>,
    clusters: map<ClusterId, Cluster>,
    subs: map<SubclusterId, Subcluster>)
  {
    predicate HasNode(n: NodeId) { Live(nodes, n) }
    predicate HasEdge(e: EdgeId) { Linked(edges, e) }
    predicate HasCluster(c: ClusterId) { Open(clusters, c) }
    predicate HasSub(s: SubclusterId) { s in subs && !subs[s].deleted }
  }

  predicate Live(nodes: map<NodeId, Node>, n: NodeId) { n in nodes && !nodes[n].deleted }

  predicate Linked(edges: map<EdgeId, Edge>, e: EdgeId) { e in edges && !edges[e].deleted }

  predicate Open(clusters: map<ClusterId, Cluster>, c: ClusterId) { c in clusters && !clusters[c].deleted }

  /** Absent optional fields are None; `uuid` is what the id generator answers. */
  datatype Op =
    | CreateNode(name: string, cluster: ClusterId, metadata: Option<Props>)
    | UpdateNode(node: NodeId, newName: Option<string>, metadata: Option<Props>)
    | DeleteNode(node: NodeId, permanent: bool)
    | CreateEdge(uuid: string, source: NodeId, target: NodeId, relationType: string, properties: Option<Props>)
    | UpdateEdge(edge: EdgeId, newType: Option<string>, properties: Option<Props>)
    | DeleteEdge(edge: EdgeId, permanent: bool)
    | CreateCluster(given: string, uuid: string, name: string)
    | UpdateCluster(cluster: ClusterId, newName: Option<string>)
    | DeleteCluster(cluster: ClusterId, cascade: bool, permanent: bool)
    | CreateSubcluster(given: string, uuid: string, cluster: ClusterId, keywords: seq<string>)
    | UpdateSubcluster(sub: SubclusterId, newKeywords: Option<seq<string>>)
    | DeleteSubcluster(sub: SubclusterId, permanent: bool)
    | MoveNode(node: NodeId, cluster: ClusterId)
    | MoveSubcluster(sub: SubclusterId, cluster: ClusterId)
    | AddNode(sub: SubclusterId, node: NodeId)
    | RemoveNode(sub: SubclusterId, node: NodeId)

  datatype Error = Invalid | NotFound | Conflict

  datatype Result = Done(g: Graph) | Rejected(error: Error)

  const RESERVED_PROPERTY_KEYS: set<string> := {"id", "userId", "createdAt"}

  function Sanitized(p: Option<Props>): Props {
    if p.None? then map[] else map k | k in p.value && k !in RESERVED_PROPERTY_KEYS :: p.value[k]
  }

  /** A given id is trimmed; a blank one counts as none. */
  function ChosenId(given: string, uuid: string): string { if Trim(given) != "" then Trim(given) else uuid }

  /** One more than the highest id stored, soft-deleted nodes included. */
  function NextNodeId(g: Graph): (n: NodeId)
    ensures forall m <- g.nodes :: m < n
    ensures n - 1 in g.nodes || (g.nodes.Keys == {} && n == 1)
  {
    MaxId(g.nodes.Keys) + 1
  }

  /** 0 without nodes, as the query coalesces. */
  function MaxId(ids: set<NodeId>): (m: NodeId)
    ensures forall n <- ids :: n <= m
    ensures m in ids || (ids == {} && m == 0)
  {
    if exists n :: n in ids then
      SomeMaximum(ids);
      var m :| m in ids && forall n <- ids :: n <= m;
      m
    else
      assert ids == {}; 0
  }

  lemma {:induction false} SomeMaximum(ids: set<NodeId>)
    requires exists n :: n in ids
    ensures exists m :: m in ids && forall n <- ids :: n <= m
  {
    var n :| n in ids;
    var rest := ids - {n};
    if exists k :: k in rest {
      SomeMaximum(rest);
      var m :| m in rest && forall k <- rest :: k <= m;
      var top := if n <= m then m else n;
      assert forall k <- ids :: k in rest || k == n;
      assert top in ids && forall k <- ids :: k <= top;
    } else {
      assert rest == {} && ids == rest + {n};
    }
  }

  // ---- deletions ----

  predicate Touches(e: Edge, ids: set<NodeId>) { e.source in ids || e.target in ids }

  function WithoutEdges(g: Graph, ids: set<NodeId>, permanent: bool): Graph {
    if permanent then g.(edges := map e | e in g.edges && !Touches(g.edges[e], ids) :: g.edges[e])
    else g.(edges := map e | e in g.edges ::
      if Touches(g.edges[e], ids) then g.edges[e].(deleted := true) else g.edges[e])
  }

  /** Deleting nodes takes their edges along, and for good their memberships too. */
  function WithoutNodes(g: Graph, ids: set<NodeId>, permanent: bool): Graph {
    var g' := WithoutEdges(g, ids, permanent);
    if permanent then
      g'.(nodes := (map n | n in g.nodes && n !in ids :: g.nodes[n]),
          subs := map s | s in g.subs :: g.subs[s].(members := g.subs[s].members - ids))
    else g'.(nodes := map n | n in g.nodes :: if n in ids then g.nodes[n].(deleted := true) else g.nodes[n])
  }

  /** Deleting a cluster for good leaves its remaining records without a cluster. */
  function WithoutCluster(g: Graph, c: ClusterId, permanent: bool): Graph
    requires c in g.clusters
  {
    if permanent then
      g.(clusters := g.clusters - {c},
         nodes := (map n | n in g.nodes :: if g.nodes[n].cluster == c then g.nodes[n].(cluster := "") else g.nodes[n]),
         subs := map s | s in g.subs :: if g.subs[s].cluster == c then g.subs[s].(cluster := "") else g.subs[s])
    else g.(clusters := g.clusters[c := g.clusters[c].(deleted := true)])
  }

  function NodesIn(g: Graph, c: ClusterId): set<NodeId> {
    set n | n in g.nodes && !g.nodes[n].deleted && g.nodes[n].cluster == c
  }

  // ---- moves ----

  function ActiveMembers(g: Graph, s: SubclusterId): set<NodeId>
    requires s in g.subs
  {
    set n | n in g.subs[s].members && g.HasNode(n)
  }

  function Moved(g: Graph, ids: set<NodeId>, c: ClusterId): map<NodeId, Node> {
    map n | n in g.nodes :: if n in ids then g.nodes[n].(cluster := c) else g.nodes[n]
  }

  /** The node leaves every active subcluster of another cluster. */
  function LeaveOthers(g: Graph, n: NodeId, c: ClusterId): map<SubclusterId, Subcluster> {
    map s | s in g.subs ::
      var sub := g.subs[s];
      if !sub.deleted && sub.cluster != c then sub.(members := sub.members - {n}) else sub
  }

  // ---- one operation ----

  function Effect(up: char -> string, g: Graph, op: Op): Result {
    match op
    case CreateNode(name, c, metadata) =>
      if Trim(name) == "" || Trim(c) == "" then Rejected(Invalid)
      else if !g.HasCluster(c) then Rejected(NotFound)
      else Done(g.(nodes := g.nodes[NextNodeId(g) := Node(Trim(name), c, Sanitized(metadata), false)]))
    case UpdateNode(n, name, metadata) =>
      if !g.HasNode(n) then Rejected(NotFound)
      else
        var node := g.nodes[n];
        Done(g.(nodes := g.nodes[n := node.(
          name := if name.Some? then name.value else node.name,
          metadata := if metadata.Some? then Sanitized(metadata) else node.metadata)]))
    case DeleteNode(n, permanent) =>
      if !g.HasNode(n) then Rejected(NotFound) else Done(WithoutNodes(g, {n}, permanent))
    case CreateEdge(id, source, target, relationType, properties) =>
      if source == target then Rejected(Invalid)
      else if !g.HasNode(source) || !g.HasNode(target) then Rejected(NotFound)
      else
        var name := if relationType != "" then Normalize(up, relationType) else Some("INSIGHT");
        if name.None? then Rejected(Invalid)
        else Done(g.(edges := g.edges[id := Edge(source, target, name.value, Sanitized(properties), false)]))
    case UpdateEdge(e, relationType, properties) =>
      if e == "" then Rejected(Invalid)
      else if !g.HasEdge(e) then Rejected(NotFound)
      else
        var edge := g.edges[e];
        var name := if relationType.Some? then Normalize(up, relationType.value) else Some(edge.relationType);
        if name.None? then Rejected(Invalid)
        else Done(g.(edges := g.edges[e := edge.(relationType := name.value,
          properties := if properties.Some? then Sanitized(properties) else edge.properties)]))
    case DeleteEdge(e, permanent) =>
      if e == "" then Rejected(Invalid)
      else if !g.HasEdge(e) then Rejected(NotFound)
      else Done(g.(edges := if permanent then g.edges - {e} else g.edges[e := g.edges[e].(deleted := true)]))
    case CreateCluster(given, uuid, name) =>
      var id := ChosenId(given, uuid);
      if Trim(name) == "" then Rejected(Invalid)
      else if given != "" && g.HasCluster(id) then Rejected(Conflict)
      else Done(g.(clusters := g.clusters[id := Cluster(Trim(name), false)]))
    case UpdateCluster(c, name) =>
      if c == "" then Rejected(Invalid)
      else if !g.HasCluster(c) then Rejected(NotFound)
      else
        var cluster := g.clusters[c];
        Done(g.(clusters := g.clusters[c := cluster.(name := if name.Some? then name.value else cluster.name)]))
    case DeleteCluster(c, cascade, permanent) =>
      if c == "" then Rejected(Invalid)
      else if !g.HasCluster(c) then Rejected(NotFound)
      else if !cascade && NodesIn(g, c) != {} then Rejected(Conflict)
      else Done(WithoutCluster(WithoutNodes(g, NodesIn(g, c), permanent), c, permanent))
    case CreateSubcluster(given, uuid, c, keywords) =>
      var id := ChosenId(given, uuid);
      if Trim(c) == "" then Rejected(Invalid)
      else if !g.HasCluster(c) then Rejected(NotFound)
      else if given != "" && g.HasSub(id) then Rejected(Conflict)
      else Done(g.(subs := g.subs[id := Subcluster(c, keywords, {}, false)]))
    case UpdateSubcluster(s, keywords) =>
      if s == "" then Rejected(Invalid)
      else if !g.HasSub(s) then Rejected(NotFound)
      else
        var sub := g.subs[s];
        Done(g.(subs := g.subs[s := sub.(keywords := if keywords.Some? then keywords.value else sub.keywords)]))
    case DeleteSubcluster(s, permanent) =>
      if s == "" then Rejected(Invalid)
      else if !g.HasSub(s) then Rejected(NotFound)
      else Done(g.(subs := if permanent then g.subs - {s} else g.subs[s := g.subs[s].(deleted := true)]))
    case MoveNode(n, c) =>
      if Trim(c) == "" then Rejected(Invalid)
      else if !g.HasNode(n) || !g.HasCluster(c) then Rejected(NotFound)
      else Done(g.(nodes := Moved(g, {n}, c), subs := LeaveOthers(g, n, c)))
    case MoveSubcluster(s, c) =>
      if s == "" || Trim(c) == "" then Rejected(Invalid)
      else if !g.HasSub(s) || !g.HasCluster(c) then Rejected(NotFound)
      else Done(g.(subs := g.subs[s := g.subs[s].(cluster := c)], nodes := Moved(g, ActiveMembers(g, s), c)))
    case AddNode(s, n) =>
      if s == "" then Rejected(Invalid)
      else if !g.HasNode(n) || !g.HasSub(s) then Rejected(NotFound)
      else if g.nodes[n].cluster != g.subs[s].cluster then Rejected(Invalid)
      else Done(g.(subs := g.subs[s := g.subs[s].(members := g.subs[s].members + {n})]))
    case RemoveNode(s, n) =>
      if s == "" then Rejected(Invalid)
      else if !g.HasSub(s) then Rejected(NotFound)
      else Done(g.(subs := g.subs[s := g.subs[s].(members := g.subs[s].members - {n})]))
  }

  function After(up: char -> string, g: Graph, op: Op): Graph {
    var r := Effect(up, g, op);
    if r.Done? then r.g else g
  }

  // ---- the invariant ----

  ghost predicate NodesInClusters(nodes: map<NodeId, Node>, clusters: map<ClusterId, Cluster>) {
    forall n | Live(nodes, n) :: Open(clusters, nodes[n].cluster)
  }

  ghost predicate EdgesJoinNodes(edges: map<EdgeId, Edge>, nodes: map<NodeId, Node>) {
    forall e <- edges :: !edges[e].deleted ==>
      Live(nodes, edges[e].source) && Live(nodes, edges[e].target) && edges[e].source != edges[e].target
  }

  ghost predicate MembersShareCluster(subs: map<SubclusterId, Subcluster>, nodes: map<NodeId, Node>) {
    forall s, n :: s in subs && !subs[s].deleted && n in subs[s].members && Live(nodes, n) ==>
      nodes[n].cluster == subs[s].cluster
  }

  /** References are to stored records, deleted ones included. */
  ghost predicate NodesRefer(nodes: map<NodeId, Node>, clusters: map<ClusterId, Cluster>) {
    forall n <- nodes :: nodes[n].cluster == "" || nodes[n].cluster in clusters
  }

  ghost predicate SubsRefer(subs: map<SubclusterId, Subcluster>, nodes: set<NodeId>, clusters: set<ClusterId>) {
    forall s <- subs :: subs[s].members <= nodes && (subs[s].cluster == "" || subs[s].cluster in clusters)
  }

  /** No stored map overrides a system field. */
  ghost predicate CleanNodes(nodes: map<NodeId, Node>) {
    forall n <- nodes :: nodes[n].metadata.Keys !! RESERVED_PROPERTY_KEYS
  }

  /** Relation types are canonical, not empty, and none the system uses itself. */
  predicate IsUserType(t: string) { t != "" && Canonical(t) && t !in RESERVED_RELATION_TYPES }

  ghost predicate CleanEdges(edges: map<EdgeId, Edge>, nodes: set<NodeId>) {
    forall e <- edges :: edges[e].source in nodes && edges[e].target in nodes
      && edges[e].properties.Keys !! RESERVED_PROPERTY_KEYS && IsUserType(edges[e].relationType)
  }

  ghost predicate Inv(g: Graph) {
    && NodesInClusters(g.nodes, g.clusters) && EdgesJoinNodes(g.edges, g.nodes) && MembersShareCluster(g.subs, g.nodes)
    && NodesRefer(g.nodes, g.clusters) && SubsRefer(g.subs, g.nodes.Keys, g.clusters.Keys)
    && CleanNodes(g.nodes) && CleanEdges(g.edges, g.nodes.Keys)
  }

  /** Some active member of the moved subcluster also sits in an active subcluster of a third cluster. */
  predicate SharedElsewhere(g: Graph, s: SubclusterId, c: ClusterId)
    requires s in g.subs
  {
    exists s' <- g.subs :: s' != s && !g.subs[s'].deleted && g.subs[s'].cluster != c
      && exists n <- g.subs[s].members :: n in g.subs[s'].members && g.HasNode(n)
  }

  predicate Safe(g: Graph, op: Op) {
    op.MoveSubcluster? ==> op.sub in g.subs ==> !SharedElsewhere(g, op.sub, op.cluster)
  }

  const EMPTY := Graph(map[], map[], map[], map[])

  /** Operations one after the other; a rejected one changes nothing. */
  function Fold(up: char -> string, g: Graph, ops: seq<Op>): Graph {
    if ops == [] then g else After(up, Fold(up, g, ops[..|ops| - 1]), ops[|ops| - 1])
  }

  /** How many leading operations are accepted before the first rejection. */
  function AcceptedPrefix(up: char -> string, g: Graph, ops: seq<Op>): (n: nat)
    ensures n <= |ops|
  {
    if ops == [] then 0
    else
      var init := ops[..|ops| - 1];
      var n := AcceptedPrefix(up, g, init);
      if n == |init| && Effect(up, Fold(up, g, init), ops[|init|]).Done? then |ops| else n
  }
}
