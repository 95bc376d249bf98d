/**
 * The property graph the versioning engine works on: nodes that carry a set of
 * labels and a property map, and directed, typed edges ("relationships") that
 * carry a property map of their own.
 *
 * `Graph` is the content of the store at one instant; `GraphDb` is the store
 * itself, whose methods are the primitive operations the engine calls.
 */
module PropertyGraph {

  type NodeId = nat
  type EdgeId = nat

  /** A property value. The engine only ever reads integer ("long") values;
      every other value is carried along unexamined. */
  datatype Value = Long(n: int) | Other(tag: nat)

  type Props = map<string, Value>

  datatype Edge = Edge(src: NodeId, dst: NodeId, kind: string, props: Props)

  /** The nodes are the keys of `labels` (and of `props`); fresh identities are
      drawn from the counters `nextNode` and `nextEdge`. */
  datatype Graph = Graph(
    labels: map<NodeId, set<string>>,
    props: map<NodeId, Props>,
    edges: map<EdgeId, Edge>,
    nextNode: NodeId,
    nextEdge: EdgeId)

  /** Every node has a property map, the counters lie beyond every identity in
      use, and every edge joins two existing nodes. */
  ghost predicate Wf(g: Graph) {
    && g.labels.Keys == g.props.Keys
    && (forall n :: n in g.labels ==> n < g.nextNode)
    && (forall id :: id in g.edges ==> id < g.nextEdge)
    && (forall id :: id in g.edges ==> g.edges[id].src in g.labels && g.edges[id].dst in g.labels)
  }

  /** A fresh node with the given labels and no properties. */
  function AddNode(g: Graph, ls: set<string>): (r: Graph)
    ensures r.edges == g.edges && r.nextEdge == g.nextEdge && r.nextNode == g.nextNode + 1
    ensures r.labels == g.labels[g.nextNode := ls] && r.props == g.props[g.nextNode := map[]]
    ensures Wf(g) ==> Wf(r) && g.nextNode !in g.labels
  {
    g.(labels := g.labels[g.nextNode := ls], props := g.props[g.nextNode := map[]], nextNode := g.nextNode + 1)
  }

  /** Sets every property of `ps` on node `n`; the other properties of `n` stay. */
  function SetNodeProperties(g: Graph, n: NodeId, ps: Props): (r: Graph)
    requires n in g.props
    ensures r.labels == g.labels && r.edges == g.edges
    ensures r.nextNode == g.nextNode && r.nextEdge == g.nextEdge
    ensures r.props.Keys == g.props.Keys
    ensures Wf(g) ==> Wf(r)
  {
    g.(props := g.props[n := g.props[n] + ps])
  }

  /** What `SetNodeProperties` does to the property maps: node `n` gains every
      key of `ps`, whose values win, and keeps its other keys; every other
      node's map is unchanged. */
  lemma SetNodePropertiesEffect(g: Graph, n: NodeId, ps: Props)
    requires n in g.props
    ensures var r := SetNodeProperties(g, n, ps);
      && (forall m :: m in g.props && m != n ==> r.props[m] == g.props[m])
      && r.props[n].Keys == g.props[n].Keys + ps.Keys
      && (forall k :: k in ps ==> r.props[n][k] == ps[k])
      && (forall k :: k in g.props[n] && k !in ps ==> r.props[n][k] == g.props[n][k])
  {
  }

  /** A fresh edge from `src` to `dst`. */
  function AddEdge(g: Graph, src: NodeId, dst: NodeId, kind: string, ps: Props): (r: Graph)
    ensures r.labels == g.labels && r.props == g.props && r.nextNode == g.nextNode
    ensures r.nextEdge == g.nextEdge + 1 && r.edges == g.edges[g.nextEdge := Edge(src, dst, kind, ps)]
    ensures Wf(g) ==> g.nextEdge !in g.edges
    ensures Wf(g) && src in g.labels && dst in g.labels ==> Wf(r)
  {
    g.(edges := g.edges[g.nextEdge := Edge(src, dst, kind, ps)], nextEdge := g.nextEdge + 1)
  }

  /** Sets one property of edge `id`. */
  function SetEdgeProperty(g: Graph, id: EdgeId, key: string, v: Value): (r: Graph)
    requires id in g.edges
  {
    g.(edges := g.edges[id := g.edges[id].(props := g.edges[id].props[key := v])])
  }

  /** Removes edge `id`; no node is touched. */
  function DeleteEdge(g: Graph, id: EdgeId): (r: Graph)
  {
    g.(edges := g.edges - {id})
  }

  /** The graph store. Its fields are the components of a `Graph`; each method
      is one primitive operation of the store. */
  class GraphDb {
    var labels: map<NodeId, set<string>>
    var props: map<NodeId, Props>
    var edges: map<EdgeId, Edge>
    var nextNode: NodeId
    var nextEdge: EdgeId

    function View(): Graph
      reads this
    {
      Graph(labels, props, edges, nextNode, nextEdge)
    }

    ghost predicate Valid()
      reads this
    {
      Wf(View())
    }

    constructor ()
      ensures Valid() && View() == Graph(map[], map[], map[], 0, 0)
    {
      labels, props, edges := map[], map[], map[];
      nextNode, nextEdge := 0, 0;
    }

    method CreateNode(ls: set<string>) returns (n: NodeId)
      requires Valid()
      modifies this
      ensures Valid()
      ensures n == old(nextNode) && n !in old(labels)
      ensures View() == AddNode(old(View()), ls)
    {
      n := nextNode;
      labels := labels[n := ls];
      props := props[n := map[]];
      nextNode := nextNode + 1;
    }

    method SetProperties(n: NodeId, ps: Props)
      requires Valid() && n in labels
      modifies this
      ensures Valid()
      ensures View() == SetNodeProperties(old(View()), n, ps)
    {
      props := props[n := props[n] + ps];
    }

    method CreateRelationship(src: NodeId, dst: NodeId, kind: string, ps: Props) returns (id: EdgeId)
      requires Valid() && src in labels && dst in labels
      modifies this
      ensures Valid()
      ensures id == old(nextEdge) && id !in old(edges)
      ensures View() == AddEdge(old(View()), src, dst, kind, ps)
    {
      id := nextEdge;
      edges := edges[id := Edge(src, dst, kind, ps)];
      nextEdge := nextEdge + 1;
    }

    method SetRelationshipProperty(id: EdgeId, key: string, v: Value)
      requires Valid() && id in edges
      modifies this
      ensures Valid()
      ensures View() == SetEdgeProperty(old(View()), id, key, v)
    {
      edges := edges[id := edges[id].(props := edges[id].props[key := v])];
    }

    method DeleteRelationship(id: EdgeId)
      requires Valid()
      modifies this
      ensures Valid()
      ensures View() == DeleteEdge(old(View()), id)
    {
      edges := edges - {id};
    }

    /** Discards every change made since `snapshot` was taken: what the
        enclosing transaction does when an operation fails part-way. */
    method Rollback(snapshot: Graph)
      requires Wf(snapshot)
      modifies this
      ensures Valid() && View() == snapshot
    {
      labels, props, edges := snapshot.labels, snapshot.props, snapshot.edges;
      nextNode, nextEdge := snapshot.nextNode, snapshot.nextEdge;
    }
  }
}
