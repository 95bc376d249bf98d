/**
 * The two loops of the update procedures, as folds over the order in which
 * their edges were visited: the retirement of every CURRENT edge of an entity
 * (`RetireAll`), and the replay of a state's reference edges onto its
 * successor (`ReplayAll`). The lemmas say what each fold does to the graph,
 * whatever the visiting order.
 */
module History {
  import opened PropertyGraph
  import opened CoreProcedure

  /** No edge occurs twice in `order`. */
  ghost predicate Distinct(order: seq<EdgeId>) {
    forall i, j :: 0 <= i < j < |order| ==> order[i] != order[j]
  }

  lemma DistinctSnoc(order: seq<EdgeId>, c: EdgeId)
    requires Distinct(order) && c !in order
    ensures Distinct(order + [c])
    ensures forall id :: id in order + [c] <==> id in order || id == c
  {
    var whole := order + [c];
    forall i, j | 0 <= i < j < |whole| ensures whole[i] != whole[j] {
      if j == |order| {
        assert whole[i] == order[i] && order[i] in order;
      } else {
        assert whole[i] == order[i] && whole[j] == order[j];
      }
    }
  }

  /** `order` lists the edges of `s`, each once. */
  ghost predicate Enumerates(order: seq<EdgeId>, s: set<EdgeId>) {
    Distinct(order) && forall id :: id in order <==> id in s
  }

  /** `order` lists distinct, dated CURRENT edges of a well-formed graph in
      which `newState` exists. */
  ghost predicate Retirable(g: Graph, order: seq<EdgeId>, newState: NodeId) {
    && Wf(g) && newState in g.labels && Distinct(order)
    && (forall id :: id in order ==> id in g.edges && g.edges[id].kind == CURRENT_TYPE && Dated(g.edges[id]))
  }

  /** Retires the CURRENT edges of `order`, first to last, in favour of
      `newState`. An edge that is missing or carries no date is passed over;
      under `Retirable`, which every lemma below assumes, there is none. */
  ghost function RetireAll(g: Graph, order: seq<EdgeId>, newState: NodeId, at: int): Graph
    decreases |order|
  {
    if order == [] then g
    else
      var c := order[0];
      var next := if c in g.edges && Dated(g.edges[c]) then Retire(g, c, newState, at) else g;
      RetireAll(next, order[1..], newState, at)
  }

  /** The states the edges of `order` point to. */
  ghost function Targets(g: Graph, order: seq<EdgeId>): set<NodeId>
    requires forall id :: id in order ==> id in g.edges
  {
    set id | id in order :: g.edges[id].dst
  }

  /** The HAS_STATE edges into any of those states. */
  ghost function ClosedBy(g: Graph, order: seq<EdgeId>): set<EdgeId>
    requires forall id :: id in order ==> id in g.edges
  {
    set id | id in g.edges && g.edges[id].kind == HAS_STATE_TYPE && g.edges[id].dst in Targets(g, order)
  }

  /** Retiring the first edge of the order leaves the rest retirable, and
      leaves the rest's edges (hence their targets) as they were. */
  lemma RetireHead(g: Graph, order: seq<EdgeId>, newState: NodeId, at: int)
    requires Retirable(g, order, newState) && order != []
    ensures order[0] !in order[1..]
    ensures forall id :: id in order <==> id == order[0] || id in order[1..]
    ensures var g' := Retire(g, order[0], newState, at);
      && RetireAll(g, order, newState, at) == RetireAll(g', order[1..], newState, at)
      && Retirable(g', order[1..], newState)
      && (forall id :: id in order[1..] ==> g'.edges[id] == g.edges[id])
      && Targets(g', order[1..]) == Targets(g, order[1..])
      && Targets(g, order) == Targets(g, order[1..]) + {g.edges[order[0]].dst}
  {
    var c := order[0];
    var rest := order[1..];
    assert order == [c] + rest;
    assert Distinct(rest) by {
      forall i, j | 0 <= i < j < |rest| ensures rest[i] != rest[j] {
        assert rest[i] == order[i + 1] && rest[j] == order[j + 1];
      }
    }
    var g' := Retire(g, c, newState, at);
    RetireFacts(g, c, newState, at);
    forall id | id in rest
      ensures id in g'.edges && g'.edges[id] == g.edges[id]
    {
      assert id != c;
      assert id !in HistoryEdges(g, g.edges[c].dst);
    }
  }

  /** Retiring one more edge at the end of the order is one more `Retire`:
      what lets a loop that visits the edges one at a time keep the fold as
      its invariant. */
  lemma {:induction false} RetireAllSnoc(g: Graph, order: seq<EdgeId>, c: EdgeId, newState: NodeId, at: int)
    requires Retirable(g, order + [c], newState)
    ensures Retirable(g, order, newState) && c in g.edges
    ensures c in RetireAll(g, order, newState, at).edges
    ensures RetireAll(g, order, newState, at).edges[c] == g.edges[c]
    ensures RetireAll(g, order + [c], newState, at) == Retire(RetireAll(g, order, newState, at), c, newState, at)
    decreases |order|
  {
    var whole := order + [c];
    assert forall id :: id in whole <==> id in order || id == c;
    assert Distinct(order) by {
      forall i, j | 0 <= i < j < |order| ensures order[i] != order[j] {
        assert whole[i] == order[i] && whole[j] == order[j];
      }
    }
    if order == [] {
      assert whole == [c];
    } else {
      assert whole[0] == order[0];
      assert whole[1..] == order[1..] + [c];
      var g' := Retire(g, order[0], newState, at);
      RetireHead(g, whole, newState, at);
      RetireAllSnoc(g', order[1..], c, newState, at);
    }
  }

  /** Retirement touches no node, and uses one fresh edge per retired edge. */
  lemma {:induction false} RetireAllNodes(g: Graph, order: seq<EdgeId>, newState: NodeId, at: int)
    requires Retirable(g, order, newState)
    ensures var r := RetireAll(g, order, newState, at);
      && Wf(r) && r.labels == g.labels && r.props == g.props
      && r.nextNode == g.nextNode && r.nextEdge == g.nextEdge + |order|
    decreases |order|
  {
    if order != [] {
      RetireHead(g, order, newState, at);
      RetireAllNodes(Retire(g, order[0], newState, at), order[1..], newState, at);
    }
  }

  /** The edges left after retirement: the ones not retired, and one fresh
      edge per retired one. */
  lemma {:induction false} RetireAllKeys(g: Graph, order: seq<EdgeId>, newState: NodeId, at: int)
    requires Retirable(g, order, newState)
    ensures var r := RetireAll(g, order, newState, at);
      forall id :: id in r.edges <==> (id in g.edges && id !in order) || g.nextEdge <= id < g.nextEdge + |order|
    decreases |order|
  {
    if order != [] {
      var c := order[0];
      var rest := order[1..];
      var g' := Retire(g, c, newState, at);
      RetireHead(g, order, newState, at);
      RetireFacts(g, c, newState, at);
      RetireAllKeys(g', rest, newState, at);
      var r := RetireAll(g, order, newState, at);
      assert r == RetireAll(g', rest, newState, at);
      forall id
        ensures id in r.edges <==> (id in g.edges && id !in order) || g.nextEdge <= id < g.nextEdge + |order|
      {
        assert id in order <==> id == c || id in rest;
        assert id in g'.edges <==> (id in g.edges && id != c) || id == g.nextEdge;
      }
    }
  }

  lemma ClosedTwice(e: Edge, at: int)
    ensures Closed(Closed(e, at), at) == Closed(e, at)
  {
    assert Closed(Closed(e, at), at).props == Closed(e, at).props;
  }

  /** Every edge that is neither retired nor a HAS_STATE edge is untouched;
      a HAS_STATE edge is closed at `at` exactly when it points to a state
      whose CURRENT edge was retired. */
  lemma {:induction false} RetireAllCloses(g: Graph, order: seq<EdgeId>, newState: NodeId, at: int)
    requires Retirable(g, order, newState)
    ensures var r := RetireAll(g, order, newState, at);
      forall id :: id in g.edges && id !in order ==>
        id in r.edges && r.edges[id] == if id in ClosedBy(g, order) then Closed(g.edges[id], at) else g.edges[id]
    decreases |order|
  {
    if order != [] {
      var c := order[0];
      var rest := order[1..];
      var g' := Retire(g, c, newState, at);
      RetireHead(g, order, newState, at);
      RetireFacts(g, c, newState, at);
      RetireAllCloses(g', rest, newState, at);
      var r := RetireAll(g, order, newState, at);
      assert r == RetireAll(g', rest, newState, at);
      var dst := g.edges[c].dst;
      forall id | id in g.edges && id !in order
        ensures id in r.edges
        ensures r.edges[id] == if id in ClosedBy(g, order) then Closed(g.edges[id], at) else g.edges[id]
      {
        assert id != c && id !in rest;
        var e := g.edges[id];
        assert id in g'.edges;
        assert g'.edges[id] == if id in HistoryEdges(g, dst) then Closed(e, at) else e;
        assert g'.edges[id].kind == e.kind && g'.edges[id].dst == e.dst;
        assert id in ClosedBy(g', rest) <==> id in ClosedBy(g, rest);
        assert id in ClosedBy(g, order) <==> id in ClosedBy(g, rest) || id in HistoryEdges(g, dst);
        ClosedTwice(e, at);
      }
    }
  }

  /** Retiring `c` leaves every other edge that is not a HAS_STATE edge as it was. */
  lemma RetireKeeps(p: Graph, c: EdgeId, newState: NodeId, at: int)
    requires Wf(p) && newState in p.labels && c in p.edges && Dated(p.edges[c])
    ensures var r := Retire(p, c, newState, at);
      forall k :: k in p.edges && k != c && p.edges[k].kind != HAS_STATE_TYPE ==> k in r.edges && r.edges[k] == p.edges[k]
  {
    var r := Retire(p, c, newState, at);
    RetireFacts(p, c, newState, at);
    forall k | k in p.edges && k != c && p.edges[k].kind != HAS_STATE_TYPE
      ensures k in r.edges && r.edges[k] == p.edges[k]
    {
      assert k !in HistoryEdges(p, p.edges[c].dst);
    }
  }

  /** Every edge of `order` exists and carries a date. */
  ghost predicate AllDated(g: Graph, order: seq<EdgeId>) {
    forall id :: id in order ==> id in g.edges && Dated(g.edges[id])
  }

  /** Edge `id` of `g` exists and is `e`. */
  predicate EdgeAt(g: Graph, id: EdgeId, e: Edge) {
    id in g.edges && g.edges[id] == e
  }

  /** The PREVIOUS edges of a retirement, by position: the one made for
      `order[i]` is at identity `first + i`. */
  ghost predicate Links(r: Graph, g: Graph, order: seq<EdgeId>, newState: NodeId, first: EdgeId)
    requires AllDated(g, order)
  {
    forall i :: 0 <= i < |order| ==> EdgeAt(r, first + i, PreviousEdge(newState, g.edges[order[i]]))
  }

  lemma LinkAt(r: Graph, g: Graph, order: seq<EdgeId>, newState: NodeId, first: EdgeId, i: int)
    requires AllDated(g, order)
    requires Links(r, g, order, newState, first) && 0 <= i < |order|
    ensures first + i in r.edges && r.edges[first + i] == PreviousEdge(newState, g.edges[order[i]])
  {
    assert order[i] in order;
  }

  /** A graph that keeps every PREVIOUS edge of `p` other than `c`, with
      `c` older than all of them, keeps the links `p` had. */
  lemma LinksKept(g: Graph, prefix: seq<EdgeId>, c: EdgeId, p: Graph, r: Graph, newState: NodeId)
    requires AllDated(g, prefix)
    requires c < g.nextEdge
    requires forall k :: k in p.edges && k != c && p.edges[k].kind != HAS_STATE_TYPE ==> k in r.edges && r.edges[k] == p.edges[k]
    requires Links(p, g, prefix, newState, g.nextEdge)
    ensures Links(r, g, prefix, newState, g.nextEdge)
  {
    forall i | 0 <= i < |prefix|
      ensures EdgeAt(r, g.nextEdge + i, PreviousEdge(newState, g.edges[prefix[i]]))
    {
      assert prefix[i] in prefix;
      LinkAt(p, g, prefix, newState, g.nextEdge, i);
      assert p.edges[g.nextEdge + i].kind == PREVIOUS_TYPE;
    }
  }

  /** One more retirement appends one PREVIOUS edge, at the next fresh
      identity, and keeps the PREVIOUS edges already made. */
  lemma LinksSnoc(g: Graph, prefix: seq<EdgeId>, c: EdgeId, p: Graph, r: Graph, newState: NodeId)
    requires AllDated(g, prefix) && c in g.edges && Dated(g.edges[c]) && c < g.nextEdge
    requires forall k :: k in p.edges && k != c && p.edges[k].kind != HAS_STATE_TYPE ==> k in r.edges && r.edges[k] == p.edges[k]
    requires EdgeAt(r, g.nextEdge + |prefix|, PreviousEdge(newState, g.edges[c]))
    requires Links(p, g, prefix, newState, g.nextEdge)
    ensures AllDated(g, prefix + [c])
    ensures Links(r, g, prefix + [c], newState, g.nextEdge)
  {
    var order := prefix + [c];
    LinksKept(g, prefix, c, p, r, newState);
    forall i | 0 <= i < |order|
      ensures EdgeAt(r, g.nextEdge + i, PreviousEdge(newState, g.edges[order[i]]))
    {
      if i < |prefix| {
        assert order[i] == prefix[i];
        LinkAt(r, g, prefix, newState, g.nextEdge, i);
      } else {
        assert order[i] == c;
      }
    }
  }

  /** `LinksSnoc` for the retirement of `c` itself. */
  lemma RetireLinksStep(g: Graph, prefix: seq<EdgeId>, c: EdgeId, p: Graph, newState: NodeId, at: int)
    requires AllDated(g, prefix) && c in g.edges && Dated(g.edges[c]) && c < g.nextEdge
    requires Wf(p) && newState in p.labels && c in p.edges && p.edges[c] == g.edges[c]
    requires p.nextEdge == g.nextEdge + |prefix|
    requires Links(p, g, prefix, newState, g.nextEdge)
    ensures AllDated(g, prefix + [c])
    ensures Links(Retire(p, c, newState, at), g, prefix + [c], newState, g.nextEdge)
  {
    var r := Retire(p, c, newState, at);
    RetireKeeps(p, c, newState, at);
    RetireFacts(p, c, newState, at);
    assert EdgeAt(r, p.nextEdge, PreviousEdge(newState, p.edges[c]));
    LinksSnoc(g, prefix, c, p, r, newState);
  }

  /** Each retired CURRENT edge gives one PREVIOUS edge from `newState` to its
      state, carrying its date; they take the fresh identities in order. */
  lemma {:induction false} RetireAllLinks(g: Graph, order: seq<EdgeId>, newState: NodeId, at: int)
    requires Retirable(g, order, newState)
    ensures Links(RetireAll(g, order, newState, at), g, order, newState, g.nextEdge)
    decreases |order|
  {
    if order != [] {
      var prefix := order[..|order| - 1];
      var c := order[|order| - 1];
      assert order == prefix + [c];
      assert c in order;
      RetireAllSnoc(g, prefix, c, newState, at);
      RetireAllLinks(g, prefix, newState, at);
      RetireAllNodes(g, prefix, newState, at);
      assert AllDated(g, prefix);
      RetireLinksStep(g, prefix, c, RetireAll(g, prefix, newState, at), newState, at);
    }
  }

  /** The copy the replay makes of edge `e`, out of `to`: same type, same end
      node, no properties. */
  function Copy(e: Edge, to: NodeId): Edge {
    Edge(to, e.dst, e.kind, map[])
  }

  /** Adds, for each edge of `order` (read from `src`), an edge of the same
      type from `to` to the same end node, without properties. An identity
      missing from `src` is passed over; in every use there is none. */
  ghost function ReplayAll(g: Graph, src: map<EdgeId, Edge>, order: seq<EdgeId>, to: NodeId): Graph
    decreases |order|
  {
    if order == [] then g
    else
      var before := ReplayAll(g, src, order[..|order| - 1], to);
      var id := order[|order| - 1];
      if id in src then AddEdge(before, to, src[id].dst, src[id].kind, map[]) else before
  }

  /** Replay only adds edges: one fresh edge out of `to` per replayed edge,
      with that edge's type and end node; nothing else changes. */
  lemma {:induction false} ReplayAllEffect(g: Graph, src: map<EdgeId, Edge>, order: seq<EdgeId>, to: NodeId)
    requires Wf(g) && to in g.labels
    requires forall i :: 0 <= i < |order| ==> order[i] in src && src[order[i]].dst in g.labels
    ensures var r := ReplayAll(g, src, order, to);
      && Wf(r) && r.labels == g.labels && r.props == g.props
      && r.nextNode == g.nextNode && r.nextEdge == g.nextEdge + |order|
      && (forall id :: id in r.edges <==> id in g.edges || g.nextEdge <= id < g.nextEdge + |order|)
      && (forall id :: id in g.edges ==> r.edges[id] == g.edges[id])
      && (forall i :: 0 <= i < |order| ==>
            EdgeAt(r, g.nextEdge + i, Copy(src[order[i]], to)))
    decreases |order|
  {
    if order != [] {
      var prefix := order[..|order| - 1];
      assert forall i :: 0 <= i < |prefix| ==> prefix[i] == order[i];
      ReplayAllEffect(g, src, prefix, to);
    }
  }
}
