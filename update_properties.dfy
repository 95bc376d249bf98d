/**
 * What `update` promises, stated on its specification function `UpdateSpec`:
 * it makes a fresh state the single current one, links it back to every
 * state it supersedes and closes their history; with nothing to retire it
 * is the first-state bootstrap of `patch`.
 */
module UpdateProperties {
  import opened PropertyGraph
  import opened Wrappers
  import opened CoreProcedure
  import opened History
  import opened Update

  /** The states the entity's CURRENT edges point to. */
  ghost function SupersededStates(g: Graph, entity: NodeId): set<NodeId> {
    set c | c in CurrentEdges(g, entity) :: g.edges[c].dst
  }

  /** The fresh state of `update` exists only once the CURRENT edges are
      retired; creating it leaves them as they were, and retirable. */
  lemma ReadyRetirable(g: Graph, entity: NodeId, order: seq<EdgeId>, ls: set<string>, ps: Props)
    requires UpdateReady(g, entity, order)
    ensures var created := Created(g, ls, ps);
      && Retirable(created, order, g.nextNode)
      && CurrentEdges(created, entity) == CurrentEdges(g, entity)
      && entity in created.labels && entity != g.nextNode
  {
    var created := Created(g, ls, ps);
    forall id | id in order
      ensures id in created.edges && created.edges[id].kind == CURRENT_TYPE && Dated(created.edges[id])
    {
      assert id in CurrentEdges(g, entity);
    }
  }

  /** Two edges join the same nodes with the same type. */
  predicate SameEnds(a: Edge, b: Edge) {
    a.src == b.src && a.dst == b.dst && a.kind == b.kind
  }

  /** Retirement changes at most the properties of an edge it keeps. */
  lemma RetireAllKeepsEnds(h: Graph, order: seq<EdgeId>, newState: NodeId, at: int)
    requires Retirable(h, order, newState)
    ensures var q := RetireAll(h, order, newState, at);
      forall id :: id in h.edges && id !in order ==> id in q.edges && SameEnds(q.edges[id], h.edges[id])
  {
    var q := RetireAll(h, order, newState, at);
    RetireAllCloses(h, order, newState, at);
    forall id | id in h.edges && id !in order
      ensures id in q.edges && SameEnds(q.edges[id], h.edges[id])
    {
      assert SameEnds(Closed(h.edges[id], at), h.edges[id]);
    }
  }

  /** The edges a graph `q` holds beyond those `h` kept are links of a
      retirement of `order`: each is the PREVIOUS edge made for one of them. */
  lemma FreshArePrevious(q: Graph, h: Graph, order: seq<EdgeId>, newState: NodeId)
    requires AllDated(h, order) && Links(q, h, order, newState, h.nextEdge)
    requires forall id :: id in q.edges <==> (id in h.edges && id !in order) || h.nextEdge <= id < h.nextEdge + |order|
    ensures forall id :: id in q.edges && !(id in h.edges && id !in order) ==>
      exists c :: c in order && q.edges[id] == PreviousEdge(newState, h.edges[c])
  {
    forall id | id in q.edges && !(id in h.edges && id !in order)
      ensures exists c :: c in order && q.edges[id] == PreviousEdge(newState, h.edges[c])
    {
      var i := id - h.nextEdge;
      LinkAt(q, h, order, newState, h.nextEdge, i);
      assert h.nextEdge + i == id && order[i] in order;
    }
  }

  /** Every edge of `order` has its link in `q`. */
  lemma LinksCover(q: Graph, h: Graph, order: seq<EdgeId>, newState: NodeId)
    requires AllDated(h, order) && Links(q, h, order, newState, h.nextEdge)
    ensures forall c :: c in order ==> exists k :: EdgeAt(q, k, PreviousEdge(newState, h.edges[c]))
  {
    forall c | c in order
      ensures exists k :: EdgeAt(q, k, PreviousEdge(newState, h.edges[c]))
    {
      var i :| 0 <= i < |order| && order[i] == c;
      LinkAt(q, h, order, newState, h.nextEdge, i);
      assert EdgeAt(q, h.nextEdge + i, PreviousEdge(newState, h.edges[c]));
    }
  }

  /** The edges retirement makes are PREVIOUS edges out of the new state,
      one for a retired CURRENT edge each. */
  lemma RetireAllFreshEdges(h: Graph, order: seq<EdgeId>, newState: NodeId, at: int)
    requires Retirable(h, order, newState)
    ensures var q := RetireAll(h, order, newState, at);
      forall id :: id in q.edges && !(id in h.edges && id !in order) ==>
        exists c :: c in order && q.edges[id] == PreviousEdge(newState, h.edges[c])
  {
    RetireAllKeys(h, order, newState, at);
    RetireAllLinks(h, order, newState, at);
    assert AllDated(h, order);
    FreshArePrevious(RetireAll(h, order, newState, at), h, order, newState);
  }

  /** Retiring every CURRENT edge of `entity` leaves it without one. */
  lemma RetiredNoCurrent(h: Graph, entity: NodeId, order: seq<EdgeId>, newState: NodeId, at: int)
    requires Retirable(h, order, newState) && entity != newState
    requires forall id :: id in CurrentEdges(h, entity) ==> id in order
    ensures CurrentEdges(RetireAll(h, order, newState, at), entity) == {}
  {
    var q := RetireAll(h, order, newState, at);
    RetireAllKeepsEnds(h, order, newState, at);
    RetireAllFreshEdges(h, order, newState, at);
    forall id | id in q.edges
      ensures !(q.edges[id].src == entity && q.edges[id].kind == CURRENT_TYPE)
    {
      if id in h.edges && id !in order {
        assert id !in CurrentEdges(h, entity);
      } else {
        var c :| c in order && q.edges[id] == PreviousEdge(newState, h.edges[c]);
      }
    }
  }

  /** Update.java, lines 33-37: the new state carries the State label, the caller's label
      exactly when it is not empty, and exactly `stateProps`; no other node
      is touched. */
  lemma UpdateCreatesFreshState(g: Graph, entity: NodeId, stateProps: Props, additionalLabel: string,
                                at: int, order: seq<EdgeId>)
    requires UpdateReady(g, entity, order)
    ensures var r := UpdateSpec(g, entity, stateProps, additionalLabel, at, order);
      && Wf(r) && g.nextNode !in g.labels
      && r.labels == g.labels[g.nextNode := StateLabels(additionalLabel)]
      && r.props == g.props[g.nextNode := stateProps]
      && r.nextNode == g.nextNode + 1 && r.nextEdge == g.nextEdge + |order| + 2
  {
    var created := Created(g, StateLabels(additionalLabel), stateProps);
    ReadyRetirable(g, entity, order, StateLabels(additionalLabel), stateProps);
    RetireAllNodes(created, order, g.nextNode, at);
  }

  /** Installing a state as current for an entity without a CURRENT edge
      leaves it exactly one, the fresh one. */
  // `k` names `q.nextEdge`: stating the new identities as `k`, `k + 1` rather
  // than as sums over `q.nextEdge` keeps the proof obligations small.
  lemma AttachSingleCurrent(q: Graph, entity: NodeId, state: NodeId, at: int, k: EdgeId, r: Graph)
    requires Wf(q) && CurrentEdges(q, entity) == {} && k == q.nextEdge
    requires r == Attach(q, entity, state, at)
    ensures && CurrentEdges(r, entity) == {k}
      && EdgeAt(r, k, Edge(entity, state, CURRENT_TYPE, map[DATE_PROP := Long(at)]))
      && EdgeAt(r, k + 1, Edge(entity, state, HAS_STATE_TYPE, map[DATE_PROP := Long(at)]))
  {
    forall id | id in r.edges && id != q.nextEdge
      ensures !(r.edges[id].src == entity && r.edges[id].kind == CURRENT_TYPE)
    {
      if id != q.nextEdge + 1 {
        assert id in q.edges && r.edges[id] == q.edges[id];
        assert id !in CurrentEdges(q, entity);
      }
    }
  }

  /** Retirement keeps the graph well formed. */
  lemma RetiredWf(h: Graph, order: seq<EdgeId>, newState: NodeId, at: int)
    requires Retirable(h, order, newState)
    ensures Wf(RetireAll(h, order, newState, at))
  {
    RetireAllNodes(h, order, newState, at);
  }

  /** Update.java, lines 43-59: once `update` is done the entity has exactly one CURRENT
      edge, to the new state and dated with the transition's instant, and a
      HAS_STATE edge to it with the same date. */
  lemma UpdateSingleCurrent(g: Graph, entity: NodeId, stateProps: Props, additionalLabel: string,
                            at: int, order: seq<EdgeId>)
    requires UpdateReady(g, entity, order)
    ensures var r := UpdateSpec(g, entity, stateProps, additionalLabel, at, order);
      exists k ::
      && k + 2 == r.nextEdge && CurrentEdges(r, entity) == {k}
      && EdgeAt(r, k, Edge(entity, g.nextNode, CURRENT_TYPE, map[DATE_PROP := Long(at)]))
      && EdgeAt(r, k + 1, Edge(entity, g.nextNode, HAS_STATE_TYPE, map[DATE_PROP := Long(at)]))
  {
    var created := Created(g, StateLabels(additionalLabel), stateProps);
    ReadyRetirable(g, entity, order, StateLabels(additionalLabel), stateProps);
    RetiredWf(created, order, g.nextNode, at);
    RetiredNoCurrent(created, entity, order, g.nextNode, at);
    var q := RetireAll(created, order, g.nextNode, at);
    var r := UpdateSpec(g, entity, stateProps, additionalLabel, at, order);
    AttachSingleCurrent(q, entity, g.nextNode, at, q.nextEdge, r);
  }

  /** Retirement in favour of a state no edge leaves yet: one PREVIOUS edge
      per retired CURRENT edge, and no other edge out of that state. */
  lemma RetireAllPrevious(h: Graph, order: seq<EdgeId>, newState: NodeId, at: int)
    requires Retirable(h, order, newState)
    requires forall id :: id in h.edges ==> h.edges[id].src != newState
    ensures var q := RetireAll(h, order, newState, at);
      && (forall c :: c in order ==> exists k :: EdgeAt(q, k, PreviousEdge(newState, h.edges[c])))
      && (forall k :: k in q.edges && q.edges[k].src == newState ==>
            exists c :: c in order && q.edges[k] == PreviousEdge(newState, h.edges[c]))
  {
    var q := RetireAll(h, order, newState, at);
    RetireAllLinks(h, order, newState, at);
    assert AllDated(h, order);
    LinksCover(q, h, order, newState);
    RetireAllFreshEdges(h, order, newState, at);
    RetireAllKeepsEnds(h, order, newState, at);
    forall k | k in q.edges && q.edges[k].src == newState
      ensures exists c :: c in order && q.edges[k] == PreviousEdge(newState, h.edges[c])
    {
      assert !(k in h.edges && k !in order);
    }
  }

  /** Installing a current state adds two edges out of the entity and keeps
      every other edge. */
  lemma AttachKeeps(q: Graph, entity: NodeId, state: NodeId, at: int, r: Graph)
    requires Wf(q) && r == Attach(q, entity, state, at)
    ensures forall k :: k in q.edges ==> EdgeAt(r, k, q.edges[k])
    ensures forall k :: k in r.edges && k !in q.edges ==> r.edges[k].src == entity && k >= q.nextEdge
  {
  }

  /** Update.java, lines 44-48: the new state gets a PREVIOUS edge to every state it
      supersedes, carrying the date of the CURRENT edge it replaces; and
      these are the only edges leaving the new state. */
  lemma UpdateLinksPrevious(g: Graph, entity: NodeId, stateProps: Props, additionalLabel: string,
                            at: int, order: seq<EdgeId>)
    requires UpdateReady(g, entity, order)
    ensures var r := UpdateSpec(g, entity, stateProps, additionalLabel, at, order);
      forall c :: c in CurrentEdges(g, entity) ==>
        Dated(g.edges[c]) && exists k :: EdgeAt(r, k, PreviousEdge(g.nextNode, g.edges[c]))
    ensures var r := UpdateSpec(g, entity, stateProps, additionalLabel, at, order);
      forall k :: k in r.edges && r.edges[k].src == g.nextNode ==>
        exists c :: c in CurrentEdges(g, entity) && Dated(g.edges[c]) && r.edges[k] == PreviousEdge(g.nextNode, g.edges[c])
  {
    var created := Created(g, StateLabels(additionalLabel), stateProps);
    ReadyRetirable(g, entity, order, StateLabels(additionalLabel), stateProps);
    RetiredWf(created, order, g.nextNode, at);
    RetireAllPrevious(created, order, g.nextNode, at);
    var q := RetireAll(created, order, g.nextNode, at);
    var r := UpdateSpec(g, entity, stateProps, additionalLabel, at, order);
    AttachKeeps(q, entity, g.nextNode, at, r);
    forall c | c in CurrentEdges(g, entity)
      ensures Dated(g.edges[c]) && exists k :: EdgeAt(r, k, PreviousEdge(g.nextNode, g.edges[c]))
    {
      assert c in order;
      var k :| EdgeAt(q, k, PreviousEdge(g.nextNode, created.edges[c]));
      assert EdgeAt(r, k, q.edges[k]);
    }
  }

  /** Retirement removes every edge it retires, and only those. */
  lemma RetireAllDrops(h: Graph, order: seq<EdgeId>, newState: NodeId, at: int)
    requires Retirable(h, order, newState)
    ensures var q := RetireAll(h, order, newState, at);
      && q.nextEdge >= h.nextEdge
      && forall id :: id in h.edges ==> (id in q.edges <==> id !in order)
  {
    RetireAllNodes(h, order, newState, at);
    RetireAllKeys(h, order, newState, at);
  }

  /** The states whose history `update` closes are those its CURRENT edges
      pointed to. */
  lemma TargetsAreSuperseded(g: Graph, entity: NodeId, order: seq<EdgeId>)
    requires Enumerates(order, CurrentEdges(g, entity))
    ensures (forall id :: id in order ==> id in g.edges)
    ensures Targets(g, order) == SupersededStates(g, entity)
  {
    assert forall id :: id in order ==> id in CurrentEdges(g, entity);
  }

  /** Update.java, lines 51-55: the CURRENT edges of the entity are deleted; a HAS_STATE
      edge into a superseded state gets `endDate` set to the transition's
      instant; every other edge of the graph, the HAS_STATE edges included,
      is kept as it was. */
  lemma UpdateClosesHistory(g: Graph, entity: NodeId, stateProps: Props, additionalLabel: string,
                            at: int, order: seq<EdgeId>)
    requires UpdateReady(g, entity, order)
    ensures var r := UpdateSpec(g, entity, stateProps, additionalLabel, at, order);
      forall id :: id in g.edges ==> (id in r.edges <==> id !in CurrentEdges(g, entity))
    ensures var r := UpdateSpec(g, entity, stateProps, additionalLabel, at, order);
      forall id :: id in g.edges && id !in CurrentEdges(g, entity) ==>
        r.edges[id] == if g.edges[id].kind == HAS_STATE_TYPE && g.edges[id].dst in SupersededStates(g, entity)
                       then Closed(g.edges[id], at) else g.edges[id]
  {
    var created := Created(g, StateLabels(additionalLabel), stateProps);
    ReadyRetirable(g, entity, order, StateLabels(additionalLabel), stateProps);
    RetiredWf(created, order, g.nextNode, at);
    RetireAllDrops(created, order, g.nextNode, at);
    RetireAllCloses(created, order, g.nextNode, at);
    TargetsAreSuperseded(g, entity, order);
    var q := RetireAll(created, order, g.nextNode, at);
    var r := UpdateSpec(g, entity, stateProps, additionalLabel, at, order);
    AttachKeeps(q, entity, g.nextNode, at, r);
    forall id | id in g.edges
      ensures id in r.edges <==> id !in CurrentEdges(g, entity)
    {
      assert id in order <==> id in CurrentEdges(g, entity);
      assert id < g.nextEdge;
    }
    forall id | id in g.edges && id !in CurrentEdges(g, entity)
      ensures r.edges[id] == if g.edges[id].kind == HAS_STATE_TYPE && g.edges[id].dst in SupersededStates(g, entity)
                             then Closed(g.edges[id], at) else g.edges[id]
    {
      assert id !in order;
      assert EdgeAt(r, id, q.edges[id]);
      assert id in ClosedBy(created, order) <==>
        g.edges[id].kind == HAS_STATE_TYPE && g.edges[id].dst in SupersededStates(g, entity);
    }
  }

  /** Update.java, lines 79-83: without a current state, `patch` does what
      `update` does with nothing to retire, and leaves the entity exactly one
      CURRENT edge, to the new state. */
  lemma FirstStateBootstrap(g: Graph, entity: NodeId, stateProps: Props, additionalLabel: string, at: int)
    requires Wf(g) && entity in g.labels && CurrentEdges(g, entity) == {}
    ensures UpdateReady(g, entity, [])
    ensures Bootstrap(g, entity, StateLabels(additionalLabel), stateProps, at)
         == UpdateSpec(g, entity, stateProps, additionalLabel, at, [])
    ensures CurrentEdges(Bootstrap(g, entity, StateLabels(additionalLabel), stateProps, at), entity) == {g.nextEdge}
  {
    var created := Created(g, StateLabels(additionalLabel), stateProps);
    assert CurrentEdges(created, entity) == CurrentEdges(g, entity);
    AttachSingleCurrent(created, entity, g.nextNode, at, g.nextEdge,
                        Bootstrap(g, entity, StateLabels(additionalLabel), stateProps, at));
  }
}
