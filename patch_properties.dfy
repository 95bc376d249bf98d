/**
 * What a successful patch promises, stated on `PatchOutcome`: the new state
 * holds the current state's properties overlaid with the caller's, the one
 * CURRENT edge it was given is retired in the new state's favour, and the
 * retired state's edges to R-labelled nodes are repeated from the new state.
 */
module PatchProperties {
  import opened PropertyGraph
  import opened Wrappers
  import opened CoreProcedure
  import opened History
  import opened Update
  import opened UpdateProperties

  /** The conditions under which `t` is the retirement of `c` from `h` in
      favour of `n`, as `RetireFacts` states them, and `p` the installation of
      `n` after it. */
  ghost predicate RetiredThenAttached(h: Graph, c: EdgeId, n: NodeId, at: int, t: Graph, p: Graph)
  {
    && Wf(h) && Wf(t) && c in h.edges && Dated(h.edges[c]) && n in t.labels && h.edges[c].src in t.labels
    && t.nextEdge == h.nextEdge + 1
    && t.edges.Keys == h.edges.Keys - {c} + {h.nextEdge}
    && t.edges[h.nextEdge] == PreviousEdge(n, h.edges[c])
    && (forall id :: id in h.edges && id != c ==>
          t.edges[id] == if id in HistoryEdges(h, h.edges[c].dst) then Closed(h.edges[id], at) else h.edges[id])
    && p == Attach(t, h.edges[c].src, n, at)
  }

  /** The three edges a patch adds before its replay. */
  lemma AttachAfterRetireNew(h: Graph, c: EdgeId, n: NodeId, at: int, t: Graph, p: Graph, k: EdgeId)
    requires RetiredThenAttached(h, c, n, at, t, p) && k == h.nextEdge
    ensures var e := h.edges[c];
      && Wf(p) && p.labels == t.labels && p.props == t.props
      && EdgeAt(p, k, PreviousEdge(n, e))
      && EdgeAt(p, k + 1, Edge(e.src, n, CURRENT_TYPE, map[DATE_PROP := Long(at)]))
      && EdgeAt(p, k + 2, Edge(e.src, n, HAS_STATE_TYPE, map[DATE_PROP := Long(at)]))
  {
  }

  /** The identities a patch leaves in use before its replay. */
  lemma AttachAfterRetireKeys(h: Graph, c: EdgeId, n: NodeId, at: int, t: Graph, p: Graph)
    requires RetiredThenAttached(h, c, n, at, t, p)
    ensures forall id :: id in p.edges <==> (id in h.edges && id != c) || h.nextEdge <= id < h.nextEdge + 3
  {
  }

  /** The edges a patch keeps before its replay. */
  lemma AttachAfterRetireOld(h: Graph, c: EdgeId, n: NodeId, at: int, t: Graph, p: Graph)
    requires RetiredThenAttached(h, c, n, at, t, p)
    ensures forall id :: id in h.edges && id != c ==>
      p.edges[id] == if id in HistoryEdges(h, h.edges[c].dst) then Closed(h.edges[id], at) else h.edges[id]
  {
    forall id | id in h.edges && id != c
      ensures p.edges[id] == if id in HistoryEdges(h, h.edges[c].dst) then Closed(h.edges[id], at) else h.edges[id]
    {
      assert id in t.edges && id < t.nextEdge;
    }
  }

  /** `Promoted` is a retirement followed by an installation. */
  lemma PromotedSteps(g: Graph, overrides: Props, labels: set<string>, at: int, c: EdgeId)
    requires Wf(g) && c in g.edges && Dated(g.edges[c])
    ensures var created := Created(g, labels, Overlay(g.props[g.edges[c].dst], overrides));
      && created.edges == g.edges && created.nextEdge == g.nextEdge
      && HistoryEdges(created, g.edges[c].dst) == HistoryEdges(g, g.edges[c].dst)
      && RetiredThenAttached(created, c, g.nextNode, at, Retire(created, c, g.nextNode, at),
                             Promoted(g, overrides, labels, at, c))
  {
    var e := g.edges[c];
    var created := Created(g, labels, Overlay(g.props[e.dst], overrides));
    assert HistoryEdges(created, e.dst) == HistoryEdges(g, e.dst);
    RetireFacts(created, c, g.nextNode, at);
  }

  /** The new state `Promoted` adds. */
  lemma PromotedNodes(g: Graph, overrides: Props, labels: set<string>, at: int, c: EdgeId)
    requires Wf(g) && c in g.edges && Dated(g.edges[c])
    ensures var p := Promoted(g, overrides, labels, at, c);
      && Wf(p) && g.nextNode !in g.labels
      && p.labels == g.labels[g.nextNode := labels]
      && p.props == g.props[g.nextNode := Overlay(g.props[g.edges[c].dst], overrides)]
  {
    var created := Created(g, labels, Overlay(g.props[g.edges[c].dst], overrides));
    PromotedSteps(g, overrides, labels, at, c);
    AttachAfterRetireNew(created, c, g.nextNode, at, Retire(created, c, g.nextNode, at),
                         Promoted(g, overrides, labels, at, c), g.nextEdge);
  }

  /** The three edges `Promoted` adds: the PREVIOUS edge back to the retired
      state, then the new CURRENT and HAS_STATE edges. */
  // `k` names `g.nextEdge`: stating the new identities as `k`, `k + 1`, `k + 2`
  // rather than as sums over `g.nextEdge` keeps the proof obligations small.
  lemma PromotedEdges(g: Graph, overrides: Props, labels: set<string>, at: int, c: EdgeId, k: EdgeId)
    requires Wf(g) && c in g.edges && Dated(g.edges[c]) && k == g.nextEdge
    ensures var p := Promoted(g, overrides, labels, at, c);
      var e := g.edges[c];
      && EdgeAt(p, k, PreviousEdge(g.nextNode, e))
      && EdgeAt(p, k + 1, Edge(e.src, g.nextNode, CURRENT_TYPE, map[DATE_PROP := Long(at)]))
      && EdgeAt(p, k + 2, Edge(e.src, g.nextNode, HAS_STATE_TYPE, map[DATE_PROP := Long(at)]))
  {
    var created := Created(g, labels, Overlay(g.props[g.edges[c].dst], overrides));
    PromotedSteps(g, overrides, labels, at, c);
    AttachAfterRetireNew(created, c, g.nextNode, at, Retire(created, c, g.nextNode, at),
                         Promoted(g, overrides, labels, at, c), k);
  }

  /** The edges of `g` that `Promoted` keeps, and the identities it uses. */
  lemma PromotedKeeps(g: Graph, overrides: Props, labels: set<string>, at: int, c: EdgeId)
    requires Wf(g) && c in g.edges && Dated(g.edges[c])
    ensures var p := Promoted(g, overrides, labels, at, c);
      && (forall id :: id in p.edges <==> (id in g.edges && id != c) || g.nextEdge <= id < g.nextEdge + 3)
      && (forall id :: id in g.edges && id != c ==>
            p.edges[id] == if id in HistoryEdges(g, g.edges[c].dst) then Closed(g.edges[id], at) else g.edges[id])
  {
    var e := g.edges[c];
    var created := Created(g, labels, Overlay(g.props[e.dst], overrides));
    PromotedSteps(g, overrides, labels, at, c);
    var t := Retire(created, c, g.nextNode, at);
    var p := Promoted(g, overrides, labels, at, c);
    AttachAfterRetireKeys(created, c, g.nextNode, at, t, p);
    AttachAfterRetireOld(created, c, g.nextNode, at, t, p);
  }

  /** A graph `r` that keeps `p`'s edges and adds, at fresh identities, the
      copies of the edges `order` lists, holds exactly those copies beyond
      `p`'s edges. */
  lemma CopiesExactly(r: Graph, p: Graph, order: seq<EdgeId>, to: NodeId, refs: set<EdgeId>)
    requires forall id :: id in order <==> id in refs
    requires forall id :: id in refs ==> id in p.edges
    requires forall id :: id in r.edges <==> id in p.edges || p.nextEdge <= id < p.nextEdge + |order|
    requires forall id :: id in p.edges ==> id < p.nextEdge
    requires forall i :: 0 <= i < |order| ==> EdgeAt(r, p.nextEdge + i, Copy(p.edges[order[i]], to))
    ensures forall id :: id in r.edges && id !in p.edges ==> exists j :: j in refs && r.edges[id] == Copy(p.edges[j], to)
    ensures forall j :: j in refs ==> exists id :: EdgeAt(r, id, Copy(p.edges[j], to))
  {
    forall id | id in r.edges && id !in p.edges
      ensures exists j :: j in refs && r.edges[id] == Copy(p.edges[j], to)
    {
      var i := id - p.nextEdge;
      assert p.nextEdge + i == id && order[i] in order;
      assert EdgeAt(r, p.nextEdge + i, Copy(p.edges[order[i]], to));
    }
    forall j | j in refs
      ensures exists id :: EdgeAt(r, id, Copy(p.edges[j], to))
    {
      assert j in order;
      var i :| 0 <= i < |order| && order[i] == j;
      assert EdgeAt(r, p.nextEdge + i, Copy(p.edges[order[i]], to));
    }
  }

  /** Update.java, lines 125-127 on a graph: the replay of `from`'s reference edges onto
      `to` keeps every edge and adds one copy out of `to` per reference edge,
      and nothing else. */
  lemma ReplayCopies(p: Graph, order: seq<EdgeId>, to: NodeId, from: NodeId)
    requires Wf(p) && to in p.labels && Enumerates(order, ReferenceEdges(p, from))
    ensures var r := ReplayAll(p, p.edges, order, to);
      && Wf(r) && r.labels == p.labels && r.props == p.props
      && (forall id :: id in p.edges ==> EdgeAt(r, id, p.edges[id]))
      && (forall id :: id in r.edges && id !in p.edges ==> r.edges[id].src == to)
      && (forall id :: id in r.edges && id !in p.edges ==>
            exists j :: j in ReferenceEdges(p, from) && r.edges[id] == Copy(p.edges[j], to))
      && (forall j :: j in ReferenceEdges(p, from) ==> exists id :: EdgeAt(r, id, Copy(p.edges[j], to)))
  {
    forall i | 0 <= i < |order|
      ensures order[i] in p.edges && p.edges[order[i]].dst in p.labels
    {
      assert order[i] in order;
    }
    ReplayAllEffect(p, p.edges, order, to);
    var r := ReplayAll(p, p.edges, order, to);
    CopiesExactly(r, p, order, to, ReferenceEdges(p, from));
    forall id | id in r.edges && id !in p.edges
      ensures r.edges[id].src == to
    {
      var j :| j in ReferenceEdges(p, from) && r.edges[id] == Copy(p.edges[j], to);
    }
  }

  /** Update.java, lines 112-119: a successful patch needs a dated CURRENT edge; the new
      state is a fresh node carrying the given labels and the current
      state's properties overlaid with the caller's, and every other node
      keeps its labels and properties. */
  lemma PatchedStateShape(g: Graph, r: Graph, result: Result<NodeId, VersionerError>, overrides: Props,
                          labels: set<string>, at: int, c: EdgeId, order: seq<EdgeId>)
    requires Wf(g) && c in g.edges
    requires PatchOutcome(g, r, result, overrides, labels, at, c, order) && result.Success?
    ensures Dated(g.edges[c]) && result.value == g.nextNode && g.nextNode !in g.labels
    ensures Wf(r)
    ensures r.labels == g.labels[g.nextNode := labels]
    ensures r.props == g.props[g.nextNode := Overlay(g.props[g.edges[c].dst], overrides)]
  {
    var p := Promoted(g, overrides, labels, at, c);
    PromotedNodes(g, overrides, labels, at, c);
    ReplayCopies(p, order, g.nextNode, g.edges[c].dst);
  }

  /** `r` keeps the edges of `p` and adds only edges out of `n`. */
  ghost predicate OnlyAddsFrom(p: Graph, r: Graph, n: NodeId) {
    && (forall id :: id in p.edges ==> EdgeAt(r, id, p.edges[id]))
    && (forall id :: id in r.edges && id !in p.edges ==> r.edges[id].src == n)
  }

  /** What the retirement inside a patch does to the edges, carried through
      a replay that only adds edges out of the new state `n`. */
  lemma RetiredThroughReplay(g: Graph, p: Graph, r: Graph, c: EdgeId, n: NodeId, at: int, k: EdgeId)
    requires Wf(g) && c in g.edges && Dated(g.edges[c]) && n !in g.labels && k == g.nextEdge
    requires forall id :: id in p.edges <==> (id in g.edges && id != c) || k <= id < k + 3
    requires forall id :: id in g.edges && id != c ==>
      p.edges[id] == if id in HistoryEdges(g, g.edges[c].dst) then Closed(g.edges[id], at) else g.edges[id]
    requires EdgeAt(p, k, PreviousEdge(n, g.edges[c]))
    requires EdgeAt(p, k + 1, Edge(g.edges[c].src, n, CURRENT_TYPE, map[DATE_PROP := Long(at)]))
    requires EdgeAt(p, k + 2, Edge(g.edges[c].src, n, HAS_STATE_TYPE, map[DATE_PROP := Long(at)]))
    requires OnlyAddsFrom(p, r, n)
    ensures var e := g.edges[c];
      && CurrentEdges(r, e.src) == CurrentEdges(g, e.src) - {c} + {k + 1}
      && EdgeAt(r, k, PreviousEdge(n, e))
      && EdgeAt(r, k + 1, Edge(e.src, n, CURRENT_TYPE, map[DATE_PROP := Long(at)]))
      && EdgeAt(r, k + 2, Edge(e.src, n, HAS_STATE_TYPE, map[DATE_PROP := Long(at)]))
      && (forall id :: id in g.edges && id != c ==>
            EdgeAt(r, id, if id in HistoryEdges(g, e.dst) then Closed(g.edges[id], at) else g.edges[id]))
  {
    var e := g.edges[c];
    assert e.src in g.labels;
    forall id | id in r.edges
      ensures id in CurrentEdges(r, e.src) <==> id in CurrentEdges(g, e.src) - {c} + {k + 1}
    {
      if id in g.edges && id != c {
        assert id in p.edges && id < k;
        assert r.edges[id].src == g.edges[id].src && r.edges[id].kind == g.edges[id].kind;
      } else if id in p.edges {
        assert k <= id < k + 3;
      }
    }
    forall id | id in CurrentEdges(g, e.src) - {c} + {k + 1}
      ensures id in r.edges
    {
      assert id in p.edges;
    }
  }

  /** A successful patch is a promotion followed by a replay that only adds
      edges out of the new state. */
  lemma PatchReplays(g: Graph, r: Graph, result: Result<NodeId, VersionerError>, overrides: Props,
                     labels: set<string>, at: int, c: EdgeId, order: seq<EdgeId>)
    requires Wf(g) && c in g.edges
    requires PatchOutcome(g, r, result, overrides, labels, at, c, order) && result.Success?
    ensures Dated(g.edges[c])
    ensures OnlyAddsFrom(Promoted(g, overrides, labels, at, c), r, g.nextNode)
  {
    PromotedNodes(g, overrides, labels, at, c);
    ReplayCopies(Promoted(g, overrides, labels, at, c), order, g.nextNode, g.edges[c].dst);
  }

  /** Update.java, lines 112-122: a patch retires exactly the CURRENT edge it was given:
      that edge is gone, the entity gains one CURRENT edge, to the new state,
      and a HAS_STATE edge to it, both dated with the transition's instant;
      the new state gets a PREVIOUS edge to the retired one carrying the
      retired edge's date; the HAS_STATE edges into the retired state are
      closed, and every other edge of the graph is kept as it was. */
  // `k` names `g.nextEdge`: stating the new identities as `k`, `k + 1`, `k + 2`
  // rather than as sums over `g.nextEdge` keeps the proof obligations small.
  lemma PatchedStateRetires(g: Graph, r: Graph, result: Result<NodeId, VersionerError>, overrides: Props,
                            labels: set<string>, at: int, c: EdgeId, order: seq<EdgeId>, k: EdgeId)
    requires Wf(g) && c in g.edges && k == g.nextEdge
    requires PatchOutcome(g, r, result, overrides, labels, at, c, order) && result.Success?
    ensures Dated(g.edges[c]) && k !in g.edges
    ensures var e := g.edges[c];
      && CurrentEdges(r, e.src) == CurrentEdges(g, e.src) - {c} + {k + 1}
      && EdgeAt(r, k, PreviousEdge(g.nextNode, e))
      && EdgeAt(r, k + 1, Edge(e.src, g.nextNode, CURRENT_TYPE, map[DATE_PROP := Long(at)]))
      && EdgeAt(r, k + 2, Edge(e.src, g.nextNode, HAS_STATE_TYPE, map[DATE_PROP := Long(at)]))
    ensures var e := g.edges[c];
      forall id :: id in g.edges && id != c ==>
        EdgeAt(r, id, if id in HistoryEdges(g, e.dst) then Closed(g.edges[id], at) else g.edges[id])
  {
    PatchReplays(g, r, result, overrides, labels, at, c, order);
    PromotedNodes(g, overrides, labels, at, c);
    PromotedKeeps(g, overrides, labels, at, c);
    PromotedEdges(g, overrides, labels, at, c, k);
    RetiredThroughReplay(g, Promoted(g, overrides, labels, at, c), r, c, g.nextNode, at, k);
  }

  /** The edges a replay reads are the same before and after the promotion:
      the promotion adds no edge out of the retired state and relabels no
      node of `g`, and the copies it leads to are copies of `g`'s edges. */
  lemma SameReferences(g: Graph, p: Graph, c: EdgeId, n: NodeId, at: int, ls: set<string>, k: EdgeId)
    requires Wf(g) && c in g.edges && Dated(g.edges[c]) && g.edges[c].src != g.edges[c].dst
    requires n !in g.labels && k == g.nextEdge && p.labels == g.labels[n := ls]
    requires forall id :: id in p.edges <==> (id in g.edges && id != c) || k <= id < k + 3
    requires forall id :: id in g.edges && id != c ==>
      p.edges[id] == if id in HistoryEdges(g, g.edges[c].dst) then Closed(g.edges[id], at) else g.edges[id]
    requires EdgeAt(p, k, PreviousEdge(n, g.edges[c]))
    requires EdgeAt(p, k + 1, Edge(g.edges[c].src, n, CURRENT_TYPE, map[DATE_PROP := Long(at)]))
    requires EdgeAt(p, k + 2, Edge(g.edges[c].src, n, HAS_STATE_TYPE, map[DATE_PROP := Long(at)]))
    ensures ReferenceEdges(p, g.edges[c].dst) == ReferenceEdges(g, g.edges[c].dst)
    ensures forall j :: j in ReferenceEdges(g, g.edges[c].dst) ==>
      Copy(p.edges[j], n) == Copy(g.edges[j], n)
  {
    var e := g.edges[c];
    forall id | id in p.edges
      ensures id in ReferenceEdges(p, e.dst) <==> id in ReferenceEdges(g, e.dst)
    {
      if id in g.edges && id != c {
        assert SameEnds(p.edges[id], g.edges[id]);
        assert g.edges[id].dst in g.labels;
      } else if id == k {
        assert e.dst in g.labels;
      } else {
        assert k + 1 <= id < k + 3;
      }
    }
    forall id | id in ReferenceEdges(g, e.dst)
      ensures id in p.edges
    {
      assert id != c;
    }
    forall j | j in ReferenceEdges(g, e.dst)
      ensures Copy(p.edges[j], n) == Copy(g.edges[j], n)
    {
      assert j != c && SameEnds(p.edges[j], g.edges[j]);
    }
  }

  /** The edges out of the new state after a patch, given the edges out of it
      after the promotion and the copies the replay adds. */
  lemma EdgesOutOfNewState(g: Graph, p: Graph, r: Graph, c: EdgeId, n: NodeId, k: EdgeId, refs: set<EdgeId>)
    requires Wf(g) && c in g.edges && Dated(g.edges[c]) && g.edges[c].src != n && n !in g.labels
    requires forall id :: id in p.edges <==> (id in g.edges && id != c) || k <= id < k + 3
    requires forall id :: id in g.edges && id != c ==> SameEnds(p.edges[id], g.edges[id])
    requires EdgeAt(p, k, PreviousEdge(n, g.edges[c]))
    requires k + 1 in p.edges && p.edges[k + 1].src == g.edges[c].src
    requires k + 2 in p.edges && p.edges[k + 2].src == g.edges[c].src
    requires forall id :: id in p.edges ==> EdgeAt(r, id, p.edges[id])
    requires forall j :: j in refs ==> j in g.edges
    requires forall id :: id in r.edges && id !in p.edges ==>
      exists j :: j in refs && r.edges[id] == Copy(g.edges[j], n)
    ensures forall id :: id in r.edges && r.edges[id].src == n ==>
      || (id == k && r.edges[id] == PreviousEdge(n, g.edges[c]))
      || (exists j :: j in refs && r.edges[id] == Copy(g.edges[j], n))
  {
    forall id | id in r.edges && r.edges[id].src == n && id in p.edges
      ensures id == k
    {
      assert !(id in g.edges && id != c);
      assert k <= id < k + 3;
    }
  }

  /** The copies a replay after a promotion makes, stated on `g`'s edges. */
  lemma ReplayedReferences(g: Graph, p: Graph, r: Graph, c: EdgeId, n: NodeId, at: int, ls: set<string>, k: EdgeId)
    requires Wf(g) && c in g.edges && Dated(g.edges[c]) && g.edges[c].src != g.edges[c].dst
    requires n !in g.labels && k == g.nextEdge && p.labels == g.labels[n := ls]
    requires forall id :: id in p.edges <==> (id in g.edges && id != c) || k <= id < k + 3
    requires forall id :: id in g.edges && id != c ==>
      p.edges[id] == if id in HistoryEdges(g, g.edges[c].dst) then Closed(g.edges[id], at) else g.edges[id]
    requires EdgeAt(p, k, PreviousEdge(n, g.edges[c]))
    requires EdgeAt(p, k + 1, Edge(g.edges[c].src, n, CURRENT_TYPE, map[DATE_PROP := Long(at)]))
    requires EdgeAt(p, k + 2, Edge(g.edges[c].src, n, HAS_STATE_TYPE, map[DATE_PROP := Long(at)]))
    requires forall id :: id in p.edges ==> EdgeAt(r, id, p.edges[id])
    requires forall id :: id in r.edges && id !in p.edges ==>
      exists j :: j in ReferenceEdges(p, g.edges[c].dst) && r.edges[id] == Copy(p.edges[j], n)
    requires forall j :: j in ReferenceEdges(p, g.edges[c].dst) ==> exists id :: EdgeAt(r, id, Copy(p.edges[j], n))
    ensures var e := g.edges[c];
      forall j :: j in ReferenceEdges(g, e.dst) ==>
        exists id :: EdgeAt(r, id, Copy(g.edges[j], n))
    ensures var e := g.edges[c];
      forall id :: id in r.edges && r.edges[id].src == n ==>
        || (id == k && r.edges[id] == PreviousEdge(n, e))
        || (exists j :: j in ReferenceEdges(g, e.dst) &&
              r.edges[id] == Copy(g.edges[j], n))
  {
    var e := g.edges[c];
    var refs := ReferenceEdges(g, e.dst);
    SameReferences(g, p, c, n, at, ls, k);
    assert e.src in g.labels;
    forall id | id in g.edges && id != c
      ensures SameEnds(p.edges[id], g.edges[id])
    {
    }
    forall id | id in r.edges && id !in p.edges
      ensures exists j :: j in refs && r.edges[id] == Copy(g.edges[j], n)
    {
      var j :| j in refs && r.edges[id] == Copy(p.edges[j], n);
    }
    EdgesOutOfNewState(g, p, r, c, n, k, refs);
  }

  /** Update.java, lines 125-127 within a patch: every edge from the retired state to an
      R-labelled node is repeated from the new state, with its type and end
      node and without properties; the new state has no other outgoing edge
      than these copies and its PREVIOUS edge to the retired state. */
  // `k` names `g.nextEdge`: stating the new identities as `k`, `k + 1`, `k + 2`
  // rather than as sums over `g.nextEdge` keeps the proof obligations small.
  lemma PatchedStateReplays(g: Graph, r: Graph, result: Result<NodeId, VersionerError>, overrides: Props,
                            labels: set<string>, at: int, c: EdgeId, order: seq<EdgeId>, k: EdgeId)
    requires Wf(g) && c in g.edges && k == g.nextEdge && g.edges[c].src != g.edges[c].dst
    requires PatchOutcome(g, r, result, overrides, labels, at, c, order) && result.Success?
    ensures Dated(g.edges[c])
    ensures var e := g.edges[c];
      forall j :: j in ReferenceEdges(g, e.dst) ==>
        exists id :: EdgeAt(r, id, Copy(g.edges[j], g.nextNode))
    ensures var e := g.edges[c];
      forall id :: id in r.edges && r.edges[id].src == g.nextNode ==>
        || (id == k && r.edges[id] == PreviousEdge(g.nextNode, e))
        || (exists j :: j in ReferenceEdges(g, e.dst) &&
              r.edges[id] == Copy(g.edges[j], g.nextNode))
  {
    var p := Promoted(g, overrides, labels, at, c);
    PromotedNodes(g, overrides, labels, at, c);
    PromotedKeeps(g, overrides, labels, at, c);
    PromotedEdges(g, overrides, labels, at, c, k);
    ReplayCopies(p, order, g.nextNode, g.edges[c].dst);
    ReplayedReferences(g, p, r, c, g.nextNode, at, labels, k);
  }
}
