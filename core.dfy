/**
 * The versioner's graph schema and the helpers the update procedures rely on:
 * label and timestamp resolution, the property overlay, the lookup of an
 * entity's current state, the entity/state ownership check, and the two-sided
 * surgery that retires a current state and installs a new one.
 *
 * Layout: an entity E has an outgoing CURRENT edge to its current state and an
 * outgoing HAS_STATE edge to every state it ever had; a state S has an outgoing
 * PREVIOUS edge to the state it superseded. CURRENT, HAS_STATE and PREVIOUS
 * edges carry a `date`; a HAS_STATE edge gets an `endDate` once its state is
 * superseded. Nodes labelled R are reference nodes a state may point to.
 */
module CoreProcedure {
  import opened PropertyGraph
  import opened Wrappers

  const STATE_LABEL: string := "State"
  const REFERENCE_LABEL: string := "R"
  const CURRENT_TYPE: string := "CURRENT"
  const HAS_STATE_TYPE: string := "HAS_STATE"
  const PREVIOUS_TYPE: string := "PREVIOUS"
  const DATE_PROP: string := "date"
  const END_DATE_PROP: string := "endDate"

  datatype VersionerError =
    | NoCurrentState(entity: NodeId)
    | StateNotLinked(entity: NodeId, state: NodeId)
      /** the `date` of a CURRENT edge is missing or not a long */
    | MissingDate(rel: EdgeId)

  /** The instant a transition takes effect: the caller's date, or the clock
      when the caller passed the sentinel 0. Nothing relates it to the dates
      already in the entity's history. */
  function ResolveDate(date: int, now: int): (instant: int)
    ensures date == 0 ==> instant == now
    ensures date != 0 ==> instant == date
  {
    if date == 0 then now else date
  }

  /** The labels of a new state: the state label, plus the caller's label
      when it is not empty. */
  function StateLabels(additionalLabel: string): (labels: set<string>)
    ensures STATE_LABEL in labels
    ensures additionalLabel in labels <==> additionalLabel != ""
    ensures labels <= {STATE_LABEL, additionalLabel}
  {
    if additionalLabel == "" then {STATE_LABEL} else {STATE_LABEL, additionalLabel}
  }

  /** Field-level union of two property maps; on a shared key the override wins. */
  function Overlay(base: Props, overrides: Props): (merged: Props)
    ensures merged.Keys == base.Keys + overrides.Keys
    ensures forall k :: k in overrides ==> merged[k] == overrides[k]
    ensures forall k :: k in base && k !in overrides ==> merged[k] == base[k]
  {
    base + overrides
  }

  /** `target.putAll(entries)` on a copy of `target`: one key at a time. */
  method PutAll(target: Props, entries: Props) returns (merged: Props)
    ensures merged == Overlay(target, entries)
  {
    merged := target;
    var pending := entries.Keys;
    while pending != {}
      invariant pending <= entries.Keys
      invariant merged.Keys == target.Keys + (entries.Keys - pending)
      invariant forall k :: k in entries && k !in pending ==> merged[k] == entries[k]
      invariant forall k :: k in target && (k !in entries || k in pending) ==> merged[k] == target[k]
      decreases pending
    {
      var k :| k in pending;
      merged := merged[k := entries[k]];
      pending := pending - {k};
    }
  }

  /** `setProperties(db.createNode(labels), ps)`: the graph with one more
      node, labelled `ls` and carrying exactly `ps`. */
  function Created(g: Graph, ls: set<string>, ps: Props): (r: Graph)
    ensures r.edges == g.edges && r.nextEdge == g.nextEdge && r.nextNode == g.nextNode + 1
    ensures r.labels == g.labels[g.nextNode := ls] && r.props == g.props[g.nextNode := ps]
    ensures Wf(g) ==> Wf(r) && g.nextNode !in g.labels
  {
    var blank := AddNode(g, ls);
    assert map[] + ps == ps;
    SetNodeProperties(blank, g.nextNode, ps)
  }

  /** The State factory: a new node with the given labels and properties. */
  method CreateState(db: GraphDb, ls: set<string>, ps: Props) returns (n: NodeId)
    requires db.Valid()
    modifies db
    ensures db.Valid()
    ensures n == old(db.nextNode) && n !in old(db.labels)
    ensures db.View() == Created(old(db.View()), ls, ps)
  {
    n := db.CreateNode(ls);
    db.SetProperties(n, ps);
  }

  predicate Dated(e: Edge) {
    DATE_PROP in e.props && e.props[DATE_PROP].Long?
  }

  /** The entity's outgoing CURRENT edges. */
  function CurrentEdges(g: Graph, entity: NodeId): set<EdgeId> {
    set id | id in g.edges && g.edges[id].src == entity && g.edges[id].kind == CURRENT_TYPE
  }

  /** The state's incoming HAS_STATE edges. */
  function HistoryEdges(g: Graph, state: NodeId): set<EdgeId> {
    set id | id in g.edges && g.edges[id].dst == state && g.edges[id].kind == HAS_STATE_TYPE
  }

  /** The HAS_STATE edges from `entity` to `state`. */
  function OwnershipEdges(g: Graph, entity: NodeId, state: NodeId): set<EdgeId> {
    set id | id in g.edges && g.edges[id].src == entity && g.edges[id].dst == state && g.edges[id].kind == HAS_STATE_TYPE
  }

  /** The state's outgoing edges whose end node is labelled R. */
  function ReferenceEdges(g: Graph, state: NodeId): set<EdgeId> {
    set id | id in g.edges && g.edges[id].src == state && g.edges[id].dst in g.labels
                 && REFERENCE_LABEL in g.labels[g.edges[id].dst]
  }

  function Closed(e: Edge, at: int): Edge {
    e.(props := e.props[END_DATE_PROP := Long(at)])
  }

  /** Stamps `endDate = at` on every edge of `ids`. */
  ghost function CloseEdges(g: Graph, ids: set<EdgeId>, at: int): (r: Graph)
    ensures r.labels == g.labels && r.props == g.props
    ensures r.nextNode == g.nextNode && r.nextEdge == g.nextEdge
    ensures r.edges.Keys == g.edges.Keys
    ensures forall id :: id in g.edges ==> r.edges[id] == if id in ids then Closed(g.edges[id], at) else g.edges[id]
    ensures Wf(g) ==> Wf(r)
  {
    g.(edges := map id | id in g.edges :: if id in ids then Closed(g.edges[id], at) else g.edges[id])
  }

  /** Closes the validity interval of every HAS_STATE edge into `state`. */
  ghost function CloseHistory(g: Graph, state: NodeId, at: int): Graph {
    CloseEdges(g, HistoryEdges(g, state), at)
  }

  /** The PREVIOUS edge from `newState` to the target of the CURRENT edge
      `current`, dated with the date `current` carried. */
  function PreviousEdge(newState: NodeId, current: Edge): Edge
    requires Dated(current)
  {
    Edge(newState, current.dst, PREVIOUS_TYPE, map[DATE_PROP := current.props[DATE_PROP]])
  }

  /** Retirement of the current state reached through CURRENT edge `c` in
      favour of `newState`: a PREVIOUS edge back to it, its history closed at
      `at`, and `c` deleted. */
  ghost function Retire(g: Graph, c: EdgeId, newState: NodeId, at: int): (r: Graph)
    requires c in g.edges && Dated(g.edges[c])
    ensures r.labels == g.labels && r.props == g.props
    ensures r.nextNode == g.nextNode && r.nextEdge == g.nextEdge + 1
  {
    var e := g.edges[c];
    var g1 := AddEdge(g, newState, e.dst, PREVIOUS_TYPE, map[DATE_PROP := e.props[DATE_PROP]]);
    DeleteEdge(CloseHistory(g1, e.dst, at), c)
  }

  /** What a retirement does to the edges: `c` is gone, the PREVIOUS edge
      takes the next fresh identity, the HAS_STATE edges into the retired
      state are closed at `at`, and every other edge is as it was. */
  lemma RetireFacts(g: Graph, c: EdgeId, newState: NodeId, at: int)
    requires Wf(g) && newState in g.labels && c in g.edges && Dated(g.edges[c])
    ensures var r := Retire(g, c, newState, at);
      && Wf(r)
      && r.edges.Keys == g.edges.Keys - {c} + {g.nextEdge}
      && r.edges[g.nextEdge] == PreviousEdge(newState, g.edges[c])
      && forall id :: id in g.edges && id != c ==>
           r.edges[id] == if id in HistoryEdges(g, g.edges[c].dst) then Closed(g.edges[id], at) else g.edges[id]
  {
  }

  /** Installation of `state` as the entity's current state: a CURRENT edge and
      a HAS_STATE edge, both dated `at`. */
  ghost function Attach(g: Graph, entity: NodeId, state: NodeId, at: int): (r: Graph)
    ensures r.labels == g.labels && r.props == g.props
    ensures r.nextNode == g.nextNode && r.nextEdge == g.nextEdge + 2
    ensures r.edges == g.edges[g.nextEdge := Edge(entity, state, CURRENT_TYPE, map[DATE_PROP := Long(at)])]
                              [g.nextEdge + 1 := Edge(entity, state, HAS_STATE_TYPE, map[DATE_PROP := Long(at)])]
    ensures Wf(g) && entity in g.labels && state in g.labels ==> Wf(r)
  {
    var g1 := AddEdge(g, entity, state, CURRENT_TYPE, map[DATE_PROP := Long(at)]);
    AddEdge(g1, entity, state, HAS_STATE_TYPE, map[DATE_PROP := Long(at)])
  }

  /** `addCurrentState(state, entity, at)`: its code is not part of this model;
      its contract is what the procedures rely on, that `state` becomes current
      as of `at`. */
  method AddCurrentState(db: GraphDb, state: NodeId, entity: NodeId, at: int)
    requires db.Valid() && state in db.labels && entity in db.labels
    modifies db
    ensures db.Valid()
    ensures db.View() == Attach(old(db.View()), entity, state, at)
  {
    var current := db.CreateRelationship(entity, state, CURRENT_TYPE, map[DATE_PROP := Long(at)]);
    var history := db.CreateRelationship(entity, state, HAS_STATE_TYPE, map[DATE_PROP := Long(at)]);
  }

  /** Sets `endDate` on every incoming HAS_STATE edge of `state`, one at a time. */
  method CloseHistoryOf(db: GraphDb, state: NodeId, at: int)
    requires db.Valid()
    modifies db
    ensures db.Valid()
    ensures db.View() == CloseHistory(old(db.View()), state, at)
  {
    ghost var g := db.View();
    var pending := HistoryEdges(db.View(), state);
    ghost var all := pending;
    while pending != {}
      invariant db.Valid()
      invariant pending <= all
      invariant db.labels == g.labels && db.props == g.props
      invariant db.nextNode == g.nextNode && db.nextEdge == g.nextEdge
      invariant db.edges.Keys == g.edges.Keys
      invariant forall id :: id in g.edges ==>
        db.edges[id] == if id in all && id !in pending then Closed(g.edges[id], at) else g.edges[id]
      decreases pending
    {
      var id :| id in pending;
      db.SetRelationshipProperty(id, END_DATE_PROP, Long(at));
      pending := pending - {id};
    }
    assert db.edges == CloseHistory(g, state, at).edges;
  }

  /** The retirement of one current state: PREVIOUS edge, closed history,
      deleted CURRENT edge. `currentState` and `currentDate` are the target and
      the date already read from `c`. */
  method RetireCurrent(db: GraphDb, c: EdgeId, currentState: NodeId, currentDate: int, newState: NodeId, at: int)
    requires db.Valid() && c in db.edges && newState in db.labels
    requires db.edges[c].dst == currentState
    requires DATE_PROP in db.edges[c].props && db.edges[c].props[DATE_PROP] == Long(currentDate)
    modifies db
    ensures db.Valid()
    ensures db.View() == Retire(old(db.View()), c, newState, at)
  {
    var previous := db.CreateRelationship(newState, currentState, PREVIOUS_TYPE, map[DATE_PROP := Long(currentDate)]);
    CloseHistoryOf(db, currentState, at);
    db.DeleteRelationship(c);
  }

  /** `currentStateUpdate`: its code is not part of this model; its contract is
      the retirement above for the one CURRENT edge `c`, followed by
      `addCurrentState` for `newState`. */
  method CurrentStateUpdate(db: GraphDb, entity: NodeId, at: int, c: EdgeId, currentState: NodeId,
                            currentDate: int, newState: NodeId)
    returns (result: NodeId)
    requires db.Valid() && c in db.edges && newState in db.labels
    requires db.edges[c].src == entity && db.edges[c].dst == currentState
    requires DATE_PROP in db.edges[c].props && db.edges[c].props[DATE_PROP] == Long(currentDate)
    modifies db
    ensures db.Valid()
    ensures result == newState
    ensures db.View() == Attach(Retire(old(db.View()), c, newState, at), entity, newState, at)
  {
    RetireCurrent(db, c, currentState, currentDate, newState, at);
    AddCurrentState(db, newState, entity, at);
    result := newState;
  }

  /** `RelationshipProcedure.createRelationship(from, to, type)`: its code is
      not part of this model; its contract is one new edge of that type, with
      no properties. */
  method CreateTypedRelationship(db: GraphDb, from: NodeId, to: NodeId, kind: string) returns (id: EdgeId)
    requires db.Valid() && from in db.labels && to in db.labels
    modifies db
    ensures db.Valid()
    ensures db.View() == AddEdge(old(db.View()), from, to, kind, map[])
  {
    id := db.CreateRelationship(from, to, kind, map[]);
  }

  /** `getCurrentRelationship`: one of the entity's CURRENT edges, if any. */
  method GetCurrentRelationship(db: GraphDb, entity: NodeId) returns (current: Option<EdgeId>)
    ensures current.None? <==> CurrentEdges(db.View(), entity) == {}
    ensures current.Some? ==> current.value in CurrentEdges(db.View(), entity)
  {
    var found := CurrentEdges(db.View(), entity);
    if found == {} {
      current := None;
    } else {
      var c :| c in found;
      current := Some(c);
    }
  }

  /** `state` is one of the entity's states: a HAS_STATE edge joins them. */
  ghost predicate Linked(g: Graph, entity: NodeId, state: NodeId) {
    exists id :: id in g.edges && g.edges[id].src == entity && g.edges[id].dst == state && g.edges[id].kind == HAS_STATE_TYPE
  }

  /** `checkRelationship(entity, state)`: succeeds exactly when `state` is one
      of the entity's states, that is when a HAS_STATE edge joins them. */
  method CheckRelationship(db: GraphDb, entity: NodeId, state: NodeId) returns (linked: bool)
    ensures linked <==> Linked(db.View(), entity, state)
  {
    var found := OwnershipEdges(db.View(), entity, state);
    linked := found != {};
    if linked {
      var id :| id in found;
      assert db.edges[id].src == entity && db.edges[id].dst == state && db.edges[id].kind == HAS_STATE_TYPE;
    } else {
      forall id | id in db.edges && db.edges[id].src == entity && db.edges[id].dst == state
        ensures db.edges[id].kind != HAS_STATE_TYPE
      {
        assert id !in found;
      }
    }
  }
}
