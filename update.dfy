/**
 * The three state transitions of the versioner — `update`, `patch` and
 * `patch.from` — and the merge-and-replay routine the two patches share.
 *
 * Each procedure is a method on the graph store; each is proved against a
 * specification function of the graph it starts from, the caller's inputs and
 * the order in which it happened to visit the edges it iterates over.
 */
module Update {
  import opened PropertyGraph
  import opened Wrappers
  import opened CoreProcedure
  import opened History

  /** What `update` needs to succeed: `order` visits every CURRENT edge of
      the entity once, and each of them carries a date. */
  ghost predicate UpdateReady(g: Graph, entity: NodeId, order: seq<EdgeId>) {
    && Wf(g) && entity in g.labels
    && Enumerates(order, CurrentEdges(g, entity))
    && AllDated(g, order)
  }

  /** The graph after a successful `update`: a fresh state holding exactly
      `stateProps`, every CURRENT edge of the entity retired in its favour (in
      the visiting order), then the fresh state installed as current. */
  ghost function UpdateSpec(g: Graph, entity: NodeId, stateProps: Props, additionalLabel: string,
                            at: int, order: seq<EdgeId>): Graph
    requires UpdateReady(g, entity, order)
  {
    var created := Created(g, StateLabels(additionalLabel), stateProps);
    Attach(RetireAll(created, order, g.nextNode, at), entity, g.nextNode, at)
  }

  /** Update.java, lines 42-56 of `update`: the retirement of every CURRENT edge of the
      entity in favour of `newState`, in whatever order the store lists them.
      It stops at the first edge without a long `date`, whose cast throws. */
  method RetireCurrentEdges(db: GraphDb, entity: NodeId, newState: NodeId, at: int)
    returns (missing: Option<EdgeId>, ghost order: seq<EdgeId>)
    requires db.Valid() && newState in db.labels
    modifies db
    ensures db.Valid()
    ensures missing.None? ==>
      && Enumerates(order, CurrentEdges(old(db.View()), entity))
      && Retirable(old(db.View()), order, newState)
      && db.View() == RetireAll(old(db.View()), order, newState, at)
    ensures missing.Some? ==>
      missing.value in CurrentEdges(old(db.View()), entity) && !Dated(old(db.edges)[missing.value])
  {
    ghost var g := db.View();
    var pending := CurrentEdges(db.View(), entity);
    ghost var all := pending;
    order := [];
    while pending != {}
      invariant db.Valid()
      invariant pending <= all
      invariant Distinct(order)
      invariant forall id :: id in order <==> id in all && id !in pending
      invariant Retirable(g, order, newState)
      invariant db.labels == g.labels
      invariant db.View() == RetireAll(g, order, newState, at)
      invariant forall id :: id in pending ==> EdgeAt(db.View(), id, g.edges[id])
      decreases pending
    {
      var c :| c in pending;
      var rel := db.edges[c];
      if !(DATE_PROP in rel.props && rel.props[DATE_PROP].Long?) {
        return Some(c), order;
      }
      ghost var before := db.View();
      DistinctSnoc(order, c);
      RetireAllSnoc(g, order, c, newState, at);
      RetireKeeps(before, c, newState, at);
      RetireCurrent(db, c, rel.dst, rel.props[DATE_PROP].n, newState, at);
      order := order + [c];
      pending := pending - {c};
      forall id | id in pending ensures EdgeAt(db.View(), id, g.edges[id]) {
        assert id in all && EdgeAt(before, id, g.edges[id]);
      }
    }
    missing := None;
  }

  /** `graph.versioner.update(entity, stateProps, additionalLabel, date)`.
      The clock is the parameter `now`. When the retirement throws, the
      enclosing transaction undoes everything done so far. */
  method Update(db: GraphDb, entity: NodeId, stateProps: Props, additionalLabel: string, date: int, now: int)
    returns (result: Result<NodeId, VersionerError>, ghost order: seq<EdgeId>)
    requires db.Valid() && entity in db.labels
    modifies db
    ensures db.Valid()
    ensures result.Success? ==>
      && result.value == old(db.nextNode)
      && UpdateReady(old(db.View()), entity, order)
      && db.View() == UpdateSpec(old(db.View()), entity, stateProps, additionalLabel, ResolveDate(date, now), order)
    ensures result.Failure? ==>
      && result.error.MissingDate?
      && result.error.rel in CurrentEdges(old(db.View()), entity)
      && !Dated(old(db.edges)[result.error.rel])
      && db.View() == old(db.View())
  {
    var snapshot := db.View();
    var labels := StateLabels(additionalLabel);
    var n := CreateState(db, labels, stateProps);
    var instantDate := ResolveDate(date, now);
    ghost var created := db.View();
    assert CurrentEdges(created, entity) == CurrentEdges(snapshot, entity);
    var missing;
    missing, order := RetireCurrentEdges(db, entity, n, instantDate);
    if missing.Some? {
      db.Rollback(snapshot);
      return Failure(MissingDate(missing.value)), order;
    }
    RetireAllNodes(created, order, n, instantDate);
    AddCurrentState(db, n, entity, instantDate);
    result := Success(n);
  }

  /** A first state: a fresh node installed as current, nothing retired. */
  ghost function Bootstrap(g: Graph, entity: NodeId, labels: set<string>, stateProps: Props, at: int): Graph {
    Attach(Created(g, labels, stateProps), entity, g.nextNode, at)
  }

  /** The graph once `createPatchedState` has made its new state current,
      before the replay: a fresh node labelled `labels` holding the current
      state's properties overlaid with `overrides`, and CURRENT edge `c`
      retired in its favour. */
  ghost function Promoted(g: Graph, overrides: Props, labels: set<string>, at: int, c: EdgeId): Graph
    requires Wf(g) && c in g.edges && Dated(g.edges[c])
  {
    var e := g.edges[c];
    var created := Created(g, labels, Overlay(g.props[e.dst], overrides));
    Attach(Retire(created, c, g.nextNode, at), e.src, g.nextNode, at)
  }

  /** What `createPatchedState` leaves behind: a missing date on `c` fails
      before anything is created; otherwise the promoted graph with the
      retired state's reference edges replayed, in the visiting `order`, onto
      the new state. */
  ghost predicate PatchOutcome(g: Graph, r: Graph, result: Result<NodeId, VersionerError>,
                               overrides: Props, labels: set<string>, at: int, c: EdgeId, order: seq<EdgeId>)
    requires Wf(g) && c in g.edges
  {
    if Dated(g.edges[c]) then
      var p := Promoted(g, overrides, labels, at, c);
      && result == Success(g.nextNode)
      && Enumerates(order, ReferenceEdges(p, g.edges[c].dst))
      && r == ReplayAll(p, p.edges, order, g.nextNode)
    else
      result == Failure(MissingDate(c)) && r == g
  }

  /** Update.java, lines 125-127: for every outgoing edge of `from` whose end node is
      labelled R, an edge of the same type from `to` to that node. */
  method ReplayReferences(db: GraphDb, from: NodeId, to: NodeId) returns (ghost order: seq<EdgeId>)
    requires db.Valid() && to in db.labels
    modifies db
    ensures db.Valid()
    ensures Enumerates(order, ReferenceEdges(old(db.View()), from))
    ensures db.View() == ReplayAll(old(db.View()), old(db.edges), order, to)
  {
    ghost var g := db.View();
    var pending := ReferenceEdges(db.View(), from);
    ghost var all := pending;
    order := [];
    while pending != {}
      invariant db.Valid()
      invariant pending <= all
      invariant Distinct(order)
      invariant forall id :: id in order <==> id in all && id !in pending
      invariant db.labels == g.labels && db.nextEdge >= g.nextEdge
      invariant forall id :: id in g.edges ==> EdgeAt(db.View(), id, g.edges[id])
      invariant db.View() == ReplayAll(g, g.edges, order, to)
      decreases pending
    {
      var id :| id in pending;
      assert id in all && EdgeAt(db.View(), id, g.edges[id]);
      var rel := db.edges[id];
      ghost var before := db.View();
      DistinctSnoc(order, id);
      assert (order + [id])[..|order|] == order;
      var copy := CreateTypedRelationship(db, to, rel.dst, rel.kind);
      forall k | k in g.edges
        ensures EdgeAt(db.View(), k, g.edges[k])
      {
        assert EdgeAt(before, k, g.edges[k]);
      }
      order := order + [id];
      pending := pending - {id};
    }
  }

  /** `createPatchedState(stateProps, labels, instantDate, currentRelationship)`:
      the current state's properties with `stateProps` put over them, a new
      state with those and `labels`, the retirement of `c` in its favour, and
      the replay of the retired state's reference edges. */
  method CreatePatchedState(db: GraphDb, stateProps: Props, labels: set<string>, at: int, c: EdgeId)
    returns (result: Result<NodeId, VersionerError>, ghost order: seq<EdgeId>)
    requires db.Valid() && c in db.edges
    modifies db
    ensures db.Valid()
    ensures PatchOutcome(old(db.View()), db.View(), result, stateProps, labels, at, c, order)
  {
    var rel := db.edges[c];
    var currentState := rel.dst;
    if !(DATE_PROP in rel.props && rel.props[DATE_PROP].Long?) {
      return Failure(MissingDate(c)), [];
    }
    var currentDate := rel.props[DATE_PROP].n;
    var entity := rel.src;
    var patchedProps := PutAll(db.props[currentState], stateProps);
    var newState := CreateState(db, labels, patchedProps);
    var promoted := CurrentStateUpdate(db, entity, at, c, currentState, currentDate, newState);
    order := ReplayReferences(db, currentState, promoted);
    result := Success(promoted);
  }

  /** `graph.versioner.patch(entity, stateProps, additionalLabel, date)`: a
      patch of the current state when there is one, a first state otherwise. */
  method Patch(db: GraphDb, entity: NodeId, stateProps: Props, additionalLabel: string, date: int, now: int)
    returns (result: Result<NodeId, VersionerError>, ghost current: Option<EdgeId>, ghost order: seq<EdgeId>)
    requires db.Valid() && entity in db.labels
    modifies db
    ensures db.Valid()
    ensures current.None? <==> CurrentEdges(old(db.View()), entity) == {}
    ensures current.None? ==>
      && result == Success(old(db.nextNode))
      && db.View() == Bootstrap(old(db.View()), entity, StateLabels(additionalLabel), stateProps, ResolveDate(date, now))
    ensures current.Some? ==>
      && current.value in CurrentEdges(old(db.View()), entity)
      && PatchOutcome(old(db.View()), db.View(), result, stateProps, StateLabels(additionalLabel),
                      ResolveDate(date, now), current.value, order)
  {
    var labelNames := StateLabels(additionalLabel);
    var instantDate := ResolveDate(date, now);
    var currentRel := GetCurrentRelationship(db, entity);
    current := currentRel;
    match currentRel
    case Some(c) =>
      result, order := CreatePatchedState(db, stateProps, labelNames, instantDate, c);
    case None =>
      var n := CreateState(db, labelNames, stateProps);
      AddCurrentState(db, n, entity, instantDate);
      result, order := Success(n), [];
  }

  /** `graph.versioner.patch.from(entity, state, date)`: a patch of the
      entity's current state with all of `state`'s properties, labelled as
      `state` is. It fails, changing nothing, when `state` is not one of the
      entity's states or when the entity has no current state. */
  method PatchFrom(db: GraphDb, entity: NodeId, state: NodeId, date: int, now: int)
    returns (result: Result<NodeId, VersionerError>, ghost current: Option<EdgeId>, ghost order: seq<EdgeId>)
    requires db.Valid() && entity in db.labels && state in db.labels
    modifies db
    ensures db.Valid()
    ensures !Linked(old(db.View()), entity, state) ==>
      result == Failure(StateNotLinked(entity, state)) && db.View() == old(db.View())
    ensures Linked(old(db.View()), entity, state) && CurrentEdges(old(db.View()), entity) == {} ==>
      result == Failure(NoCurrentState(entity)) && db.View() == old(db.View())
    ensures Linked(old(db.View()), entity, state) && CurrentEdges(old(db.View()), entity) != {} ==>
      && current.Some?
      && current.value in CurrentEdges(old(db.View()), entity)
      && PatchOutcome(old(db.View()), db.View(), result, old(db.props)[state], old(db.labels)[state],
                      ResolveDate(date, now), current.value, order)
  {
    var instantDate := ResolveDate(date, now);
    var labels := db.labels[state];
    var linked := CheckRelationship(db, entity, state);
    if !linked {
      return Failure(StateNotLinked(entity, state)), None, [];
    }
    var currentRel := GetCurrentRelationship(db, entity);
    current := currentRel;
    if currentRel.None? {
      return Failure(NoCurrentState(entity)), current, [];
    }
    result, order := CreatePatchedState(db, db.props[state], labels, instantDate, currentRel.value);
  }
}
