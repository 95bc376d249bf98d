# Versioner state transitions

A model of the state-transition core of the Neo4j graph versioner: the
procedures `graph.versioner.update`, `graph.versioner.patch` and
`graph.versioner.patch.from`, and the private merge-and-replay routine
`createPatchedState` that the two patches share.

The versioner keeps the history of an *entity* node as a chain of *state*
nodes:

- the entity has one outgoing `CURRENT` edge, to its current state;
- it has a `HAS_STATE` edge to every state it ever had;
- each state has a `PREVIOUS` edge to the state it superseded;
- these edges carry a `date`, and a `HAS_STATE` edge gets an `endDate` once its state is superseded.

A transition makes a fresh state current:

- `update` builds the state from the caller's properties alone, and retires every `CURRENT` edge the entity has.
- `patch` overlays the caller's properties on those of the current state.
- `patch.from` overlays the properties of a given earlier state on the current state, and labels the new node like that earlier state.
- Both patches retire the one `CURRENT` edge they look up. They then repeat, from the new state, every edge the retired state had to a node labelled `R`.

Layout of the project:

- `graph.dfy` (`PropertyGraph`) is the property graph. `Graph` is its content as a value. `GraphDb` is the store, a class whose methods are the primitive operations: create node, set properties, create, update and delete a relationship, and roll back.
- `wrappers.dfy` (`Wrappers`) holds `Option` and `Result`.
- `core.dfy` (`CoreProcedure`) holds:
  - the schema constants and the error kinds;
  - timestamp and label resolution, and the property overlay;
  - the retirement of one current state and the installation of a new one;
  - the helpers the procedures call.
- `history.dfy` (`History`) writes the two loops as folds over the order in which they visited their edges. `RetireAll` retires the `CURRENT` edges and `ReplayAll` replays the reference edges. Its lemmas say what each fold does in any order.
- `update.dfy` (`Update`) holds the three procedures and `createPatchedState` as methods on the store. Each is proved against a specification function: `UpdateSpec`, `Bootstrap`, or `Promoted` followed by `ReplayAll` (the predicate `PatchOutcome`).
- `update_properties.dfy` (`UpdateProperties`) and `patch_properties.dfy` (`PatchProperties`) prove what the transitions promise, stated on those specification functions.

The model follows the code of `Update.java`:

- `patch.from` is documented by its own `@Description` (line 91) as adding a new state "starting from the given one". The code merges onto the *current* state: the current state's properties are the base and the given state's properties override them, as lines 102-103 pass them.
- `update` retires every `CURRENT` edge the entity has (lines 42-56). The patches retire only the single `CURRENT` edge that `getCurrentRelationship` returns (lines 77-78, 102-103); any other `CURRENT` edge of the entity stays.
- `patch.from` checks that the given state belongs to the entity by calling `checkRelationship` (line 100), whose code is not part of this model. It is modelled as "a `HAS_STATE` edge joins entity and state".

Calls into code that is not part of this model carry the contract the procedures rely on (see "Left out"):

- `addCurrentState` creates a `CURRENT` and a `HAS_STATE` edge, both dated.
- `currentStateUpdate` retires the one edge, then calls `addCurrentState`.
- `getCurrentRelationship` returns some `CURRENT` edge of the entity, or none.
- `checkRelationship` succeeds when a `HAS_STATE` edge links the entity to the state.
- `setProperties` sets every given property.
- `getStateLabels` gives `State` plus the non-empty additional label.
- `defaultToNow` resolves the date 0 to the clock.
- `RelationshipProcedure.createRelationship` makes one edge of the given type with no properties.

## Model

| member | source | states |
|---|---|---|
| PropertyGraph.AddNode | src/main/java/org/homer/versioner/core/procedure/Update.java:37 | a fresh node with the given labels and no properties; no edge changes; well-formedness is kept |
| PropertyGraph.SetNodeProperties | src/main/java/org/homer/versioner/core/procedure/Update.java:37 | labels, edges, counters and the set of nodes with a property map are unchanged; well-formedness is kept |
| PropertyGraph.SetNodePropertiesEffect | src/main/java/org/homer/versioner/core/procedure/Update.java:37 | node n's map gains every key of the given map, whose values win, and keeps its other keys; every other node's map is unchanged |
| PropertyGraph.AddEdge | src/main/java/org/homer/versioner/core/procedure/Update.java:48 | exactly one edge is added, at a fresh identity; nodes are unchanged; well-formed when both ends exist |
| PropertyGraph.GraphDb.CreateNode | src/main/java/org/homer/versioner/core/procedure/Update.java:37 | the store gains a node with a fresh identity; its new content is `AddNode` of the old |
| PropertyGraph.GraphDb.SetProperties | src/main/java/org/homer/versioner/core/procedure/Update.java:37 | the store's new content is `SetNodeProperties` of the old |
| PropertyGraph.GraphDb.CreateRelationship | src/main/java/org/homer/versioner/core/procedure/Update.java:48 | returns a fresh identity; the store's new content is `AddEdge` of the old |
| PropertyGraph.GraphDb.SetRelationshipProperty | src/main/java/org/homer/versioner/core/procedure/Update.java:52 | one property of one edge is set; everything else stays |
| PropertyGraph.GraphDb.DeleteRelationship | src/main/java/org/homer/versioner/core/procedure/Update.java:55 | one edge is removed; the store stays well formed |
| PropertyGraph.GraphDb.Rollback | src/main/java/org/homer/versioner/core/procedure/Update.java:45 | a failed cast undoes the transaction: the store is back to its snapshot |
| CoreProcedure.ResolveDate | src/main/java/org/homer/versioner/core/procedure/Update.java:39 | the instant is the clock when the date is 0, and the caller's date otherwise |
| CoreProcedure.StateLabels | src/main/java/org/homer/versioner/core/procedure/Update.java:33-36 | `State` is always a label; the additional label is one iff it is not empty; there are no other labels |
| CoreProcedure.Overlay | src/main/java/org/homer/versioner/core/procedure/Update.java:117-118 | keys are the union; an override wins on a shared key; other base keys keep their values |
| CoreProcedure.PutAll | src/main/java/org/homer/versioner/core/procedure/Update.java:117-118 | the key-by-key `putAll` loop yields exactly `Overlay(base, overrides)` |
| CoreProcedure.Created | src/main/java/org/homer/versioner/core/procedure/Update.java:37 | one fresh node with exactly the given labels and properties; edges untouched; well-formedness kept |
| CoreProcedure.CreateState | src/main/java/org/homer/versioner/core/procedure/Update.java:37 | returns the fresh node; the store's new content is `Created` of the old |
| CoreProcedure.CloseEdges | src/main/java/org/homer/versioner/core/procedure/Update.java:51-52 | the given edges get `endDate`; every other edge and every node is unchanged; no edge is added or removed |
| CoreProcedure.Retire | src/main/java/org/homer/versioner/core/procedure/Update.java:44-55 | nodes untouched; exactly one fresh edge identity is used |
| CoreProcedure.RetireFacts | src/main/java/org/homer/versioner/core/procedure/Update.java:44-55 | retiring CURRENT edge c: c is gone; a PREVIOUS edge from the new state to c's state carries c's date; the HAS_STATE edges into that state are closed; all other edges are unchanged |
| CoreProcedure.Attach | src/main/java/org/homer/versioner/core/procedure/Update.java:59 | exactly two edges are added, a CURRENT and a HAS_STATE edge from entity to state, both dated with the instant |
| CoreProcedure.AddCurrentState | src/main/java/org/homer/versioner/core/procedure/Update.java:59 | the store's new content is `Attach` of the old |
| CoreProcedure.CloseHistoryOf | src/main/java/org/homer/versioner/core/procedure/Update.java:51-52 | the loop over incoming HAS_STATE edges yields exactly `CloseHistory` of the old graph |
| CoreProcedure.RetireCurrent | src/main/java/org/homer/versioner/core/procedure/Update.java:44-55 | the loop body of `update` for one CURRENT edge yields exactly `Retire` of the old graph |
| CoreProcedure.CurrentStateUpdate | src/main/java/org/homer/versioner/core/procedure/Update.java:122 | retires the one given CURRENT edge, then installs the new state; returns the new state |
| CoreProcedure.CreateTypedRelationship | src/main/java/org/homer/versioner/core/procedure/Update.java:127 | adds one edge of the given type, with no properties |
| CoreProcedure.GetCurrentRelationship | src/main/java/org/homer/versioner/core/procedure/Update.java:77 | returns none iff the entity has no CURRENT edge; otherwise one of its CURRENT edges |
| CoreProcedure.CheckRelationship | src/main/java/org/homer/versioner/core/procedure/Update.java:100 | true iff a HAS_STATE edge joins entity and state |
| History.RetireAllSnoc | src/main/java/org/homer/versioner/core/procedure/Update.java:43-56 | retiring one more edge at the end of the order is one more `Retire` |
| History.RetireAllNodes | src/main/java/org/homer/versioner/core/procedure/Update.java:43-56 | the retirement loop touches no node; it uses exactly one fresh edge per retired edge; the graph stays well formed |
| History.RetireAllKeys | src/main/java/org/homer/versioner/core/procedure/Update.java:43-56 | afterwards the edges are those not retired plus one fresh edge per retired one |
| History.RetireAllCloses | src/main/java/org/homer/versioner/core/procedure/Update.java:51-52 | an edge that is kept is closed iff it is a HAS_STATE edge into a state whose CURRENT edge was retired; otherwise it is unchanged |
| History.RetireAllLinks | src/main/java/org/homer/versioner/core/procedure/Update.java:47-48 | the i-th retired edge gets a PREVIOUS edge at the i-th fresh identity, carrying its date |
| History.ReplayAllEffect | src/main/java/org/homer/versioner/core/procedure/Update.java:125-127 | the replay only adds edges: the i-th fresh edge goes from the new state to the i-th visited edge's end node, with its type and no properties |
| PropertyGraph.SetEdgeProperty | src/main/java/org/homer/versioner/core/procedure/Update.java:52 | no contract; defined as the graph with one property of edge `id` set, everything else as it was |
| PropertyGraph.DeleteEdge | src/main/java/org/homer/versioner/core/procedure/Update.java:55 | no contract; defined as the graph without edge `id`, everything else as it was |
| CoreProcedure.Dated | src/main/java/org/homer/versioner/core/procedure/Update.java:45 | no contract; defined as: the edge's `date` is present and a long, exactly when the `(Long)` cast of lines 45 and 113 succeeds |
| CoreProcedure.PreviousEdge | src/main/java/org/homer/versioner/core/procedure/Update.java:48 | no contract; defined as the edge from the new state to the retired CURRENT edge's target, of type PREVIOUS, whose only property is that edge's `date` |
| CoreProcedure.Closed | src/main/java/org/homer/versioner/core/procedure/Update.java:52 | no contract; defined as the edge with `endDate` set to the instant, everything else as it was |
| CoreProcedure.OwnershipEdges | src/main/java/org/homer/versioner/core/procedure/Update.java:100 | no contract; defined as the identities of the HAS_STATE edges from the entity to the state |
| History.Copy | src/main/java/org/homer/versioner/core/procedure/Update.java:127 | no contract; defined as the edge from the new state to the copied edge's end node, of its type, with no properties |
| CoreProcedure.CurrentEdges | src/main/java/org/homer/versioner/core/procedure/Update.java:42 | no contract; defined as the identities of the entity's outgoing CURRENT edges |
| CoreProcedure.HistoryEdges | src/main/java/org/homer/versioner/core/procedure/Update.java:51 | no contract; defined as the identities of the state's incoming HAS_STATE edges |
| CoreProcedure.ReferenceEdges | src/main/java/org/homer/versioner/core/procedure/Update.java:125-126 | no contract; defined as the identities of the state's outgoing edges whose end node is labelled R |
| CoreProcedure.Linked | src/main/java/org/homer/versioner/core/procedure/Update.java:100 | no contract; defined as: some HAS_STATE edge goes from the entity to the state |
| CoreProcedure.CloseHistory | src/main/java/org/homer/versioner/core/procedure/Update.java:51-52 | no contract; defined as `CloseEdges` of the state's incoming HAS_STATE edges, which stamps `endDate` on exactly those |
| History.RetireAll | src/main/java/org/homer/versioner/core/procedure/Update.java:43-56 | no contract; defined as the fold of `Retire` over the visiting order, first to last; the History lemmas state its effect |
| History.ReplayAll | src/main/java/org/homer/versioner/core/procedure/Update.java:125-127 | no contract; defined as the fold, over the visiting order, that adds for each edge a property-less edge of its type from the new state to its end node |
| Update.UpdateSpec | src/main/java/org/homer/versioner/core/procedure/Update.java:33-59 | no contract; defined as: create the state, retire every CURRENT edge in the visiting order, then install the state; the UpdateProperties lemmas state its effect |
| Update.Bootstrap | src/main/java/org/homer/versioner/core/procedure/Update.java:80-82 | no contract; defined as: create the state from the caller's labels and properties, then install it, retiring nothing |
| Update.Promoted | src/main/java/org/homer/versioner/core/procedure/Update.java:112-122 | no contract; defined as: create the state with the overlaid properties, retire the one CURRENT edge, then install the state |
| Update.PatchOutcome | src/main/java/org/homer/versioner/core/procedure/Update.java:110-130 | no contract; defined as: an undated CURRENT edge fails and leaves the graph unchanged; otherwise success with the fresh node and `ReplayAll` of the retired state's reference edges over `Promoted` |
| Update.RetireCurrentEdges | src/main/java/org/homer/versioner/core/procedure/Update.java:42-56 | either every CURRENT edge is dated and the store becomes `RetireAll` over the visiting order, or it stops at an undated CURRENT edge |
| Update.Update | src/main/java/org/homer/versioner/core/procedure/Update.java:26-64 | success returns the fresh node and yields `UpdateSpec`; a CURRENT edge without a long date fails, naming it, and leaves the store unchanged |
| Update.ReplayReferences | src/main/java/org/homer/versioner/core/procedure/Update.java:125-127 | the loop visits each reference edge of the state once and yields `ReplayAll` in that order |
| Update.CreatePatchedState | src/main/java/org/homer/versioner/core/procedure/Update.java:110-130 | a CURRENT edge without a long date fails before any change; otherwise the store becomes the promoted graph with the references replayed (`PatchOutcome`) |
| Update.Patch | src/main/java/org/homer/versioner/core/procedure/Update.java:68-88 | with no CURRENT edge it bootstraps a first state; otherwise it patches from a CURRENT edge of the entity |
| Update.PatchFrom | src/main/java/org/homer/versioner/core/procedure/Update.java:92-108 | fails with nothing changed if the state is not the entity's or the entity has no current state; otherwise it patches with the state's labels and with its properties as overrides |
| UpdateProperties.RetireAllKeepsEnds | src/main/java/org/homer/versioner/core/procedure/Update.java:51-55 | retirement changes at most the properties of an edge it keeps |
| UpdateProperties.RetireAllFreshEdges | src/main/java/org/homer/versioner/core/procedure/Update.java:47-48 | every edge retirement adds is the PREVIOUS edge of one retired CURRENT edge |
| UpdateProperties.RetiredNoCurrent | src/main/java/org/homer/versioner/core/procedure/Update.java:43-55 | after retiring all its CURRENT edges the entity has none |
| UpdateProperties.UpdateCreatesFreshState | src/main/java/org/homer/versioner/core/procedure/Update.java:33-37 | `update`'s new state is fresh; it carries `State` plus the non-empty label and exactly the given properties; no other node changes; the graph stays well formed |
| UpdateProperties.AttachSingleCurrent | src/main/java/org/homer/versioner/core/procedure/Update.java:59 | installing a state on an entity without a CURRENT edge leaves it exactly one, the new one, plus a HAS_STATE edge |
| UpdateProperties.UpdateSingleCurrent | src/main/java/org/homer/versioner/core/procedure/Update.java:42-59 | after `update` the entity has exactly one CURRENT edge, to the new state and dated with the instant, plus a HAS_STATE edge with the same date |
| UpdateProperties.RetireAllPrevious | src/main/java/org/homer/versioner/core/procedure/Update.java:47-48 | each retired CURRENT edge has a PREVIOUS edge out of the new state, and the new state has no other outgoing edge |
| UpdateProperties.AttachKeeps | src/main/java/org/homer/versioner/core/procedure/Update.java:59 | installation keeps every edge and adds only edges out of the entity |
| UpdateProperties.UpdateLinksPrevious | src/main/java/org/homer/versioner/core/procedure/Update.java:44-48 | both directions: every superseded state gets a PREVIOUS edge from the new state carrying the old CURRENT date, and those are the only edges out of the new state |
| UpdateProperties.RetireAllDrops | src/main/java/org/homer/versioner/core/procedure/Update.java:55 | an old edge survives retirement iff it was not retired |
| UpdateProperties.TargetsAreSuperseded | src/main/java/org/homer/versioner/core/procedure/Update.java:44 | the states the loop closes are exactly the targets of the entity's CURRENT edges |
| UpdateProperties.UpdateClosesHistory | src/main/java/org/homer/versioner/core/procedure/Update.java:51-55 | an old edge survives `update` iff it is not a CURRENT edge of the entity; HAS_STATE edges into superseded states get `endDate`; every other edge is unchanged |
| UpdateProperties.FirstStateBootstrap | src/main/java/org/homer/versioner/core/procedure/Update.java:79-83 | without a current state, `patch` equals `update` with nothing to retire and leaves exactly one CURRENT edge |
| PatchProperties.AttachAfterRetireNew | src/main/java/org/homer/versioner/core/procedure/Update.java:122 | retirement then installation adds three edges: PREVIOUS, then CURRENT and HAS_STATE, dated |
| PatchProperties.AttachAfterRetireKeys | src/main/java/org/homer/versioner/core/procedure/Update.java:122 | the edges in use are the old ones minus the retired edge, plus three fresh ones |
| PatchProperties.AttachAfterRetireOld | src/main/java/org/homer/versioner/core/procedure/Update.java:122 | an old edge is closed iff it is a HAS_STATE edge into the retired state; otherwise it is unchanged |
| PatchProperties.PromotedSteps | src/main/java/org/homer/versioner/core/procedure/Update.java:119-122 | creating the merged state leaves the edges and the retired state's history as they were, ready for retirement |
| PatchProperties.PromotedNodes | src/main/java/org/homer/versioner/core/procedure/Update.java:117-119 | the promotion adds one fresh node with the given labels and the overlaid properties; other nodes are unchanged |
| PatchProperties.PromotedEdges | src/main/java/org/homer/versioner/core/procedure/Update.java:122 | the promotion adds a PREVIOUS edge back to the retired state with its date, then CURRENT and HAS_STATE edges dated with the instant |
| PatchProperties.PromotedKeeps | src/main/java/org/homer/versioner/core/procedure/Update.java:122 | the promotion keeps every old edge but the retired one, closing exactly the retired state's HAS_STATE edges |
| PatchProperties.ReplayCopies | src/main/java/org/homer/versioner/core/procedure/Update.java:125-127 | both directions: every reference edge has a copy out of the new state, and every added edge is such a copy; old edges and nodes are kept |
| PatchProperties.PatchedStateShape | src/main/java/org/homer/versioner/core/procedure/Update.java:112-119 | a successful patch had a dated CURRENT edge; the new node is fresh, with the given labels and the current state's properties overlaid by the caller's |
| PatchProperties.PatchReplays | src/main/java/org/homer/versioner/core/procedure/Update.java:122-127 | the replay keeps every edge of the promoted graph and only adds edges out of the new state |
| PatchProperties.PatchedStateRetires | src/main/java/org/homer/versioner/core/procedure/Update.java:112-122 | the entity's CURRENT edges lose exactly the retired one and gain one, to the new state; the PREVIOUS and HAS_STATE edges are dated as the source dates them; other old edges are closed or kept |
| PatchProperties.SameReferences | src/main/java/org/homer/versioner/core/procedure/Update.java:125-126 | when the retired CURRENT edge is not a self-loop on the entity, the promotion changes neither the retired state's reference edges nor their ends |
| PatchProperties.ReplayedReferences | src/main/java/org/homer/versioner/core/procedure/Update.java:125-127 | when the retired CURRENT edge is not a self-loop on the entity, the copies made after a promotion are exactly copies of the original graph's reference edges, both directions |
| PatchProperties.PatchedStateReplays | src/main/java/org/homer/versioner/core/procedure/Update.java:125-127 | both directions: after a patch every reference edge of the retired state is repeated from the new state with its type and end node; the new state has no outgoing edge but these and its PREVIOUS edge |

## Left out

- Neo4j plumbing is not modelled: procedure registration, the `Stream<NodeOutput>` wrapping, node references as Java objects, and the `log.info` calls.
- The clock is the parameter `now`. `Calendar.getInstance()` and `defaultToNow` are not modelled.
- Transactions and concurrency are not modelled. A transition is one atomic step on the store. When the cast of a `date` throws inside `update`'s loop, the enclosing transaction's rollback is modelled by `GraphDb.Rollback`.
- Property values are either longs or opaque other values. Java's dynamic typing is not modelled: a `date` that is missing and a `date` that is not a `Long` are the same error. Null values are not modelled either, nor whatever `setProperties` does with them.
- `addCurrentState`, `currentStateUpdate`, `getCurrentRelationship`, `checkRelationship`, `setProperties`, `getStateLabels`, `defaultToNow` and `RelationshipProcedure.createRelationship` are not part of this model. Each is given the minimal contract listed above, as an assumption.
- The order in which Neo4j lists relationships is not modelled. The two loops whose effect depends on the visiting order, the retirement of `CURRENT` edges and the replay of reference edges, record it as a ghost `order`, and every property is proved for any order.
- Edge properties on replayed reference edges are not copied, because `createRelationship` is called with the type only (line 127).
- `History.RetireAll` passes over an edge that is missing or undated, and `History.ReplayAll` passes over an identity that is missing from the source map. Every lemma assumes that neither happens, and the procedures establish it.
- PatchProperties.PatchedStateReplays: it assumes the retired CURRENT edge is not a self-loop on the entity. Otherwise the new CURRENT edge could itself count as a reference edge of the old state.
- PatchProperties.PatchedStateRetires: it speaks only of the one CURRENT edge the patch retires. An entity that had several CURRENT edges keeps the others, since the patches retire one.
- PatchProperties.SameReferences: it assumes the retired CURRENT edge is not a self-loop on the entity. Otherwise that edge is itself a reference edge of the retired state when the entity is labelled R, and the promotion deletes it, while the new CURRENT and HAS_STATE edges could become reference edges too.
- PatchProperties.ReplayedReferences: it assumes the same, for the same reason. With a self-loop the deleted CURRENT edge is neither kept nor copied.
