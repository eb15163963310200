/** Branches with rows of their own: whatever is appended, the delta stays publishable on its parent. */
module Branches {
  import opened Common
  import opened Sequences
  import opened NodeTables
  import opened NodeStores
  import opened AdjacencyStores
  import opened DeltaStores
  import opened FlatGraphs
  import opened Snapshots
  import opened Queries
  import opened SmallGraphs
  import opened Values

  /** One append to a delta; its budget says whether and where it runs out of memory. */
  datatype Append =
    | Row(tag: Tag, w: WorldlineId, valid: Interval, transaction: Interval, provenance: Provenance,
          values: seq<Value>, budget: nat)
    | Edge(e: EdgeType, source: NodeId, target: NodeId, values: seq<Value>, budget: nat)

  predicate Typed(schema: Schema, a: Append) {
    match a
    case Row(tag, _, _, _, _, values, _) =>
      tag in schema.nodeProperties && TypedRow(schema.nodeProperties[tag], values)
    case Edge(e, _, _, values, _) => e in schema.edgeProperties && TypedRow(schema.edgeProperties[e], values)
  }

  method ApplyAll(delta: DeltaStore, appends: seq<Append>)
    requires delta.Valid() && forall a :: a in appends ==> Typed(delta.schema, a)
    modifies delta
    ensures delta.Valid()
    ensures forall below :: BasesMatch(below, old(delta.View())) ==> BasesMatch(below, delta.View())
  {
    hide GraphTable.TablesValid, GraphTable.EdgesAttached, RowOutcome, AppendOutcome, GraphTable.EdgeGuard, BasesMatch;
    for i := 0 to |appends|
      invariant delta.Valid()
      invariant forall below :: BasesMatch(below, old(delta.View())) ==> BasesMatch(below, delta.View())
    {
      assert Typed(delta.schema, appends[i]);
      match appends[i] {
        case Row(tag, w, valid, transaction, provenance, values, budget) =>
          var appended := delta.AppendNode(tag, w, valid, transaction, provenance, values, budget);
        case Edge(e, source, target, values, budget) =>
          var appended := delta.AppendEdge(e, source, target, values, budget);
      }
    }
  }

  /** Any appends to a branch delta, refused and throwing ones included, leave a delta that its parent accepts. */
  method PublishAppended(parent: Snapshot, appends: seq<Append>, generation: Id64, worldline: WorldlineId,
                         validAt: Timestamp, knownAt: Timestamp)
    returns (r: Result<Snapshot>)
    requires parent.Valid() && forall a :: a in appends ==> Typed(parent.schema, a)
    requires generation != INVALID_64 && worldline != INVALID_64 && worldline != parent.worldline
    ensures r.Ok? && r.value.Valid() && r.value.parent == Some(parent)
    ensures r.value.worldline == worldline && r.value.validAt == validAt && r.value.knownAt == knownAt
  {
    hide Snapshot.Valid, GraphTable.Valid, BasesMatch, SameRows, Typed;
    var delta := MakeBranchDelta(parent);
    ApplyAll(delta, appends);
    r := PublishBranch(parent, generation, worldline, validAt, knownAt, delta);
  }

  // ---- A branch linked to its parent ----

  ghost predicate Link(t: EdgeTable) {
    t.idBase == 0 && t.size == 1 && t.sources == [0] && t.targets == [1]
  }

  lemma LinkAppended(before: EdgeTable, after: EdgeTable, outcome: Outcome<EdgeId>)
    requires before == EmptyEdges([], 0) && AppendOutcome(before, after, 0, 1, [], 6, outcome)
    ensures Link(after) && outcome == Returned(Ok(0))
  {
  }

  lemma InheritedJoinsLocal(g: GraphTable)
    requires PERSON in g.nodes && Nodes(g.nodes[PERSON], 1, 1, 1)
    ensures g.EdgeGuard(KNOWS, 0, 1).None?
  {
  }

  /** A root with node 0 and, on top of it, a layer with node 1 and an edge from 0 to 1. */
  ghost predicate Root(g: Snapshot) {
    && g.Valid() && g.schema == OneRelation() && g.parent.None? && g.worldline == g.validAt == g.knownAt == 0
    && PERSON in g.data.nodes && Nodes(g.data.nodes[PERSON], 0, 1, 0)
    && KNOWS in g.data.edges && g.data.edges[KNOWS].idBase == g.data.edges[KNOWS].size == 0
  }

  ghost predicate Linked(g: Snapshot) {
    && g.Valid() && g.schema == OneRelation() && g.parent.Some? && Root(g.parent.value)
    && g.worldline == 1 && g.validAt == g.knownAt == 0
    && PERSON in g.data.nodes && Nodes(g.data.nodes[PERSON], 1, 1, 1)
    && KNOWS in g.data.edges && Link(g.data.edges[KNOWS])
  }

  lemma LinkedVisible(g: Snapshot)
    requires Linked(g)
    ensures g.HasTag(PERSON) && g.CheckVisibility(PERSON, 0) == Ok(()) && g.CheckVisibility(PERSON, 1) == Ok(())
  {
    hide GraphTable.Valid, GraphTable.Ready, NodeTable.Valid, BasesMatch;
    g.Unfold(PERSON);
    OwnRowVisibility(g.parent.value, PERSON, 0);
    OwnRowVisibility(g, PERSON, 1);
  }

  lemma LinkedCandidates(g: Snapshot)
    requires Linked(g)
    ensures g.HasTag(PERSON) && VisibleIds(g.Rows(PERSON)) == [0, 1]
  {
    hide Snapshot.Valid, Snapshot.Rows, Snapshot.CheckVisibility, NodeTable.Valid, VisibleIds;
    LinkedVisible(g);
    g.Unfold(PERSON);
    RowsPartition(g, PERSON);
    var rows := g.Rows(PERSON);
    VisibleIdsExactly(rows, g.RowBase(PERSON));
    forall id: NodeId
      ensures id in VisibleIds(rows) <==> id in [0, 1]
    {
      VisibilityIsFlat(g, PERSON, id);
      FindRowAt(rows, g.RowBase(PERSON), id);
    }
    AscendingUnique(VisibleIds(rows), [0, 1]);
  }

  lemma LinkedEdges(g: Snapshot)
    requires Linked(g)
    ensures g.HasEdge(KNOWS) && g.Edges(KNOWS) == [FlatEdge(0, 0, 1)]
    ensures g.EdgeTarget(KNOWS, 0) == Ok(1)
  {
    hide GraphTable.Valid, GraphTable.Ready, EdgeTable.Linked, BasesMatch, Nodes, Attached;
    g.UnfoldEdge(KNOWS);
    g.parent.value.UnfoldEdge(KNOWS);
    var t := g.data.edges[KNOWS];
    assert g.parent.value.Edges(KNOWS) == [];
    assert g.Edges(KNOWS) == LocalEdges(t) == [FlatEdge(0, 0, 1)];
  }

  lemma LinkedReaches(g: Snapshot)
    requires Linked(g)
    ensures g.HasEdge(KNOWS) && ReachedFrom(g.Flatten(), KNOWS, [0]) == [1]
  {
    hide Snapshot.Valid, Snapshot.Rows, Snapshot.Edges, Snapshot.CheckVisibility, ReachedFrom;
    hide Nodes, Link, Root;
    LinkedEdges(g);
    LinkedVisible(g);
    FlattenEdges(g, KNOWS);
    FlattenAt(g, PERSON);
    VisibilityIsFlat(g, PERSON, 1);
    ReachedFromOne(g.Flatten(), KNOWS, 0);
    OneEdgeKept(FlatEdge(0, 0, 1), Leaves(g.Rows(PERSON), 0));
  }

  lemma OneEdgeKept(edge: FlatEdge, keep: FlatEdge -> bool)
    requires keep(edge)
    ensures Map(Filter([edge], keep), TargetOf()) == [edge.target]
  {
    assert [edge][..0] == [];
    assert Filter([edge], keep) == [edge];
  }

  /** Such a branch is published, shows both nodes, and a step from the inherited node arrives at the new one. */
  method LinkedBranch(generation: Id64) returns (r: Result<Snapshot>)
    requires generation != INVALID_64
    ensures r.Ok? && r.value.Valid() && r.value.HasTag(PERSON) && r.value.HasEdge(KNOWS)
    ensures r.value.CheckVisibility(PERSON, 0) == Ok(()) && r.value.CheckVisibility(PERSON, 1) == Ok(())
    ensures VisibleIds(r.value.Rows(PERSON)) == [0, 1]
    ensures r.value.EdgeTarget(KNOWS, 0) == Ok(1) && ReachedFrom(r.value.Flatten(), KNOWS, [0]) == [1]
  {
    hide Snapshot.Valid, Snapshot.CheckVisibility, Snapshot.EdgeTarget, VisibleIds, ReachedFrom;
    r := PublishLinked(generation);
    LinkedVisible(r.value);
    LinkedCandidates(r.value);
    LinkedEdges(r.value);
    LinkedReaches(r.value);
  }

  lemma SameRowsLinked(before: GraphTable, after: GraphTable)
    requires SameRows(before, after) && PERSON in before.nodes && KNOWS in before.edges
    requires Nodes(before.nodes[PERSON], 1, 1, 1) && Link(before.edges[KNOWS])
    ensures PERSON in after.nodes && KNOWS in after.edges
    ensures Nodes(after.nodes[PERSON], 1, 1, 1) && Link(after.edges[KNOWS])
  {
    assert after.nodes[PERSON].Data() == before.nodes[PERSON].Data();
    assert SameEdges(before.edges[KNOWS], after.edges[KNOWS]);
  }

  lemma BranchDeltaEmpty(root: Snapshot)
    requires Root(root)
    ensures var g := EmptyGraph(root.schema, Some(root.data));
      && PERSON in g.nodes && Nodes(g.nodes[PERSON], 1, 0, 1)
      && KNOWS in g.edges && g.edges[KNOWS] == EmptyEdges([], 0)
  {
    hide Snapshot.Valid;
  }

  method PublishLinked(generation: Id64) returns (r: Result<Snapshot>)
    requires generation != INVALID_64
    ensures r.Ok? && r.value.Valid() && Linked(r.value)
  {
    hide Snapshot.Valid, GraphTable.Valid, GraphTable.EdgeGuard, BasesMatch, NodeTable.Valid, EdgeTable.Valid;
    hide AppendOutcome, Nodes, Link, SameRows;
    var root := PublishRoot(generation);
    var delta := MakeBranchDelta(root);
    BranchDeltaEmpty(root);
    AppendNodes(delta, 1, 1, 1);
    InheritedJoinsLocal(delta.View());
    ghost var before := delta.edges[KNOWS];
    var linked := delta.AppendEdge(KNOWS, 0, 1, [], 6);
    LinkAppended(before, delta.edges[KNOWS], linked);
    ghost var filled := delta.View();
    r := PublishBranch(root, generation, 1, 0, 0, delta);
    SameRowsLinked(filled, delta.View());
  }

  method PublishRoot(generation: Id64) returns (root: Snapshot)
    requires generation != INVALID_64
    ensures root.Valid() && root.schema == OneRelation() && Root(root)
  {
    hide GraphTable.Valid, GraphTable.Ready, NodeTable.Valid, EdgeTable.Valid, Schema.WellFormed, BasesMatch;
    OneRelationWellFormed();
    var delta := new DeltaStore(OneRelation(), None);
    AppendNodes(delta, 0, 1, 0);
    ghost var filled := delta.View();
    var published := Publish(generation, 0, 0, 0, delta);
    assert filled.nodes[PERSON].Data() == delta.View().nodes[PERSON].Data();
    assert SameEdges(filled.edges[KNOWS], delta.View().edges[KNOWS]);
    root := published.value;
  }
}
