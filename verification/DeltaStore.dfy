/** The whole delta: one store per node type and per relation, filled before a snapshot is published. */
module DeltaStores {
  import opened Common
  import opened Values
  import opened NodeTables
  import opened NodeStores
  import opened AdjacencyStores

  datatype Schema = Schema(
    tags: seq<Tag>, nodeProperties: map<Tag, seq<PropertySpec>>,
    edgeTypes: seq<EdgeType>, edgeProperties: map<EdgeType, seq<PropertySpec>>)
  {
    ghost predicate WellFormed() {
      && (forall tag {:trigger tag in tags} :: tag in tags <==> tag in nodeProperties)
      && (forall i, j :: 0 <= i < j < |tags| ==> tags[i] != tags[j])
      && (forall tag :: tag in nodeProperties ==> UniqueKeys(nodeProperties[tag]))
      && (forall e {:trigger e in edgeTypes} :: e in edgeTypes <==> e in edgeProperties)
      && (forall i, j :: 0 <= i < j < |edgeTypes| ==> edgeTypes[i] != edgeTypes[j])
      && (forall e :: e in edgeProperties ==>
            UniqueKeys(edgeProperties[e]) && e.source in nodeProperties && e.target in nodeProperties)
    }
  }

  const NO_ENDPOINT: GraphError := GraphError(IdNotFound, "edge endpoint does not exist")
  const OTHER_WORLDLINE: GraphError := GraphError(WorldlineMismatch, "edge endpoints belong to different worldlines")

  /** A view of a delta store: what a const reference to it shows. */
  datatype GraphTable = GraphTable(nodes: map<Tag, NodeTable>, edges: map<EdgeType, EdgeTable>) {

    ghost predicate Fits(schema: Schema) {
      && schema.WellFormed()
      && nodes.Keys == schema.nodeProperties.Keys && edges.Keys == schema.edgeProperties.Keys
      && (forall tag :: tag in nodes ==> nodes[tag].properties == schema.nodeProperties[tag])
      && (forall e :: e in edges ==> edges[e].properties == schema.edgeProperties[e])
    }

    ghost predicate TablesValid() {
      && (forall tag {:trigger nodes[tag].Valid()} :: tag in nodes ==> nodes[tag].Valid())
      && (forall e {:trigger edges[e].Valid()} :: e in edges ==> edges[e].Valid())
    }

    /** Endpoints exist below the extent, and two local endpoints are rows of one worldline. */
    ghost predicate EdgesAttached() {
      forall e :: e in edges ==>
        e.source in nodes && e.target in nodes && Attached(edges[e], nodes[e.source], nodes[e.target])
    }

    ghost predicate Valid(schema: Schema) {
      Fits(schema) && TablesValid() && EdgesAttached()
    }

    ghost predicate Ready() {
      && (forall tag :: tag in nodes ==> nodes[tag].indicesReady)
      && (forall e :: e in edges ==> edges[e].statisticsReady)
    }

    predicate EndpointExists(tag: Tag, id: NodeId)
      requires tag in nodes
    {
      id != INVALID_32 && (id < nodes[tag].idBase || nodes[tag].Contains(id))
    }

    /** The guards of `append_edge`, in its order. */
    function EdgeGuard(e: EdgeType, source: NodeId, target: NodeId): Option<GraphError>
      requires e.source in nodes && e.target in nodes
    {
      if !EndpointExists(e.source, source) || !EndpointExists(e.target, target) then Some(NO_ENDPOINT)
      else if nodes[e.source].Contains(source) && nodes[e.target].Contains(target)
           && nodes[e.source].WorldlineOf(source) != nodes[e.target].WorldlineOf(target) then Some(OTHER_WORLDLINE)
      else None
    }
  }

  ghost predicate Attached(edges: EdgeTable, sources: NodeTable, targets: NodeTable)  {
    && |edges.sources| == |edges.targets|
    && forall i :: 0 <= i < |edges.sources| ==> EndpointsFit(edges.sources[i], edges.targets[i], sources, targets)
  }

  predicate EndpointsFit(source: NodeId, target: NodeId, sources: NodeTable, targets: NodeTable) {
    && source < sources.Extent() && source != INVALID_32
    && target < targets.Extent() && target != INVALID_32
    && (sources.Contains(source) && targets.Contains(target) ==>
          sources.WorldlineOf(source) == targets.WorldlineOf(target))
  }

  /** `after` has the rows of `before` and possibly more. */
  ghost predicate Grows(before: NodeTable, after: NodeTable) {
    after.idBase == before.idBase && before.worldlines <= after.worldlines
  }

  lemma GrowthKeepsAttached(edges: EdgeTable, s: NodeTable, t: NodeTable, s': NodeTable, t': NodeTable)
    requires Attached(edges, s, t) && Grows(s, s') && Grows(t, t')
    ensures Attached(edges, s', t')
  {
    forall i | 0 <= i < |edges.sources|
      ensures EndpointsFit(edges.sources[i], edges.targets[i], s', t')
    {
      assert EndpointsFit(edges.sources[i], edges.targets[i], s, t);
    }
  }

  function NodeBase(parent: Option<GraphTable>, tag: Tag): nat {
    if parent.Some? && tag in parent.value.nodes then parent.value.nodes[tag].Extent() else 0
  }

  function EdgeBase(parent: Option<GraphTable>, e: EdgeType): nat {
    if parent.Some? && e in parent.value.edges then parent.value.edges[e].Extent() else 0
  }

  /** No rows and no edges yet; identifiers will start at the parent's extents. */
  function EmptyGraph(schema: Schema, parent: Option<GraphTable>): GraphTable {
    GraphTable(
      map tag | tag in schema.nodeProperties :: EmptyNodes(schema.nodeProperties[tag], NodeBase(parent, tag)),
      map e | e in schema.edgeProperties :: EmptyEdges(schema.edgeProperties[e], EdgeBase(parent, e)))
  }

  lemma EmptyTablesValid(properties: seq<PropertySpec>, base: nat)
    requires UniqueKeys(properties)
    ensures EmptyNodes(properties, base).Valid() && EmptyEdges(properties, base).Valid()
  {
  }

  lemma EmptyAttached(schema: Schema, parent: Option<GraphTable>)
    requires schema.WellFormed()
    ensures EmptyGraph(schema, parent).EdgesAttached()
  {
  }

  lemma EmptyFits(schema: Schema, parent: Option<GraphTable>)
    requires schema.WellFormed()
    ensures EmptyGraph(schema, parent).Fits(schema)
  {
  }

  lemma EmptyValid(schema: Schema, parent: Option<GraphTable>)
    requires schema.WellFormed()
    ensures EmptyGraph(schema, parent).Valid(schema)
  {
    hide NodeTable.Valid, EdgeTable.Valid, UniqueKeys, GraphTable.EdgesAttached, GraphTable.Fits;
    var g := EmptyGraph(schema, parent);
    EmptyAttached(schema, parent);
    EmptyFits(schema, parent);
    forall tag | tag in g.nodes
      ensures g.nodes[tag].Valid()
    {
      EmptyTablesValid(schema.nodeProperties[tag], NodeBase(parent, tag));
    }
    forall e | e in g.edges
      ensures g.edges[e].Valid()
    {
      EmptyTablesValid(schema.edgeProperties[e], EdgeBase(parent, e));
    }
  }

  /** Each identifier range of `above` starts where that of `below` ends. */
  predicate BasesMatch(below: GraphTable, above: GraphTable) {
    && (forall tag | tag in above.nodes ::
          tag in below.nodes && above.nodes[tag].idBase == below.nodes[tag].Extent())
    && (forall e | e in above.edges ::
          e in below.edges && above.edges[e].idBase == below.edges[e].Extent())
  }

  /** Appending to a node store keeps the delta on its parent, whatever the outcome. */
  lemma RowKeepsBases(below: GraphTable, g: GraphTable, tag: Tag, after: NodeTable, w: WorldlineId, valid: Interval,
                      transaction: Interval, source: Provenance, values: seq<Value>, budget: nat,
                      outcome: Outcome<NodeId>)
    requires BasesMatch(below, g) && tag in g.nodes && g.nodes[tag].Valid() && |values| == |g.nodes[tag].properties|
    requires RowOutcome(g.nodes[tag], after, w, valid, transaction, source, values, budget, outcome)
    ensures BasesMatch(below, g.(nodes := g.nodes[tag := after]))
  {
    hide NodeTable.IndicesCurrent;
  }

  /** So does appending to an edge store. */
  lemma EdgeKeepsBases(below: GraphTable, g: GraphTable, e: EdgeType, after: EdgeTable, source: NodeId, target: NodeId,
                       values: seq<Value>, budget: nat, outcome: Outcome<EdgeId>)
    requires BasesMatch(below, g) && e in g.edges && g.edges[e].Valid() && |values| == |g.edges[e].properties|
    requires AppendOutcome(g.edges[e], after, source, target, values, budget, outcome)
    ensures BasesMatch(below, g.(edges := g.edges[e := after]))
  {
    hide EdgeTable.Linked, EdgeTable.StatisticsCurrent;
    ValidKeys(g.edges[e].properties, g.edges[e].columns, g.edges[e].size);
  }

  /** The guard refuses exactly the edges that would not fit, and names the missing endpoint before the worldline. */
  lemma EdgeGuardExactly(g: GraphTable, e: EdgeType, source: NodeId, target: NodeId)
    requires e.source in g.nodes && e.target in g.nodes
    ensures var (s, t) := (g.nodes[e.source], g.nodes[e.target]);
      var exist := source < s.Extent() && source != INVALID_32 && target < t.Extent() && target != INVALID_32;
      var local := s.idBase <= source && t.idBase <= target;
      && (g.EdgeGuard(e, source, target).None? <==> EndpointsFit(source, target, s, t))
      && (g.EdgeGuard(e, source, target) == Some(NO_ENDPOINT) <==> !exist)
      && (g.EdgeGuard(e, source, target) == Some(OTHER_WORLDLINE) <==>
            exist && local && s.worldlines[source - s.idBase] != t.worldlines[target - t.idBase])
  {
  }

  /** What building indices and statistics leaves alone: every row and every edge. */
  ghost predicate SameRows(before: GraphTable, after: GraphTable) {
    && before.nodes.Keys == after.nodes.Keys && before.edges.Keys == after.edges.Keys
    && (forall tag :: tag in before.nodes ==> after.nodes[tag].Data() == before.nodes[tag].Data())
    && (forall e :: e in before.edges ==> SameEdges(before.edges[e], after.edges[e]))
  }

  /** The stores are embedded by value: a method takes one out, changes it, and puts it back. */
  class DeltaStore {
    const schema: Schema
    var nodes: map<Tag, NodeTable>
    var edges: map<EdgeType, EdgeTable>

    function View(): GraphTable
      reads this
    {
      GraphTable(nodes, edges)
    }

    ghost predicate Valid()
      reads this
    {
      View().Valid(schema)
    }

    /** An empty delta, for a root snapshot or based on the extents of a parent. */
    constructor (schema: Schema, parent: Option<GraphTable>)
      requires schema.WellFormed()
      ensures Valid() && this.schema == schema && View() == EmptyGraph(schema, parent)
    {
      this.schema := schema;
      nodes, edges := EmptyGraph(schema, parent).nodes, EmptyGraph(schema, parent).edges;
      new;
      EmptyValid(schema, parent);
    }

    /** Append a node row; the rest of the delta is untouched and the invariant is kept, even if it throws. */
    method AppendNode(tag: Tag, w: WorldlineId, valid: Interval, transaction: Interval, source: Provenance,
                      values: seq<Value>, budget: nat)
      returns (outcome: Outcome<NodeId>)
      requires Valid() && tag in nodes && TypedRow(schema.nodeProperties[tag], values)
      modifies this
      ensures Valid()
      ensures edges == old(edges) && nodes == old(nodes)[tag := nodes[tag]]
      ensures old(nodes)[tag].Valid()
      ensures RowOutcome(old(nodes)[tag], nodes[tag], w, valid, transaction, source, values, budget, outcome)
      ensures forall below :: BasesMatch(below, old(View())) ==> BasesMatch(below, View())
    {
      hide BasesMatch;
      hide NodeTable.IndicesCurrent, GraphTable.EdgesAttached, EdgeTable.Valid;
      var after;
      after, outcome := AppendTo(nodes[tag], w, valid, transaction, source, values, budget);
      RowOutcomeGrows(nodes[tag], after, w, valid, transaction, source, values, budget, outcome);
      NodesReplaced(View(), schema, tag, after);
      forall below | BasesMatch(below, View())
        ensures BasesMatch(below, View().(nodes := nodes[tag := after]))
      {
        RowKeepsBases(below, View(), tag, after, w, valid, transaction, source, values, budget, outcome);
      }
      nodes := nodes[tag := after];
    }

    /** Append an edge between existing endpoints, or say why not; a throwing push changes no lookup. */
    method AppendEdge(e: EdgeType, source: NodeId, target: NodeId, values: seq<Value>, budget: nat)
      returns (outcome: Outcome<EdgeId>)
      requires Valid() && e in edges && TypedRow(schema.edgeProperties[e], values)
      modifies this
      ensures Valid()
      ensures nodes == old(nodes) && edges == old(edges)[e := edges[e]] && old(edges)[e].Valid()
      ensures var guard := old(View()).EdgeGuard(e, source, target);
        if guard.Some? then outcome == Returned(Err(guard.value)) && edges[e] == old(edges)[e]
        else AppendOutcome(old(edges)[e], edges[e], source, target, values, budget, outcome)
      ensures forall below :: BasesMatch(below, old(View())) ==> BasesMatch(below, View())
    {
      hide BasesMatch;
      hide NodeTable.IndicesCurrent, Attached, EdgeTable.Linked, EdgeTable.StatisticsCurrent, AppendOutcome;
      hide Schema.WellFormed;
      assert nodes[e.source].Valid() && nodes[e.target].Valid() && edges[e].Valid();
      if !View().EndpointExists(e.source, source) || !View().EndpointExists(e.target, target) {
        return Returned(Err(NO_ENDPOINT));
      }
      if nodes[e.source].Contains(source) && nodes[e.target].Contains(target) {
        if nodes[e.source].WorldlineOf(source) != nodes[e.target].WorldlineOf(target) {
          return Returned(Err(OTHER_WORLDLINE));
        }
      }
      var after;
      after, outcome := AppendEdgeTo(edges[e], source, target, values, budget);
      ValidKeys(edges[e].properties, edges[e].columns, edges[e].size);
      EdgeAttached(edges[e], after, nodes[e.source], nodes[e.target], source, target, values, budget, outcome);
      EdgesReplaced(View(), schema, e, after);
      forall below | BasesMatch(below, View())
        ensures BasesMatch(below, View().(edges := edges[e := after]))
      {
        EdgeKeepsBases(below, View(), e, after, source, target, values, budget, outcome);
      }
      edges := edges[e := after];
    }

    /** Build every selection index and every degree statistic. */
    method BuildIndices()
      requires Valid()
      modifies this
      ensures Valid() && View().Ready() && SameRows(old(View()), View())
    {
      nodes := IndexedTables(schema.tags, nodes);
      edges := EdgesWithStatistics(schema.edgeTypes, edges);
      SameRowsValid(old(View()), View(), schema);
    }
  }

  method IndexedTables(tags: seq<Tag>, tables: map<Tag, NodeTable>) returns (after: map<Tag, NodeTable>)
    requires forall tag :: tag in tags <==> tag in tables
    requires forall tag :: tag in tables ==> tables[tag].Valid()
    ensures after.Keys == tables.Keys
    ensures forall tag :: tag in after ==>
      after[tag].Valid() && after[tag].indicesReady && after[tag].Data() == tables[tag].Data()
  {
    hide NodeTable.Valid;
    after := tables;
    for i := 0 to |tags|
      invariant after.Keys == tables.Keys
      invariant forall tag :: tag in after ==> after[tag].Valid() && after[tag].Data() == tables[tag].Data()
      invariant forall j :: 0 <= j < i ==> after[tags[j]].indicesReady
    {
      assert tags[i] in tags;
      var table := Indexed(after[tags[i]]);
      after := after[tags[i] := table];
    }
  }

  method EdgesWithStatistics(edgeTypes: seq<EdgeType>, tables: map<EdgeType, EdgeTable>)
    returns (after: map<EdgeType, EdgeTable>)
    requires forall e :: e in edgeTypes <==> e in tables
    requires forall e :: e in tables ==> tables[e].Valid()
    ensures after.Keys == tables.Keys
    ensures forall e :: e in after ==>
      after[e].Valid() && after[e].statisticsReady && SameEdges(tables[e], after[e])
  {
    hide EdgeTable.Valid;
    after := tables;
    for i := 0 to |edgeTypes|
      invariant after.Keys == tables.Keys
      invariant forall e :: e in after ==> after[e].Valid() && SameEdges(tables[e], after[e])
      invariant forall j :: 0 <= j < i ==> after[edgeTypes[j]].statisticsReady
    {
      assert edgeTypes[i] in edgeTypes;
      var table := WithStatistics(after[edgeTypes[i]]);
      after := after[edgeTypes[i] := table];
    }
  }

  lemma RowOutcomeGrows(before: NodeTable, after: NodeTable, w: WorldlineId, valid: Interval, transaction: Interval,
                        source: Provenance, values: seq<Value>, budget: nat, outcome: Outcome<NodeId>)
    requires before.Valid() && |values| == |before.properties|
    requires RowOutcome(before, after, w, valid, transaction, source, values, budget, outcome)
    ensures Grows(before, after) && after.properties == before.properties
  {
  }

  lemma NodesReplaced(g: GraphTable, schema: Schema, tag: Tag, table: NodeTable)
    requires g.Valid(schema) && tag in g.nodes && table.Valid()
    requires Grows(g.nodes[tag], table) && table.properties == g.nodes[tag].properties
    ensures g.(nodes := g.nodes[tag := table]).Valid(schema)
  {
    hide NodeTable.Valid, EdgeTable.Valid, GraphTable.EdgesAttached, Schema.WellFormed;
    NodesReplacedAttached(g, tag, table);
  }

  lemma NodesReplacedAttached(g: GraphTable, tag: Tag, table: NodeTable)
    requires g.EdgesAttached() && tag in g.nodes && Grows(g.nodes[tag], table)
    ensures g.(nodes := g.nodes[tag := table]).EdgesAttached()
  {
    hide Attached, Grows;
    var after := g.(nodes := g.nodes[tag := table]);
    GrowsReflexive();
    forall e | e in after.edges
      ensures e.source in after.nodes && e.target in after.nodes
      ensures Attached(after.edges[e], after.nodes[e.source], after.nodes[e.target])
    {
      GrowthKeepsAttached(g.edges[e], g.nodes[e.source], g.nodes[e.target],
                          after.nodes[e.source], after.nodes[e.target]);
    }
  }

  lemma GrowsReflexive()
    ensures forall t: NodeTable :: Grows(t, t)
  {
  }

  lemma EdgesReplaced(g: GraphTable, schema: Schema, e: EdgeType, table: EdgeTable)
    requires g.Valid(schema) && e in g.edges && table.Valid() && table.properties == g.edges[e].properties
    requires e.source in g.nodes && e.target in g.nodes && Attached(table, g.nodes[e.source], g.nodes[e.target])
    ensures g.(edges := g.edges[e := table]).Valid(schema)
  {
    hide NodeTable.Valid, EdgeTable.Valid, GraphTable.EdgesAttached, Schema.WellFormed;
    EdgesReplacedAttached(g, e, table);
  }

  lemma EdgesReplacedAttached(g: GraphTable, e: EdgeType, table: EdgeTable)
    requires g.EdgesAttached() && e in g.edges
    requires Attached(table, g.nodes[e.source], g.nodes[e.target])
    ensures g.(edges := g.edges[e := table]).EdgesAttached()
  {
    hide Attached;
  }

  lemma EdgeAttached(before: EdgeTable, after: EdgeTable, s: NodeTable, t: NodeTable, source: NodeId, target: NodeId,
                     values: seq<Value>, budget: nat, outcome: Outcome<EdgeId>)
    requires Attached(before, s, t) && EndpointsFit(source, target, s, t)
    requires |values| == |before.properties| && KeysOf(before.properties) <= before.columns.Keys
    requires AppendOutcome(before, after, source, target, values, budget, outcome)
    ensures Attached(after, s, t) && after.properties == before.properties
  {
    forall i | 0 <= i < |after.sources|
      ensures |after.sources| == |after.targets| && EndpointsFit(after.sources[i], after.targets[i], s, t)
    {
      assert i < |before.sources| ==> EndpointsFit(before.sources[i], before.targets[i], s, t);
    }
  }

  lemma SameRowsValid(before: GraphTable, after: GraphTable, schema: Schema)
    requires before.Valid(schema) && SameRows(before, after) && after.TablesValid()
    ensures after.Valid(schema)
  {
    hide NodeTable.Valid, EdgeTable.Valid, GraphTable.EdgesAttached, Schema.WellFormed;
    SameRowsAttached(before, after);
    forall tag | tag in after.nodes ensures after.nodes[tag].properties == before.nodes[tag].properties {
      assert after.nodes[tag].Data() == before.nodes[tag].Data();
    }
    forall e | e in after.edges ensures after.edges[e].properties == before.edges[e].properties {
      assert SameEdges(before.edges[e], after.edges[e]);
    }
  }

  lemma SameRowsAttached(before: GraphTable, after: GraphTable)
    requires before.EdgesAttached() && SameRows(before, after)
    ensures after.EdgesAttached()
  {
    forall e | e in after.edges
      ensures e.source in after.nodes && e.target in after.nodes
      ensures Attached(after.edges[e], after.nodes[e.source], after.nodes[e.target])
    {
      assert SameEdges(before.edges[e], after.edges[e]);
      GrowthKeepsAttached(after.edges[e], before.nodes[e.source], before.nodes[e.target],
                          after.nodes[e.source], after.nodes[e.target]);
    }
  }
}
