/** Immutable snapshots: publishing a delta as a root or as a branch, and lookups through the layers. */
module Snapshots {
  import opened Common
  import opened Values
  import opened NodeTables
  import opened AdjacencyStores
  import opened DeltaStores
  import opened FlatGraphs

  const NOT_FOUND: GraphError := GraphError(IdNotFound, "")
  const FOREIGN: GraphError := GraphError(WorldlineMismatch, "node belongs to another worldline")
  const INACTIVE: GraphError := GraphError(IdNotFound, "node is not active in this snapshot")

  /** A layer: its data can no longer change, so a snapshot is a value. */
  datatype Snapshot = Snapshot(
    schema: Schema, generation: Id64, worldline: WorldlineId, validAt: Timestamp, knownAt: Timestamp,
    data: GraphTable, parent: Option<Snapshot>)
  {
    /** What publishing establishes for every layer of the chain. */
    ghost predicate Valid() {
      && data.Valid(schema) && data.Ready()
      && (parent.Some? ==>
            parent.value.Valid() && parent.value.schema == schema && BasesMatch(parent.value.data, data))
    }

    function At(): Coordinates {
      Coordinates(worldline, validAt, knownAt)
    }

    ghost predicate HasTag(tag: Tag) {
      tag in schema.nodeProperties
    }

    ghost predicate HasEdge(e: EdgeType) {
      e in schema.edgeProperties
    }

    lemma Unfold(tag: Tag)
      requires Valid() && HasTag(tag)
      ensures tag in data.nodes && data.nodes[tag].Valid() && data.nodes[tag].indicesReady
      ensures data.nodes[tag].properties == schema.nodeProperties[tag]
      ensures data.nodes[tag].columns.Keys == KeysOf(schema.nodeProperties[tag])
      ensures parent.Some? ==>
        && parent.value.Valid() && parent.value.schema == schema
        && parent.value.HasTag(tag) && tag in parent.value.data.nodes
        && data.nodes[tag].idBase == parent.value.data.nodes[tag].Extent()
    {
      hide NodeTable.Valid, EdgeTable.Valid, GraphTable.EdgesAttached, Schema.WellFormed;
      TableKeys(data.nodes[tag]);
    }

    lemma UnfoldEdge(e: EdgeType)
      requires Valid() && HasEdge(e)
      ensures e in data.edges && data.edges[e].Valid() && data.edges[e].statisticsReady
      ensures HasTag(e.source) && HasTag(e.target) && e.source in data.nodes && e.target in data.nodes
      ensures Attached(data.edges[e], data.nodes[e.source], data.nodes[e.target])
      ensures parent.Some? ==>
        && parent.value.Valid() && parent.value.schema == schema
        && parent.value.HasEdge(e) && e in parent.value.data.edges
        && data.edges[e].idBase == parent.value.data.edges[e].Extent()
    {
      hide NodeTable.Valid, EdgeTable.Valid, Attached;
    }

    // ---- The flattened chain ----

    ghost function Rows(tag: Tag): seq<FlatRow>
      requires Valid() && HasTag(tag)
    {
      Unfold(tag);
      (if parent.Some? then parent.value.Rows(tag) else []) + LocalRows(data.nodes[tag], At())
    }

    ghost function Edges(e: EdgeType): seq<FlatEdge>
      requires Valid() && HasEdge(e)
    {
      UnfoldEdge(e);
      (if parent.Some? then parent.value.Edges(e) else []) + LocalEdges(data.edges[e])
    }

    ghost function Flatten(): Flat
      requires Valid()
    {
      Flat(At(), map tag | tag in schema.nodeProperties :: Rows(tag), map e | e in schema.edgeProperties :: Edges(e))
    }

    /** Where the identifiers of a node type start: zero unless a branch delta was published as a root. */
    ghost function RowBase(tag: Tag): nat
      requires Valid() && HasTag(tag)
    {
      Unfold(tag);
      if parent.Some? then parent.value.RowBase(tag) else data.nodes[tag].idBase
    }

    ghost function EdgeBaseOf(e: EdgeType): nat
      requires Valid() && HasEdge(e)
    {
      UnfoldEdge(e);
      if parent.Some? then parent.value.EdgeBaseOf(e) else data.edges[e].idBase
    }

    // ---- Lookups ----

    function CheckVisibility(tag: Tag, id: NodeId): Result<()>
      requires Valid() && HasTag(tag)
    {
      Unfold(tag);
      var nodes := data.nodes[tag];
      if !nodes.Contains(id) then
        if parent.Some? then parent.value.CheckVisibility(tag, id) else Err(NOT_FOUND)
      else if nodes.WorldlineOf(id) != worldline then Err(FOREIGN)
      else if !nodes.valids[id - nodes.idBase].Contains(validAt)
           || !nodes.transactions[id - nodes.idBase].Contains(knownAt) then Err(INACTIVE)
      else Ok(())
    }

    function Contains(tag: Tag, id: NodeId): Result<bool>
      requires Valid() && HasTag(tag)
    {
      match CheckVisibility(tag, id)
      case Ok(_) => Ok(true)
      case Err(e) => if e.code == IdNotFound || e.code == WorldlineMismatch then Ok(false) else Err(e)
    }

    function Property(tag: Tag, key: Key, id: NodeId): Result<Value>
      requires Valid() && HasTag(tag) && key in KeysOf(schema.nodeProperties[tag])
    {
      Unfold(tag);
      match CheckVisibility(tag, id)
      case Err(e) => Err(e)
      case Ok(_) =>
        if data.nodes[tag].Contains(id) then data.nodes[tag].ReadProperty(key, id)
        else parent.value.Property(tag, key, id)
    }

    function EdgeTarget(e: EdgeType, edge: EdgeId): Result<NodeId>
      requires Valid() && HasEdge(e)
    {
      UnfoldEdge(e);
      if data.edges[e].Contains(edge) then data.edges[e].Target(edge)
      else if parent.Some? then parent.value.EdgeTarget(e, edge)
      else Err(NOT_FOUND)
    }
  }

  lemma TableKeys(t: NodeTable)
    requires t.Valid()
    ensures t.columns.Keys == KeysOf(t.properties)
  {
  }

  function LocalRow(t: NodeTable, at: Coordinates, row: nat): FlatRow
    requires t.Valid() && row < t.Size()
  {
    assert forall key :: key in t.columns ==> |t.columns[key]| == t.Size() by {
      forall key | key in t.columns ensures |t.columns[key]| == t.Size() {
        var p :| p in t.properties && p.key == key;
      }
    }
    FlatRow(t.idBase + row, t.worldlines[row], t.valids[row], t.transactions[row], at,
            map key | key in t.columns :: t.columns[key][row])
  }

  ghost function LocalRows(t: NodeTable, at: Coordinates): seq<FlatRow>
    requires t.Valid()
  {
    seq(t.Size(), row requires 0 <= row < t.Size() => LocalRow(t, at, row))
  }

  ghost function LocalEdges(t: EdgeTable): seq<FlatEdge>
    requires t.Linked()
  {
    seq(t.size, row requires 0 <= row < t.size => FlatEdge(t.idBase + row, t.sources[row], t.targets[row]))
  }

  // ---- Layers partition the identifiers ----

  lemma FlattenAt(g: Snapshot, tag: Tag)
    requires g.Valid() && g.HasTag(tag)
    ensures RowsOfTag(g.Flatten(), tag) == g.Rows(tag)
  {
  }

  lemma FlattenEdges(g: Snapshot, e: EdgeType)
    requires g.Valid() && g.HasEdge(e)
    ensures EdgesOfType(g.Flatten(), e) == g.Edges(e)
    ensures g.HasTag(e.source) && g.HasTag(e.target)
  {
    g.UnfoldEdge(e);
  }

  lemma {:induction false} RowsPartition(g: Snapshot, tag: Tag)
    requires g.Valid() && g.HasTag(tag)
    ensures RowsFrom(g.Rows(tag), g.RowBase(tag))
    ensures g.RowBase(tag) + |g.Rows(tag)| == g.data.nodes[tag].Extent()
    ensures |g.Rows(tag)| > 0 ==> g.data.nodes[tag].Extent() <= INVALID_32
  {
    hide GraphTable.Valid, GraphTable.Ready, NodeTable.IndicesCurrent, BasesMatch;
    g.Unfold(tag);
    if g.parent.None? {
    } else {
      RowsPartition(g.parent.value, tag);
    }
  }

  lemma {:induction false} EdgesPartition(g: Snapshot, e: EdgeType)
    requires g.Valid() && g.HasEdge(e)
    ensures EdgesFrom(g.Edges(e), g.EdgeBaseOf(e))
    ensures g.EdgeBaseOf(e) + |g.Edges(e)| == g.data.edges[e].Extent()
  {
    hide GraphTable.Valid, GraphTable.Ready, BasesMatch;
    g.UnfoldEdge(e);
    if g.parent.None? {
    } else {
      EdgesPartition(g.parent.value, e);
    }
  }

  /** A child splits into its parent's rows and its own, and lookups go to the part that owns the identifier. */
  lemma RowsOfBranch(g: Snapshot, tag: Tag, id: NodeId)
    requires g.Valid() && g.HasTag(tag) && g.parent.Some?
    ensures g.parent.value.Valid() && g.parent.value.HasTag(tag) && tag in g.data.nodes && g.data.nodes[tag].Valid()
    ensures FindRow(g.Rows(tag), id) ==
      if id < g.data.nodes[tag].idBase then FindRow(g.parent.value.Rows(tag), id)
      else FindRow(LocalRows(g.data.nodes[tag], g.At()), id)
  {
    hide GraphTable.Valid, GraphTable.Ready, NodeTable.IndicesCurrent, BasesMatch;
    g.Unfold(tag);
    RowsPartition(g.parent.value, tag);
    FindRowBelow(g.parent.value.Rows(tag), LocalRows(g.data.nodes[tag], g.At()), g.RowBase(tag), id);
  }

  lemma LocalLookup(t: NodeTable, at: Coordinates, id: NodeId)
    requires t.Valid()
    ensures FindRow(LocalRows(t, at), id) == if t.Contains(id) then Some(LocalRow(t, at, id - t.idBase)) else None
  {
    hide NodeTable.IndicesCurrent;
    FindRowAt(LocalRows(t, at), t.idBase, id);
  }

  /** The layered visibility check agrees with a lookup in the flattened chain. */
  lemma {:induction false} VisibilityIsFlat(g: Snapshot, tag: Tag, id: NodeId)
    requires g.Valid() && g.HasTag(tag)
    ensures g.CheckVisibility(tag, id).Ok? <==> IsVisible(g.Rows(tag), id)
    ensures g.CheckVisibility(tag, id).Err? ==> g.CheckVisibility(tag, id).error in {NOT_FOUND, FOREIGN, INACTIVE}
    ensures g.Contains(tag, id) == Ok(IsVisible(g.Rows(tag), id))
  {
    hide GraphTable.Valid, GraphTable.Ready, NodeTable.Valid, BasesMatch;
    g.Unfold(tag);
    var t := g.data.nodes[tag];
    LocalLookup(t, g.At(), id);
    if g.parent.Some? {
      RowsOfBranch(g, tag, id);
      RowsPartition(g.parent.value, tag);
      FindRowAt(g.parent.value.Rows(tag), g.RowBase(tag), id);
      VisibilityIsFlat(g.parent.value, tag, id);
    } else {
      assert g.Rows(tag) == LocalRows(t, g.At());
    }
  }

  /** Why an identifier cannot be seen, judged by the coordinates of the layer that owns its row. */
  lemma {:induction false} VisibilityExactly(g: Snapshot, tag: Tag, id: NodeId)
    requires g.Valid() && g.HasTag(tag)
    ensures g.CheckVisibility(tag, id) == match FindRow(g.Rows(tag), id)
      case None => Err(NOT_FOUND)
      case Some(row) =>
        if row.worldline != row.owner.worldline then Err(FOREIGN)
        else if && row.valid.from <= row.owner.validAt < row.valid.to
                && row.transaction.from <= row.owner.knownAt < row.transaction.to then Ok(())
        else Err(INACTIVE)
  {
    hide GraphTable.Valid, GraphTable.Ready, NodeTable.Valid, BasesMatch;
    g.Unfold(tag);
    LocalLookup(g.data.nodes[tag], g.At(), id);
    if g.parent.None? {
      assert g.Rows(tag) == LocalRows(g.data.nodes[tag], g.At());
    } else {
      RowsOfBranch(g, tag, id);
      RowsPartition(g.parent.value, tag);
      FindRowAt(g.parent.value.Rows(tag), g.RowBase(tag), id);
      VisibilityExactly(g.parent.value, tag, id);
    }
  }

  /** A layer's own rows are judged at its own coordinates. */
  lemma OwnRowVisibility(g: Snapshot, tag: Tag, id: NodeId)
    requires g.Valid() && g.HasTag(tag)
    ensures tag in g.data.nodes && g.data.nodes[tag].Valid()
    ensures var t := g.data.nodes[tag];
      t.idBase <= id < t.Extent() ==>
        var row := id - t.idBase;
        (g.CheckVisibility(tag, id) == Ok(()) <==>
          && t.worldlines[row] == g.worldline
          && t.valids[row].from <= g.validAt < t.valids[row].to
          && t.transactions[row].from <= g.knownAt < t.transactions[row].to)
  {
    hide GraphTable.Valid, GraphTable.Ready, NodeTable.IndicesCurrent, BasesMatch;
    g.Unfold(tag);
  }

  /** Where a row is visible its properties are those of its flat row; elsewhere the lookup fails the same way. */
  lemma {:induction false} PropertyIsFlat(g: Snapshot, tag: Tag, key: Key, id: NodeId)
    requires g.Valid() && g.HasTag(tag) && key in KeysOf(g.schema.nodeProperties[tag])
    ensures g.Property(tag, key, id) ==
      match g.CheckVisibility(tag, id) case Ok(_) => Ok(ValueOf(g.Rows(tag), key, id)) case Err(e) => Err(e)
  {
    hide GraphTable.Valid, GraphTable.Ready, NodeTable.Valid, BasesMatch;
    g.Unfold(tag);
    var t := g.data.nodes[tag];
    LocalLookup(t, g.At(), id);
    if g.parent.Some? {
      RowsOfBranch(g, tag, id);
      RowsPartition(g.parent.value, tag);
      PropertyIsFlat(g.parent.value, tag, key, id);
      AbsentAbove(g.parent.value, tag, id);
    } else {
      assert g.Rows(tag) == LocalRows(t, g.At());
    }
  }

  /** A branch is a conservative extension: older identifiers keep visibility and values, newer ones are new. */
  lemma BranchIsConservative(g: Snapshot, tag: Tag, key: Key, id: NodeId)
    requires g.Valid() && g.HasTag(tag) && key in KeysOf(g.schema.nodeProperties[tag]) && g.parent.Some?
    ensures g.parent.value.Valid() && g.parent.value.schema == g.schema && tag in g.parent.value.data.nodes
    ensures
      var p := g.parent.value;
      if id < p.data.nodes[tag].Extent()
      then g.CheckVisibility(tag, id) == p.CheckVisibility(tag, id) &&
           g.Property(tag, key, id) == p.Property(tag, key, id)
      else p.CheckVisibility(tag, id) == Err(NOT_FOUND) && p.Property(tag, key, id) == Err(NOT_FOUND)
  {
    hide GraphTable.Valid, GraphTable.Ready, NodeTable.IndicesCurrent, BasesMatch;
    g.Unfold(tag);
    AbsentAbove(g.parent.value, tag, id);
  }

  lemma {:induction false} AbsentAbove(g: Snapshot, tag: Tag, id: NodeId)
    requires g.Valid() && g.HasTag(tag)
    ensures tag in g.data.nodes
    ensures id >= g.data.nodes[tag].Extent() ==> g.CheckVisibility(tag, id) == Err(NOT_FOUND)
  {
    hide GraphTable.Valid, GraphTable.Ready, NodeTable.IndicesCurrent, BasesMatch;
    g.Unfold(tag);
    if g.parent.None? {
    } else {
      AbsentAbove(g.parent.value, tag, id);
    }
  }

  /** Edges of a layer and of everything below it end below the layer's extents. */
  lemma {:induction false} EdgesBelowExtent(g: Snapshot, e: EdgeType)
    requires g.Valid() && g.HasEdge(e)
    ensures e.source in g.data.nodes && e.target in g.data.nodes
    ensures forall edge :: edge in g.Edges(e) ==>
      edge.source < g.data.nodes[e.source].Extent() && edge.target < g.data.nodes[e.target].Extent()
  {
    hide GraphTable.Valid, GraphTable.Ready, NodeTable.IndicesCurrent, BasesMatch;
    g.UnfoldEdge(e);
    g.Unfold(e.source);
    g.Unfold(e.target);
    if g.parent.None? {
    } else {
      EdgesBelowExtent(g.parent.value, e);
    }
    var t := g.data.edges[e];
    forall edge | edge in LocalEdges(t)
      ensures edge.source < g.data.nodes[e.source].Extent() && edge.target < g.data.nodes[e.target].Extent()
    {
      var i :| 0 <= i < t.size && LocalEdges(t)[i] == edge;
      assert EndpointsFit(t.sources[i], t.targets[i], g.data.nodes[e.source], g.data.nodes[e.target]);
    }
  }

  lemma LocalTarget(t: EdgeTable, edge: EdgeId)
    requires t.Linked()
    ensures |t.targets| == t.size == |LocalEdges(t)|
    ensures t.Contains(edge) <==> t.idBase <= edge < t.Extent()
    ensures t.Contains(edge) ==> t.Target(edge) == Ok(LocalEdges(t)[edge - t.idBase].target)
  {
    hide Inverts;
  }

  lemma {:induction false} EdgeTargetIsFlat(g: Snapshot, e: EdgeType, edge: EdgeId)
    requires g.Valid() && g.HasEdge(e)
    ensures g.EdgeTarget(e, edge) ==
      if g.EdgeBaseOf(e) <= edge < g.EdgeBaseOf(e) + |g.Edges(e)| then Ok(g.Edges(e)[edge - g.EdgeBaseOf(e)].target)
      else Err(NOT_FOUND)
  {
    hide Snapshot.Valid, TypedColumns, NodeTable.Valid, Attached, EdgeTable.Linked, EdgeTable.StatisticsCurrent;
    hide LocalEdges, EdgeTable.Contains, EdgeTable.Target;
    g.UnfoldEdge(e);
    LocalTarget(g.data.edges[e], edge);
    if g.parent.None? {
    } else {
      EdgesPartition(g.parent.value, e);
      EdgeTargetIsFlat(g.parent.value, e, edge);
    }
  }

  // ---- Publishing ----

  const NO_GENERATION: GraphError := GraphError(InvalidId, "snapshot generation ID must be valid")
  const NO_WORLDLINE: GraphError := GraphError(InvalidId, "snapshot worldline ID must be valid")
  const SAME_WORLDLINE: GraphError := GraphError(Conflict, "branch must use a distinct worldline ID")
  const WRONG_BASE: GraphError := GraphError(Conflict, "branch delta was not based on the parent snapshot")

  /** Publish a delta as a root: its rows as they are, every index built, every layer invariant established. */
  method Publish(generation: Id64, worldline: WorldlineId, validAt: Timestamp, knownAt: Timestamp, delta: DeltaStore)
    returns (r: Result<Snapshot>)
    requires delta.Valid()
    modifies delta
    ensures delta.Valid() && SameRows(old(delta.View()), delta.View())
    ensures r ==
      if generation == INVALID_64 then Err(NO_GENERATION)
      else if worldline == INVALID_64 then Err(NO_WORLDLINE)
      else Ok(Snapshot(delta.schema, generation, worldline, validAt, knownAt, delta.View(), None))
    ensures r.Ok? ==> r.value.Valid()
  {
    hide GraphTable.Valid, SameRows;
    SameRowsReflexive(delta.View());
    if generation == INVALID_64 {
      return Err(NO_GENERATION);
    }
    if worldline == INVALID_64 {
      return Err(NO_WORLDLINE);
    }
    delta.BuildIndices();
    return Ok(Snapshot(delta.schema, generation, worldline, validAt, knownAt, delta.View(), None));
  }

  method MakeBranchDelta(g: Snapshot) returns (delta: DeltaStore)
    requires g.Valid()
    ensures fresh(delta) && delta.Valid() && delta.schema == g.schema
    ensures delta.View() == EmptyGraph(g.schema, Some(g.data)) && BasesMatch(g.data, delta.View())
  {
    BranchBasesMatch(g);
    delta := new DeltaStore(g.schema, Some(g.data));
  }

  lemma BranchBasesMatch(g: Snapshot)
    requires g.Valid()
    ensures g.schema.WellFormed() && BasesMatch(g.data, EmptyGraph(g.schema, Some(g.data)))
  {
    hide NodeTable.Valid, EdgeTable.Valid, GraphTable.EdgesAttached;
  }

  /** Publish a delta on top of a parent. Only identifier bases tie the delta to that parent. */
  method PublishBranch(parent: Snapshot, generation: Id64, worldline: WorldlineId,
                       validAt: Timestamp, knownAt: Timestamp, delta: DeltaStore)
    returns (r: Result<Snapshot>)
    requires parent.Valid() && delta.Valid() && delta.schema == parent.schema
    modifies delta
    ensures delta.Valid() && SameRows(old(delta.View()), delta.View())
    ensures r ==
      if generation == INVALID_64 || worldline == INVALID_64 then Err(GraphError(InvalidId, ""))
      else if worldline == parent.worldline then Err(SAME_WORLDLINE)
      else if !BasesMatch(parent.data, old(delta.View())) then Err(WRONG_BASE)
      else Ok(Snapshot(delta.schema, generation, worldline, validAt, knownAt, delta.View(), Some(parent)))
    ensures r.Ok? ==> r.value.Valid()
  {
    hide GraphTable.Valid, BasesMatch, SameRows;
    SameRowsReflexive(delta.View());
    if generation == INVALID_64 || worldline == INVALID_64 {
      return Err(GraphError(InvalidId, ""));
    }
    if worldline == parent.worldline {
      return Err(SAME_WORLDLINE);
    }
    if !BasesMatch(parent.data, delta.View()) {
      return Err(WRONG_BASE);
    }
    ghost var before := delta.View();
    delta.BuildIndices();
    SameRowsBases(parent.data, before, delta.View());
    return Ok(Snapshot(delta.schema, generation, worldline, validAt, knownAt, delta.View(), Some(parent)));
  }

  lemma SameRowsReflexive(g: GraphTable)
    ensures SameRows(g, g)
  {
  }

  lemma SameRowsBases(below: GraphTable, before: GraphTable, after: GraphTable)
    requires BasesMatch(below, before) && SameRows(before, after)
    ensures BasesMatch(below, after)
  {
    forall tag | tag in after.nodes ensures after.nodes[tag].idBase == before.nodes[tag].idBase {
      assert after.nodes[tag].Data() == before.nodes[tag].Data();
    }
    forall e | e in after.edges ensures after.edges[e].idBase == before.edges[e].idBase {
      assert SameEdges(before.edges[e], after.edges[e]);
    }
  }
}
