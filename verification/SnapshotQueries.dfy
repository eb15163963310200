/** Candidate lists, adjacency and estimates over the layers, each tied to the flattened chain. */
module SnapshotQueries {
  import opened Common
  import opened Sequences
  import opened Values
  import opened Histograms
  import opened NodeTables
  import opened AdjacencyStores
  import opened DeltaStores
  import opened FlatGraphs
  import opened Snapshots

  // ---- Node candidates ----

  lemma VisibleIdsAppend(a: seq<FlatRow>, b: seq<FlatRow>)
    ensures VisibleIds(a + b) == VisibleIds(a) + VisibleIds(b)
  {
    FilterAppend(a, b, Seen());
    MapAppend(Filter(a, Seen()), Filter(b, Seen()), RowId());
  }

  /** The temporal index of a layer and the scan of its flat rows list the same identifiers. */
  lemma {:induction false} LocalVisibleIds(t: NodeTable, at: Coordinates, n: nat)
    requires t.Valid() && n <= t.Size()
    ensures VisibleIds(LocalRows(t, at)[..n])
         == Filter(Ids(t.idBase, n), t.IsVisibleAt(at.worldline, at.validAt, at.knownAt))
  {
    hide NodeTable.IndicesCurrent, TypedColumns;
    if n == 0 {
    } else {
      LocalVisibleIds(t, at, n - 1);
      var rows := LocalRows(t, at);
      assert rows[..n] == rows[..n - 1] + [rows[n - 1]];
      VisibleIdsStep(rows[..n - 1], rows[n - 1]);
      assert Ids(t.idBase, n)[..n - 1] == Ids(t.idBase, n - 1);
    }
  }

  lemma LocalCandidates(t: NodeTable, at: Coordinates)
    requires t.Valid()
    ensures t.VisibleIds(at.worldline, at.validAt, at.knownAt) == VisibleIds(LocalRows(t, at))
  {
    LocalVisibleIds(t, at, t.Size());
    assert LocalRows(t, at)[..t.Size()] == LocalRows(t, at);
  }

  /** A branch's candidates are its parent's list followed by those of its own rows, strictly ascending. */
  lemma BranchCandidates(g: Snapshot, tag: Tag)
    requires g.Valid() && g.HasTag(tag) && g.parent.Some?
    ensures g.parent.value.Valid() && g.parent.value.HasTag(tag) && tag in g.data.nodes && g.data.nodes[tag].Valid()
    ensures VisibleIds(g.Rows(tag))
         == VisibleIds(g.parent.value.Rows(tag)) + g.data.nodes[tag].VisibleIds(g.worldline, g.validAt, g.knownAt)
    ensures Ascending(VisibleIds(g.Rows(tag)))
  {
    hide GraphTable.Valid, GraphTable.Ready, NodeTable.Valid, BasesMatch, VisibleIds, Ascending;
    g.Unfold(tag);
    LocalCandidates(g.data.nodes[tag], g.At());
    VisibleIdsAppend(g.parent.value.Rows(tag), LocalRows(g.data.nodes[tag], g.At()));
    RowsPartition(g, tag);
    VisibleIdsExactly(g.Rows(tag), g.RowBase(tag));
  }

  /** All visible nodes of a type: inherited ones first, then the layer's own. */
  method SourceCandidates(g: Snapshot, tag: Tag) returns (r: Result<seq<NodeId>>)
    requires g.Valid() && g.HasTag(tag)
    ensures r == Ok(VisibleIds(g.Rows(tag)))
  {
    hide GraphTable.Valid, GraphTable.Ready, NodeTable.Valid, BasesMatch;
    g.Unfold(tag);
    var candidates := [];
    if g.parent.Some? {
      var inherited := SourceCandidates(g.parent.value, tag);
      if inherited.Err? {
        return inherited;
      }
      candidates := inherited.value;
    }
    var local := g.data.nodes[tag].IndexedCandidates(g.worldline, g.validAt, g.knownAt);
    if local.Err? {
      return local;
    }
    LocalCandidates(g.data.nodes[tag], g.At());
    VisibleIdsAppend(if g.parent.Some? then g.parent.value.Rows(tag) else [], LocalRows(g.data.nodes[tag], g.At()));
    return Ok(candidates + local.value);
  }

  /** The visible nodes of a type whose property satisfies a comparison. */
  ghost function MatchingCandidates(rows: seq<FlatRow>, key: Key, op: Operator, value: Value): seq<NodeId> {
    Filter(VisibleIds(rows), Satisfies(rows, key, op, value))
  }

  /** Restricted to a layer's own identifiers: matching rows kept where visible are visible rows that match. */
  lemma LocalMatching(g: Snapshot, tag: Tag, key: Key, op: Operator, value: Value, kept: seq<NodeId>)
    requires g.Valid() && g.HasTag(tag) && key in KeysOf(g.schema.nodeProperties[tag])
    requires tag in g.data.nodes && g.data.nodes[tag].Valid() && key in g.data.nodes[tag].columns
    requires kept == Filter(g.data.nodes[tag].MatchingIds(key, op, value), VisibleIn(g, tag))
    ensures kept == Filter(VisibleIds(LocalRows(g.data.nodes[tag], g.At())), Satisfies(g.Rows(tag), key, op, value))
  {
    hide GraphTable.Valid, GraphTable.Ready, NodeTable.IndicesCurrent, BasesMatch;
    var t := g.data.nodes[tag];
    var own := LocalRows(t, g.At());
    var sat := Satisfies(g.Rows(tag), key, op, value);
    VisibleIdsExactly(own, t.idBase);
    FilterAscending(VisibleIds(own), sat);
    IdsMembers(t.idBase, t.Size());
    FilterAscending(Ids(t.idBase, t.Size()), t.Holds(key, op, value));
    FilterAscending(t.MatchingIds(key, op, value), VisibleIn(g, tag));
    forall id: NodeId ensures id in kept <==> id in Filter(VisibleIds(own), sat) {
      LocalMatchingMember(g, tag, key, op, value, id);
    }
    AscendingUnique(kept, Filter(VisibleIds(own), sat));
  }

  lemma IndexedMember(t: NodeTable, key: Key, op: Operator, value: Value, visible: NodeId -> bool, id: NodeId)
    requires t.Valid() && key in t.columns
    ensures id in Filter(t.MatchingIds(key, op, value), visible)
       <==> t.idBase <= id < t.Extent() && t.Holds(key, op, value)(id) && visible(id)
  {
    hide NodeTable.IndicesCurrent, TypedColumns;
    IdsMembers(t.idBase, t.Size());
    FilterMember(t.MatchingIds(key, op, value), visible, id);
    FilterMember(Ids(t.idBase, t.Size()), t.Holds(key, op, value), id);
  }

  lemma LocalMatchingMember(g: Snapshot, tag: Tag, key: Key, op: Operator, value: Value, id: NodeId)
    requires g.Valid() && g.HasTag(tag) && key in KeysOf(g.schema.nodeProperties[tag])
    requires tag in g.data.nodes && g.data.nodes[tag].Valid() && key in g.data.nodes[tag].columns
    ensures id in Filter(g.data.nodes[tag].MatchingIds(key, op, value), VisibleIn(g, tag))
       <==> id in Filter(VisibleIds(LocalRows(g.data.nodes[tag], g.At())), Satisfies(g.Rows(tag), key, op, value))
  {
    hide Snapshot.Valid, Snapshot.Rows, NodeTable.Valid, VisibleIds;
    var t := g.data.nodes[tag];
    var own := LocalRows(t, g.At());
    VisibleIdsExactly(own, t.idBase);
    IndexedMember(t, key, op, value, VisibleIn(g, tag), id);
    FilterMember(VisibleIds(own), Satisfies(g.Rows(tag), key, op, value), id);
    LookupOwn(g, tag, key, id);
  }

  function VisibleIn(g: Snapshot, tag: Tag): NodeId -> bool
    requires g.Valid() && g.HasTag(tag)
  {
    (id: NodeId) => g.CheckVisibility(tag, id).Ok?
  }

  lemma LookupOwn(g: Snapshot, tag: Tag, key: Key, id: NodeId)
    requires g.Valid() && g.HasTag(tag) && key in KeysOf(g.schema.nodeProperties[tag])
    requires tag in g.data.nodes && g.data.nodes[tag].Valid() && key in g.data.nodes[tag].columns
    ensures var t := g.data.nodes[tag];
      t.idBase <= id < t.Extent() ==>
        && |t.columns[key]| == t.Size()
        && ValueOf(g.Rows(tag), key, id) == t.columns[key][id - t.idBase]
        && (g.CheckVisibility(tag, id).Ok? <==> IsVisible(LocalRows(t, g.At()), id))
    ensures IsVisible(LocalRows(g.data.nodes[tag], g.At()), id) ==>
      g.data.nodes[tag].idBase <= id < g.data.nodes[tag].Extent()
  {
    hide Snapshot.Valid, Snapshot.Rows, Snapshot.CheckVisibility, NodeTable.IndicesCurrent;
    var t := g.data.nodes[tag];
    ColumnLength(t, key);
    LocalLookup(t, g.At(), id);
    VisibilityIsFlat(g, tag, id);
    OwnRowsFound(g, tag, id);
    if t.idBase <= id < t.Extent() {
      LocalValue(t, g.At(), key, id - t.idBase);
    }
  }

  lemma LocalValue(t: NodeTable, at: Coordinates, key: Key, row: nat)
    requires t.Valid() && row < t.Size() && key in t.columns && |t.columns[key]| == t.Size()
    ensures key in LocalRow(t, at, row).values && LocalRow(t, at, row).values[key] == t.columns[key][row]
  {
    hide NodeTable.IndicesCurrent;
  }

  lemma ColumnLength(t: NodeTable, key: Key)
    requires t.Valid() && key in t.columns
    ensures |t.columns[key]| == t.Size()
  {
    hide NodeTable.IndicesCurrent;
    var p :| p in t.properties && p.key == key;
  }

  /** An identifier at or above the base is looked up among the layer's own rows. */
  lemma OwnRowsFound(g: Snapshot, tag: Tag, id: NodeId)
    requires g.Valid() && g.HasTag(tag) && tag in g.data.nodes && g.data.nodes[tag].Valid()
    ensures g.data.nodes[tag].idBase <= id ==>
      FindRow(g.Rows(tag), id) == FindRow(LocalRows(g.data.nodes[tag], g.At()), id)
  {
    hide GraphTable.Valid, GraphTable.Ready, NodeTable.Valid, BasesMatch;
    if g.parent.Some? {
      RowsOfBranch(g, tag, id);
    } else {
      assert g.Rows(tag) == LocalRows(g.data.nodes[tag], g.At());
    }
  }

  /** The visible ones of the local matches, appended to the inherited candidates. */
  method AppendVisible(g: Snapshot, tag: Tag, inherited: seq<NodeId>, matches: seq<NodeId>)
    returns (r: Result<seq<NodeId>>)
    requires g.Valid() && g.HasTag(tag)
    ensures r == Ok(inherited + Filter(matches, VisibleIn(g, tag)))
  {
    hide Snapshot.Valid, Snapshot.Rows, Snapshot.CheckVisibility, Snapshot.Contains;
    var candidates := inherited;
    for i := 0 to |matches|
      invariant candidates == inherited + Filter(matches[..i], VisibleIn(g, tag))
    {
      var id := matches[i];
      assert matches[..i + 1][..i] == matches[..i];
      VisibilityIsFlat(g, tag, id);
      match g.Contains(tag, id) {
        case Err(e) => return Err(e);
        case Ok(visible) =>
          if visible {
            candidates := candidates + [id];
          }
      }
    }
    assert matches[..|matches|] == matches;
    return Ok(candidates);
  }

  method PropertyCandidates(g: Snapshot, tag: Tag, key: Key, op: Operator, value: Value)
    returns (r: Result<seq<NodeId>>)
    requires g.Valid() && g.HasTag(tag) && key in KeysOf(g.schema.nodeProperties[tag])
    ensures r == Ok(MatchingCandidates(g.Rows(tag), key, op, value))
  {
    hide Snapshot.Valid, Snapshot.Rows, Snapshot.CheckVisibility, NodeTable.Valid;
    hide MatchingCandidates, VisibleIn, Filter;
    g.Unfold(tag);
    var candidates := [];
    if g.parent.Some? {
      var inherited := PropertyCandidates(g.parent.value, tag, key, op, value);
      if inherited.Err? {
        return inherited;
      }
      candidates := inherited.value;
    }
    var local := g.data.nodes[tag].IndexedPropertyCandidates(key, op, value);
    if local.Err? {
      return local;
    }
    LocalMatching(g, tag, key, op, value, Filter(local.value, VisibleIn(g, tag)));
    MatchingSplit(g, tag, key, op, value);
    r := AppendVisible(g, tag, candidates, local.value);
  }

  /** Inherited candidates are judged by the parent exactly as the child would judge them. */
  lemma MatchingSplit(g: Snapshot, tag: Tag, key: Key, op: Operator, value: Value)
    requires g.Valid() && g.HasTag(tag) && key in KeysOf(g.schema.nodeProperties[tag])
    ensures tag in g.data.nodes && g.data.nodes[tag].Valid()
    ensures g.parent.Some? ==> g.parent.value.Valid() && g.parent.value.HasTag(tag)
    ensures MatchingCandidates(g.Rows(tag), key, op, value)
      == (if g.parent.Some? then MatchingCandidates(g.parent.value.Rows(tag), key, op, value) else [])
       + Filter(VisibleIds(LocalRows(g.data.nodes[tag], g.At())), Satisfies(g.Rows(tag), key, op, value))
  {
    hide GraphTable.Valid, GraphTable.Ready, NodeTable.Valid, BasesMatch;
    g.Unfold(tag);
    var own := LocalRows(g.data.nodes[tag], g.At());
    if g.parent.Some? {
      InheritedMatching(g, tag, key, op, value);
      VisibleIdsAppend(g.parent.value.Rows(tag), own);
      FilterAppend(VisibleIds(g.parent.value.Rows(tag)), VisibleIds(own), Satisfies(g.Rows(tag), key, op, value));
    } else {
      assert g.Rows(tag) == own;
    }
  }

  lemma InheritedMatching(g: Snapshot, tag: Tag, key: Key, op: Operator, value: Value)
    requires g.Valid() && g.HasTag(tag) && key in KeysOf(g.schema.nodeProperties[tag]) && g.parent.Some?
    ensures g.parent.value.Valid() && g.parent.value.HasTag(tag)
    ensures Filter(VisibleIds(g.parent.value.Rows(tag)), Satisfies(g.Rows(tag), key, op, value))
         == MatchingCandidates(g.parent.value.Rows(tag), key, op, value)
  {
    hide GraphTable.Valid, GraphTable.Ready, NodeTable.Valid, BasesMatch;
    g.Unfold(tag);
    var older, base := g.parent.value.Rows(tag), g.parent.value.RowBase(tag);
    var sat, before := Satisfies(g.Rows(tag), key, op, value), Satisfies(older, key, op, value);
    RowsPartition(g.parent.value, tag);
    VisibleIdsExactly(older, base);
    forall id | id in VisibleIds(older) ensures sat(id) == before(id) {
      FindRowAt(older, base, id);
      RowsOfBranch(g, tag, id);
    }
    FilterAgree(VisibleIds(older), sat, before);
  }

  /** The sum of the layers' histogram estimates. */
  ghost function EstimateOf(g: Snapshot, tag: Tag, p: PropertySpec, op: Operator, value: Value): int
    requires g.Valid() && g.HasTag(tag) && p in g.schema.nodeProperties[tag]
  {
    g.Unfold(tag);
    var t := g.data.nodes[tag];
    (if g.parent.Some? then EstimateOf(g.parent.value, tag, p, op, value) else 0)
    + if Arithmetic(p.kind) then Estimate(t.propertyIndices[p.key].histogram, t.Size(), p.kind, op, value) else t.Size()
  }

  method EstimatePropertyCandidates(g: Snapshot, tag: Tag, p: PropertySpec, op: Operator, value: Value)
    returns (r: Result<nat>)
    requires g.Valid() && g.HasTag(tag) && p in g.schema.nodeProperties[tag]
    ensures r.Ok? && r.value == EstimateOf(g, tag, p, op, value)
  {
    hide Snapshot.Valid, NodeTable.Valid, Estimate;
    g.Unfold(tag);
    var estimate := 0;
    if g.parent.Some? {
      var inherited := EstimatePropertyCandidates(g.parent.value, tag, p, op, value);
      if inherited.Err? {
        return inherited;
      }
      estimate := inherited.value;
    }
    var local := g.data.nodes[tag].EstimatePropertyCandidates(p.key, p.kind, op, value);
    if local.Err? {
      return local;
    }
    return Ok(estimate + local.value);
  }

  // ---- Adjacency ----

  ghost function KeptEdge(t: EdgeTable, keep: FlatEdge -> bool): EdgeId -> bool
    requires t.Linked()
  {
    (edge: EdgeId) => t.idBase <= edge < t.Extent() && keep(LocalEdges(t)[edge - t.idBase])
  }

  lemma ListedStep(a: seq<FlatEdge>, last: FlatEdge, b: seq<EdgeId>, named: bool,
                   keep: FlatEdge -> bool, kept: EdgeId -> bool)
    requires Map(Filter(a, keep), EdgeIdOf()) == Filter(b, kept)
    requires kept(last.id) == keep(last) && (keep(last) ==> named)
    ensures Map(Filter(a + [last], keep), EdgeIdOf()) == Filter(b + if named then [last.id] else [], kept)
  {
    assert (a + [last])[..|a|] == a;
    FilterAppend(b, if named then [last.id] else [], kept);
  }

  /** Walking a node's adjacency list and keeping some edges is filtering the layer's edge list. */
  lemma {:induction false} ListedEdges(
    t: EdgeTable, endpoints: seq<NodeId>, node: NodeId, keep: FlatEdge -> bool, n: nat)
    requires t.Linked() && n <= t.size == |endpoints|
    requires forall i :: 0 <= i < t.size && keep(LocalEdges(t)[i]) ==> endpoints[i] == node
    ensures Map(Filter(LocalEdges(t)[..n], keep), EdgeIdOf())
         == Filter(RowsOf(endpoints[..n], t.idBase, node), KeptEdge(t, keep))
  {
    hide Inverts;
    if n == 0 {
    } else {
      ListedEdges(t, endpoints, node, keep, n - 1);
      ListedOneMore(t, endpoints, node, keep, n - 1);
    }
  }

  lemma ListedOneMore(t: EdgeTable, endpoints: seq<NodeId>, node: NodeId, keep: FlatEdge -> bool, n: nat)
    requires t.Linked() && n < t.size == |endpoints|
    requires keep(LocalEdges(t)[n]) ==> endpoints[n] == node
    requires Map(Filter(LocalEdges(t)[..n], keep), EdgeIdOf())
          == Filter(RowsOf(endpoints[..n], t.idBase, node), KeptEdge(t, keep))
    ensures Map(Filter(LocalEdges(t)[..n + 1], keep), EdgeIdOf())
         == Filter(RowsOf(endpoints[..n + 1], t.idBase, node), KeptEdge(t, keep))
  {
    hide Inverts, Filter, Map;
    var all := LocalEdges(t);
    assert all[..n + 1] == all[..n] + [all[n]];
    assert endpoints[..n + 1][..n] == endpoints[..n];
    assert all[n].id == t.idBase + n && all[all[n].id - t.idBase] == all[n];
    ListedStep(all[..n], all[n], RowsOf(endpoints[..n], t.idBase, node), endpoints[n] == node, keep, KeptEdge(t, keep));
  }

  /** What the layers below contribute to a node's edges does not depend on the layer asking. */
  lemma InheritedOutgoing(g: Snapshot, e: EdgeType, source: NodeId)
    requires g.Valid() && g.HasEdge(e) && g.parent.Some?
    ensures g.HasTag(e.source) && g.HasTag(e.target)
    ensures g.parent.value.Valid() && g.parent.value.HasEdge(e) && g.parent.value.HasTag(e.target) &&
      g.parent.value.HasTag(e.source)
    ensures Filter(g.parent.value.Edges(e), Leaves(g.Rows(e.target), source))
         == Filter(g.parent.value.Edges(e), Leaves(g.parent.value.Rows(e.target), source))
    ensures IsVisible(g.Rows(e.source), source) && !IsVisible(g.parent.value.Rows(e.source), source) ==>
      Filter(g.parent.value.Edges(e), Leaves(g.Rows(e.target), source)) == []
  {
    hide GraphTable.Valid, GraphTable.Ready, NodeTable.Valid, EdgeTable.Valid, BasesMatch, Attached;
    g.UnfoldEdge(e);
    g.Unfold(e.source);
    g.Unfold(e.target);
    var p := g.parent.value;
    EdgesBelowExtent(p, e);
    RowsOfBranch(g, e.source, source);
    forall edge | edge in p.Edges(e)
      ensures Leaves(g.Rows(e.target), source)(edge) == Leaves(p.Rows(e.target), source)(edge)
    {
      RowsOfBranch(g, e.target, edge.target);
    }
    FilterAgree(p.Edges(e), Leaves(g.Rows(e.target), source), Leaves(p.Rows(e.target), source));
    if IsVisible(g.Rows(e.source), source) && !IsVisible(p.Rows(e.source), source) {
      FilterNone(p.Edges(e), Leaves(g.Rows(e.target), source));
    }
  }

  lemma InheritedIncoming(g: Snapshot, e: EdgeType, target: NodeId)
    requires g.Valid() && g.HasEdge(e) && g.parent.Some?
    ensures g.HasTag(e.target) && g.HasTag(e.source)
    ensures g.parent.value.Valid() && g.parent.value.HasEdge(e) && g.parent.value.HasTag(e.source) &&
      g.parent.value.HasTag(e.target)
    ensures Filter(g.parent.value.Edges(e), Enters(g.Rows(e.source), target))
         == Filter(g.parent.value.Edges(e), Enters(g.parent.value.Rows(e.source), target))
    ensures IsVisible(g.Rows(e.target), target) && !IsVisible(g.parent.value.Rows(e.target), target) ==>
      Filter(g.parent.value.Edges(e), Enters(g.Rows(e.source), target)) == []
  {
    hide GraphTable.Valid, GraphTable.Ready, NodeTable.Valid, EdgeTable.Valid, BasesMatch, Attached;
    g.UnfoldEdge(e);
    g.Unfold(e.target);
    g.Unfold(e.source);
    var p := g.parent.value;
    EdgesBelowExtent(p, e);
    RowsOfBranch(g, e.target, target);
    forall edge | edge in p.Edges(e)
      ensures Enters(g.Rows(e.source), target)(edge) == Enters(p.Rows(e.source), target)(edge)
    {
      RowsOfBranch(g, e.source, edge.source);
    }
    FilterAgree(p.Edges(e), Enters(g.Rows(e.source), target), Enters(p.Rows(e.source), target));
    if IsVisible(g.Rows(e.target), target) && !IsVisible(p.Rows(e.target), target) {
      FilterNone(p.Edges(e), Enters(g.Rows(e.source), target));
    }
  }

  lemma EdgesSplit(g: Snapshot, e: EdgeType, keep: FlatEdge -> bool)
    requires g.Valid() && g.HasEdge(e)
    ensures e in g.data.edges && g.data.edges[e].Linked()
    ensures g.parent.Some? ==> g.parent.value.Valid() && g.parent.value.HasEdge(e)
    ensures Map(Filter(g.Edges(e), keep), EdgeIdOf())
      == (if g.parent.Some? then Map(Filter(g.parent.value.Edges(e), keep), EdgeIdOf()) else [])
       + Map(Filter(LocalEdges(g.data.edges[e]), keep), EdgeIdOf())
  {
    hide GraphTable.Valid, GraphTable.Ready, NodeTable.Valid, TypedColumns, BasesMatch, Attached;
    g.UnfoldEdge(e);
    if g.parent.Some? {
      FilterAppend(g.parent.value.Edges(e), LocalEdges(g.data.edges[e]), keep);
      MapAppend(Filter(g.parent.value.Edges(e), keep), Filter(LocalEdges(g.data.edges[e]), keep), EdgeIdOf());
    } else {
      assert g.Edges(e) == LocalEdges(g.data.edges[e]);
    }
  }

  /** Edges from `source` to visible targets, in the whole chain. */
  ghost function OutgoingIds(g: Snapshot, e: EdgeType, source: NodeId): seq<EdgeId>
    requires g.Valid() && g.HasEdge(e)
  {
    g.UnfoldEdge(e);
    Map(Filter(g.Edges(e), Leaves(g.Rows(e.target), source)), EdgeIdOf())
  }

  /** Edges into `target` from visible sources, in the whole chain. */
  ghost function IncomingIds(g: Snapshot, e: EdgeType, target: NodeId): seq<EdgeId>
    requires g.Valid() && g.HasEdge(e)
  {
    g.UnfoldEdge(e);
    Map(Filter(g.Edges(e), Enters(g.Rows(e.source), target)), EdgeIdOf())
  }

  /** Edges leaving a visible node towards visible targets: inherited ones first, then the layer's own. */
  method Outgoing(g: Snapshot, e: EdgeType, source: NodeId) returns (r: Result<seq<EdgeId>>)
    requires g.Valid() && g.HasEdge(e)
    ensures g.HasTag(e.source)
    ensures r == match g.CheckVisibility(e.source, source)
      case Ok(_) => Ok(OutgoingIds(g, e, source))
      case Err(error) => Err(error)
  {
    hide GraphTable.Valid, GraphTable.Ready, NodeTable.Valid, EdgeTable.Valid, BasesMatch, Attached;
    g.UnfoldEdge(e);
    match g.CheckVisibility(e.source, source) {
      case Err(error) => return Err(error);
      case Ok(_) =>
    }
    VisibilityIsFlat(g, e.source, source);
    EdgesSplit(g, e, Leaves(g.Rows(e.target), source));
    var visibleEdges := [];
    if g.parent.Some? {
      InheritedOutgoing(g, e, source);
      VisibilityIsFlat(g.parent.value, e.source, source);
      match g.parent.value.Contains(e.source, source) {
        case Err(error) => return Err(error);
        case Ok(contained) =>
          if contained {
            var inherited := Outgoing(g.parent.value, e, source);
            if inherited.Err? {
              return inherited;
            }
            visibleEdges := inherited.value;
          }
      }
    }
    var local := OutgoingHere(g, e, source);
    if local.Err? {
      return local;
    }
    return Ok(visibleEdges + local.value);
  }

  /** An edge listed at a node has its other end, and is kept exactly if that end is visible. */
  lemma OutgoingListed(g: Snapshot, e: EdgeType, source: NodeId, edge: EdgeId)
    requires g.Valid() && g.HasEdge(e) && e in g.data.edges && g.data.edges[e].Linked()
    requires edge in Lookup(g.data.edges[e].outgoing, source)
    ensures g.HasTag(e.target)
    ensures var edges := g.data.edges[e];
      && edges.Target(edge).Ok?
      && g.Contains(e.target, edges.Target(edge).value)
         == Ok(KeptEdge(edges, Leaves(g.Rows(e.target), source))(edge))
  {
    hide GraphTable.Valid, GraphTable.Ready, NodeTable.Valid, BasesMatch, Attached, TypedColumns;
    hide EdgeTable.StatisticsCurrent, Snapshot.Rows, Snapshot.Contains, IsVisible;
    g.UnfoldEdge(e);
    var edges := g.data.edges[e];
    InvertedLookup(edges.outgoing, edges.sources, edges.idBase, source);
    var target := edges.targets[edge - edges.idBase];
    VisibilityIsFlat(g, e.target, target);
    assert LocalEdges(edges)[edge - edges.idBase] == FlatEdge(edge, source, target);
  }

  lemma OutgoingAllListed(t: EdgeTable, source: NodeId, keep: FlatEdge -> bool)
    requires t.Linked() && forall edge: FlatEdge :: keep(edge) ==> edge.source == source
    ensures Map(Filter(LocalEdges(t), keep), EdgeIdOf()) == Filter(Lookup(t.outgoing, source), KeptEdge(t, keep))
  {
    ListedEdges(t, t.sources, source, keep, t.size);
    assert LocalEdges(t)[..t.size] == LocalEdges(t) && t.sources[..t.size] == t.sources;
  }

  /** The layer's own part of `outgoing`. */
  method OutgoingHere(g: Snapshot, e: EdgeType, source: NodeId) returns (r: Result<seq<EdgeId>>)
    requires g.Valid() && g.HasEdge(e)
    ensures g.HasTag(e.target) && e in g.data.edges && g.data.edges[e].Linked()
    ensures r == Ok(Map(Filter(LocalEdges(g.data.edges[e]), Leaves(g.Rows(e.target), source)), EdgeIdOf()))
  {
    hide Snapshot.Valid, Snapshot.Rows, Snapshot.Contains, EdgeTable.Target, KeptEdge, Inverts, TypedColumns;
    hide EdgeTable.StatisticsCurrent, Attached, NodeTable.Valid;
    g.UnfoldEdge(e);
    var edges := g.data.edges[e];
    var listed := Lookup(edges.outgoing, source);
    var visibleEdges := [];
    ghost var keep := Leaves(g.Rows(e.target), source);
    for i := 0 to |listed|
      invariant visibleEdges == Filter(listed[..i], KeptEdge(edges, keep))
    {
      var edge := listed[i];
      OutgoingListed(g, e, source, edge);
      assert listed[..i + 1][..i] == listed[..i];
      match edges.Target(edge) {
        case Err(error) => return Err(error);
        case Ok(target) =>
          match g.Contains(e.target, target) {
            case Err(error) => return Err(error);
            case Ok(visible) =>
              if visible {
                visibleEdges := visibleEdges + [edge];
              }
          }
      }
    }
    assert listed[..|listed|] == listed;
    OutgoingAllListed(edges, source, keep);
    return Ok(visibleEdges);
  }

  /** Edges entering a visible node from visible sources: inherited ones first, then the layer's own. */
  method Incoming(g: Snapshot, e: EdgeType, target: NodeId) returns (r: Result<seq<EdgeId>>)
    requires g.Valid() && g.HasEdge(e)
    ensures g.HasTag(e.target)
    ensures r == match g.CheckVisibility(e.target, target)
      case Ok(_) => Ok(IncomingIds(g, e, target))
      case Err(error) => Err(error)
  {
    hide GraphTable.Valid, GraphTable.Ready, NodeTable.Valid, EdgeTable.Valid, BasesMatch, Attached;
    g.UnfoldEdge(e);
    match g.CheckVisibility(e.target, target) {
      case Err(error) => return Err(error);
      case Ok(_) =>
    }
    VisibilityIsFlat(g, e.target, target);
    EdgesSplit(g, e, Enters(g.Rows(e.source), target));
    var visibleEdges := [];
    if g.parent.Some? {
      InheritedIncoming(g, e, target);
      VisibilityIsFlat(g.parent.value, e.target, target);
      match g.parent.value.Contains(e.target, target) {
        case Err(error) => return Err(error);
        case Ok(contained) =>
          if contained {
            var inherited := Incoming(g.parent.value, e, target);
            if inherited.Err? {
              return inherited;
            }
            visibleEdges := inherited.value;
          }
      }
    }
    var local := IncomingHere(g, e, target);
    if local.Err? {
      return local;
    }
    return Ok(visibleEdges + local.value);
  }

  /** An edge listed at a node has its other end, and is kept exactly if that end is visible. */
  lemma IncomingListed(g: Snapshot, e: EdgeType, target: NodeId, edge: EdgeId)
    requires g.Valid() && g.HasEdge(e) && e in g.data.edges && g.data.edges[e].Linked()
    requires edge in Lookup(g.data.edges[e].incoming, target)
    ensures g.HasTag(e.source)
    ensures var edges := g.data.edges[e];
      && edges.Source(edge).Ok?
      && g.Contains(e.source, edges.Source(edge).value)
         == Ok(KeptEdge(edges, Enters(g.Rows(e.source), target))(edge))
  {
    hide GraphTable.Valid, GraphTable.Ready, NodeTable.Valid, BasesMatch, Attached, TypedColumns;
    hide EdgeTable.StatisticsCurrent, Snapshot.Rows, Snapshot.Contains, IsVisible;
    g.UnfoldEdge(e);
    var edges := g.data.edges[e];
    InvertedLookup(edges.incoming, edges.targets, edges.idBase, target);
    var source := edges.sources[edge - edges.idBase];
    VisibilityIsFlat(g, e.source, source);
    assert LocalEdges(edges)[edge - edges.idBase] == FlatEdge(edge, source, target);
  }

  lemma IncomingAllListed(t: EdgeTable, target: NodeId, keep: FlatEdge -> bool)
    requires t.Linked() && forall edge: FlatEdge :: keep(edge) ==> edge.target == target
    ensures Map(Filter(LocalEdges(t), keep), EdgeIdOf()) == Filter(Lookup(t.incoming, target), KeptEdge(t, keep))
  {
    ListedEdges(t, t.targets, target, keep, t.size);
    assert LocalEdges(t)[..t.size] == LocalEdges(t) && t.targets[..t.size] == t.targets;
  }

  /** The layer's own part of `incoming`. */
  method IncomingHere(g: Snapshot, e: EdgeType, target: NodeId) returns (r: Result<seq<EdgeId>>)
    requires g.Valid() && g.HasEdge(e)
    ensures g.HasTag(e.source) && e in g.data.edges && g.data.edges[e].Linked()
    ensures r == Ok(Map(Filter(LocalEdges(g.data.edges[e]), Enters(g.Rows(e.source), target)), EdgeIdOf()))
  {
    hide Snapshot.Valid, Snapshot.Rows, Snapshot.Contains, EdgeTable.Source, KeptEdge, Inverts, TypedColumns;
    hide EdgeTable.StatisticsCurrent, Attached, NodeTable.Valid;
    g.UnfoldEdge(e);
    var edges := g.data.edges[e];
    var listed := Lookup(edges.incoming, target);
    var visibleEdges := [];
    ghost var keep := Enters(g.Rows(e.source), target);
    for i := 0 to |listed|
      invariant visibleEdges == Filter(listed[..i], KeptEdge(edges, keep))
    {
      var edge := listed[i];
      IncomingListed(g, e, target, edge);
      assert listed[..i + 1][..i] == listed[..i];
      match edges.Source(edge) {
        case Err(error) => return Err(error);
        case Ok(source) =>
          match g.Contains(e.source, source) {
            case Err(error) => return Err(error);
            case Ok(visible) =>
              if visible {
                visibleEdges := visibleEdges + [edge];
              }
          }
      }
    }
    assert listed[..|listed|] == listed;
    IncomingAllListed(edges, target, keep);
    return Ok(visibleEdges);
  }
}
