/** Layered adjacency is flat adjacency, and both directions list the same edges. */
module Traversals {
  import opened Common
  import opened Sequences
  import opened FlatGraphs
  import opened Snapshots
  import opened SnapshotQueries

  ghost function EdgeById(edges: seq<FlatEdge>, base: nat, edge: EdgeId): Option<FlatEdge> {
    if base <= edge < base + |edges| then Some(edges[edge - base]) else None
  }

  /** The identifiers of kept edges ascend, and one is listed exactly if its edge is kept. */
  lemma {:induction false} Listed(edges: seq<FlatEdge>, base: nat, keep: FlatEdge -> bool)
    requires EdgesFrom(edges, base)
    ensures Ascending(Map(Filter(edges, keep), EdgeIdOf()))
    ensures forall edge: EdgeId ::
      edge in Map(Filter(edges, keep), EdgeIdOf())
      <==> EdgeById(edges, base, edge).Some? && keep(EdgeById(edges, base, edge).value)
  {
    if edges == [] {
    } else {
      var n := |edges| - 1;
      var init, last := edges[..n], edges[n];
      Listed(init, base, keep);
      var ids := Map(Filter(init, keep), EdgeIdOf());
      assert Map(Filter(edges, keep), EdgeIdOf()) == ids + if keep(last) then [last.id] else [];
      forall i | 0 <= i < |ids| ensures ids[i] < last.id {
        assert ids[i] in ids;
      }
      forall edge: EdgeId ensures edge in Map(Filter(edges, keep), EdgeIdOf())
        <==> EdgeById(edges, base, edge).Some? && keep(EdgeById(edges, base, edge).value)
      {
        assert edge != last.id ==> EdgeById(edges, base, edge) == EdgeById(init, base, edge);
      }
    }
  }

  /** The edge `edge` of the chain leads from `source` to `target`. */
  ghost predicate Joins(g: Snapshot, e: EdgeType, edge: EdgeId, source: NodeId, target: NodeId)
    requires g.Valid() && g.HasEdge(e)
  {
    EdgeById(g.Edges(e), g.EdgeBaseOf(e), edge) == Some(FlatEdge(edge, source, target))
  }

  /** `outgoing` lists, ascending, exactly the edges of all layers that lead to a visible target. */
  lemma OutgoingIsFlat(g: Snapshot, e: EdgeType, source: NodeId, edge: EdgeId)
    requires g.Valid() && g.HasEdge(e) && g.HasTag(e.target)
    ensures Ascending(OutgoingIds(g, e, source))
    ensures edge in OutgoingIds(g, e, source)
       <==> exists target :: Joins(g, e, edge, source, target) && g.CheckVisibility(e.target, target).Ok?
  {
    hide Snapshot.Valid;
    EdgesPartition(g, e);
    Listed(g.Edges(e), g.EdgeBaseOf(e), Leaves(g.Rows(e.target), source));
    var found := EdgeById(g.Edges(e), g.EdgeBaseOf(e), edge);
    if found.Some? {
      VisibilityIsFlat(g, e.target, found.value.target);
      assert found.value.source == source ==> Joins(g, e, edge, source, found.value.target);
    }
  }

  lemma IncomingIsFlat(g: Snapshot, e: EdgeType, target: NodeId, edge: EdgeId)
    requires g.Valid() && g.HasEdge(e) && g.HasTag(e.source)
    ensures Ascending(IncomingIds(g, e, target))
    ensures edge in IncomingIds(g, e, target)
       <==> exists source :: Joins(g, e, edge, source, target) && g.CheckVisibility(e.source, source).Ok?
  {
    hide Snapshot.Valid;
    EdgesPartition(g, e);
    Listed(g.Edges(e), g.EdgeBaseOf(e), Enters(g.Rows(e.source), target));
    var found := EdgeById(g.Edges(e), g.EdgeBaseOf(e), edge);
    if found.Some? {
      VisibilityIsFlat(g, e.source, found.value.source);
      assert found.value.target == target ==> Joins(g, e, edge, found.value.source, target);
    }
  }

  /** Between two visible nodes, an edge is listed as outgoing of one exactly if as incoming of the other. */
  lemma OutgoingIffIncoming(g: Snapshot, e: EdgeType, edge: EdgeId, source: NodeId, target: NodeId)
    requires g.Valid() && g.HasEdge(e) && g.HasTag(e.source) && g.HasTag(e.target)
    requires g.CheckVisibility(e.source, source).Ok? && g.CheckVisibility(e.target, target).Ok?
    ensures Joins(g, e, edge, source, target) ==>
      edge in OutgoingIds(g, e, source) && edge in IncomingIds(g, e, target) && g.EdgeTarget(e, edge) == Ok(target)
    ensures edge in OutgoingIds(g, e, source) && edge in IncomingIds(g, e, target) ==>
      Joins(g, e, edge, source, target)
    ensures edge in OutgoingIds(g, e, source) && g.EdgeTarget(e, edge) == Ok(target) ==>
      edge in IncomingIds(g, e, target)
  {
    hide Snapshot.Valid, Snapshot.CheckVisibility, Snapshot.EdgeTarget, OutgoingIds, IncomingIds, Ascending, Joins;
    OutgoingIsFlat(g, e, source, edge);
    IncomingIsFlat(g, e, target, edge);
    if edge in OutgoingIds(g, e, source) {
      var to :| Joins(g, e, edge, source, to);
      JoinsTarget(g, e, edge, source, to);
      if edge in IncomingIds(g, e, target) {
        var from :| Joins(g, e, edge, from, target);
        JoinsTarget(g, e, edge, from, target);
      }
    }
    if Joins(g, e, edge, source, target) {
      JoinsTarget(g, e, edge, source, target);
    }
  }

  lemma JoinsTarget(g: Snapshot, e: EdgeType, edge: EdgeId, source: NodeId, target: NodeId)
    requires g.Valid() && g.HasEdge(e) && Joins(g, e, edge, source, target)
    ensures g.EdgeTarget(e, edge) == Ok(target)
  {
    hide Snapshot.Valid, Snapshot.EdgeTarget;
    EdgeTargetIsFlat(g, e, edge);
  }
}
