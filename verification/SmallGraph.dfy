/** One node type and one relation, without properties: enough to run the store through particular cases. */
module SmallGraphs {
  import opened Common
  import opened NodeTables
  import opened NodeStores
  import opened DeltaStores

  const PERSON: Tag := Tag(0)
  const KNOWS: EdgeType := EdgeType(PERSON, Relation(0), PERSON)

  function OneRelation(): Schema {
    Schema([PERSON], map[PERSON := []], [KNOWS], map[KNOWS := []])
  }

  lemma OneRelationWellFormed()
    ensures OneRelation().WellFormed()
  {
  }

  /** `n` nodes of one worldline, valid and known at the time 0. */
  ghost predicate Nodes(t: NodeTable, base: nat, n: nat, w: WorldlineId) {
    && t.idBase == base && t.properties == [] && t.columns == map[]
    && |t.worldlines| == |t.valids| == |t.transactions| == n
    && forall i :: 0 <= i < n ==> t.worldlines[i] == w && t.valids[i].Contains(0) && t.transactions[i].Contains(0)
  }

  lemma NodesGrow(before: NodeTable, after: NodeTable, source: Provenance, outcome: Outcome<NodeId>,
                  base: nat, n: nat, w: WorldlineId)
    requires Nodes(before, base, n, w) && base + n < 2 && w != INVALID_64
    requires RowOutcome(before, after, w, Interval(0, 1), Interval(0, 1), source, [], 4, outcome)
    ensures Nodes(after, base, n + 1, w)
  {
  }

  /** Append nodes of one worldline to a delta that has none yet. */
  method AppendNodes(delta: DeltaStore, base: nat, n: nat, w: WorldlineId)
    requires delta.Valid() && delta.schema == OneRelation() && w != INVALID_64 && base + n <= 2
    requires PERSON in delta.nodes && Nodes(delta.nodes[PERSON], base, 0, w)
    modifies delta
    ensures delta.Valid() && delta.edges == old(delta.edges)
    ensures PERSON in delta.nodes && Nodes(delta.nodes[PERSON], base, n, w)
    ensures forall below :: BasesMatch(below, old(delta.View())) ==> BasesMatch(below, delta.View())
  {
    hide GraphTable.Valid, NodeTable.Valid, Schema.WellFormed, RowOutcome, BasesMatch;
    var source := Provenance(Observed, [119], None);
    for i := 0 to n
      invariant delta.Valid() && delta.edges == old(delta.edges)
      invariant PERSON in delta.nodes && Nodes(delta.nodes[PERSON], base, i, w)
      invariant forall below :: BasesMatch(below, old(delta.View())) ==> BasesMatch(below, delta.View())
    {
      ghost var before := delta.nodes[PERSON];
      var appended := delta.AppendNode(PERSON, w, Interval(0, 1), Interval(0, 1), source, [], 4);
      NodesGrow(before, delta.nodes[PERSON], source, appended, base, i, w);
    }
  }
}
