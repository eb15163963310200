/** What a snapshot published as known at some time can show that was recorded only later. */
module TransactionTimes {
  import opened Common
  import opened NodeTables
  import opened DeltaStores
  import opened FlatGraphs
  import opened Snapshots
  import opened SmallGraphs

  /** No layer of the chain was published as known later than `time`. */
  ghost predicate PublishedBy(g: Snapshot, time: Timestamp) {
    g.knownAt <= time && (g.parent.Some? ==> PublishedBy(g.parent.value, time))
  }

  /** Every row of `tag` that can be seen was recorded by `time`. */
  ghost predicate RecordedBy(g: Snapshot, tag: Tag, time: Timestamp)
    requires g.Valid() && g.HasTag(tag)
  {
    forall row :: row in g.Rows(tag) && row.Visible() ==> row.transaction.from <= time
  }

  /** A root never shows a later row; a branch does exactly if its parent, at the branch's time, already does. */
  lemma LeaksFromParentOnly(g: Snapshot, tag: Tag)
    requires g.Valid() && g.HasTag(tag)
    ensures RecordedBy(g, tag, g.knownAt) <==>
      (g.parent.Some? ==>
        && g.parent.value.Valid() && g.parent.value.HasTag(tag)
        && RecordedBy(g.parent.value, tag, g.knownAt))
  {
    hide GraphTable.Valid, GraphTable.Ready, NodeTable.Valid, BasesMatch;
    g.Unfold(tag);
    OwnRowsRecorded(g.data.nodes[tag], g.At());
  }

  lemma OwnRowsRecorded(t: NodeTable, at: Coordinates)
    requires t.Valid()
    ensures forall row :: row in LocalRows(t, at) && row.Visible() ==> row.transaction.from <= at.knownAt
  {
    hide NodeTable.IndicesCurrent;
  }

  /** So nothing leaks from the future as long as branches are published in order of the times they know. */
  lemma {:induction false} InOrderNothingLeaks(g: Snapshot, tag: Tag, time: Timestamp)
    requires g.Valid() && g.HasTag(tag) && PublishedBy(g, time)
    ensures RecordedBy(g, tag, time)
  {
    hide GraphTable.Valid, GraphTable.Ready, NodeTable.Valid, BasesMatch;
    g.Unfold(tag);
    OwnRowsRecorded(g.data.nodes[tag], g.At());
    if g.parent.None? {
    } else {
      InOrderNothingLeaks(g.parent.value, tag, time);
    }
  }

  /** A root with one row, recorded at the time the root knows and after `early`. */
  ghost predicate LateRoot(g: Snapshot, early: Timestamp) {
    && g.Valid() && g.schema == OneRelation() && g.parent.None? && PERSON in g.data.nodes
    && var t := g.data.nodes[PERSON];
       && t.idBase == 0 && t.worldlines == [g.worldline] && |t.valids| == |t.transactions| == 1
       && t.valids[0].Contains(g.validAt) && t.transactions[0].Contains(g.knownAt) && early < t.transactions[0].from
  }

  lemma LateRowShows(g: Snapshot, early: Timestamp)
    requires LateRoot(g, early)
    ensures g.CheckVisibility(PERSON, 0) == Ok(()) && !RecordedBy(g, PERSON, early)
  {
    hide GraphTable.Valid, GraphTable.Ready, NodeTable.IndicesCurrent, BasesMatch;
    g.Unfold(PERSON);
    assert g.Rows(PERSON)[0].transaction == g.data.nodes[PERSON].transactions[0];
    assert g.Rows(PERSON)[0] in g.Rows(PERSON);
  }

  lemma LateRowBelow(g: Snapshot)
    requires g.Valid() && g.parent.Some? && LateRoot(g.parent.value, g.knownAt)
    ensures g.HasTag(PERSON) && g.CheckVisibility(PERSON, 0) == Ok(()) && !RecordedBy(g, PERSON, g.knownAt)
  {
    hide GraphTable.Valid, GraphTable.Ready, NodeTable.Valid, BasesMatch;
    LateRowShows(g.parent.value, g.knownAt);
    g.Unfold(PERSON);
    LeaksFromParentOnly(g, PERSON);
  }

  /** But a branch of a snapshot that knows more is accepted, and shows what was recorded after its own time. */
  method LeakyBranch(early: Timestamp, late: Timestamp, generation: Id64) returns (r: Result<Snapshot>)
    requires early < late < 0x7FFF_FFFF_FFFF_FFFF && generation != INVALID_64
    ensures r.Ok? && r.value.Valid() && r.value.knownAt == early && r.value.HasTag(PERSON)
    ensures !RecordedBy(r.value, PERSON, early) && r.value.CheckVisibility(PERSON, 0) == Ok(())
  {
    hide GraphTable.Valid, GraphTable.Ready, NodeTable.Valid, BasesMatch, SameRows;
    hide LateRoot, RecordedBy, Snapshot.CheckVisibility;
    var parent := PublishLateRoot(early, late, generation);
    var branch := MakeBranchDelta(parent);
    r := PublishBranch(parent, generation, 1, 0, early, branch);
    LateRowBelow(r.value);
  }

  method PublishLateRoot(early: Timestamp, late: Timestamp, generation: Id64) returns (root: Snapshot)
    requires early < late < 0x7FFF_FFFF_FFFF_FFFF && generation != INVALID_64
    ensures root.Valid() && root.schema == OneRelation() && LateRoot(root, early)
    ensures root.worldline == 0 && root.knownAt == late
  {
    hide GraphTable.Valid, GraphTable.Ready, NodeTable.Valid, Schema.WellFormed;
    OneRelationWellFormed();
    var delta := new DeltaStore(OneRelation(), None);
    var source := Provenance(Observed, [119], None);
    var appended := delta.AppendNode(PERSON, 0, Interval(0, 1), Interval(late, late + 1), source, [], 4);
    ghost var rows := delta.View().nodes[PERSON];
    var published := Publish(generation, 0, 0, late, delta);
    assert delta.View().nodes[PERSON].Data() == rows.Data();
    root := published.value;
  }
}
