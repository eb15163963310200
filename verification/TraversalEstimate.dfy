/** How the planner's traversal estimate relates to what a traverse step emits. */
module TraversalEstimates {
  import opened Common
  import opened Sequences
  import opened NodeTables
  import opened AdjacencyStores
  import opened DeltaStores
  import opened FlatGraphs
  import opened Snapshots
  import opened Queries
  import opened SmallGraphs

  function Ceil(x: real): int {
    -((-x).Floor)
  }

  function RelationAverageDegree(g: Snapshot, e: EdgeType): real
    requires g.Valid() && g.HasEdge(e)
  {
    g.UnfoldEdge(e);
    g.data.edges[e].statistics.averageOutDegree
    + if g.parent.Some? then RelationAverageDegree(g.parent.value, e) else 0.0
  }

  function EstimateTraversalCardinality(g: Snapshot, e: EdgeType, sourceCount: nat): int
    requires g.Valid() && g.HasEdge(e)
  {
    Ceil(Scaled(sourceCount, RelationAverageDegree(g, e)))
  }

  function Scaled(count: nat, average: real): real {
    count as real * average
  }

  // ---- What a traverse step emits ----

  /** The edges a traverse step follows from `sources`. */
  function Followed(targets: seq<FlatRow>, sources: seq<NodeId>): FlatEdge -> bool {
    (edge: FlatEdge) => edge.source in sources && IsVisible(targets, edge.target)
  }

  function NotFollowed(targets: seq<FlatRow>, sources: seq<NodeId>): FlatEdge -> bool {
    (edge: FlatEdge) => !(edge.source in sources && IsVisible(targets, edge.target))
  }

  /** The edges of the chain that a step on `input` leaves out: other sources, or targets that cannot be seen. */
  ghost function LeftOut(g: Snapshot, e: EdgeType, input: seq<NodeId>): nat
    requires g.Valid() && g.HasEdge(e) && g.HasTag(e.target)
  {
    Count(g.Edges(e), NotFollowed(g.Rows(e.target), input))
  }

  lemma {:induction false} FilterCount<T>(s: seq<T>, p: T -> bool)
    ensures |Filter(s, p)| == Count(s, p)
  {
    if s == [] {
    } else {
      FilterCount(s[..|s| - 1], p);
    }
  }

  /** Without repetitions in the input every followed edge is emitted exactly once. */
  lemma {:induction false} EmitsFollowed(flat: Flat, e: EdgeType, input: seq<NodeId>)
    requires NoDuplicates(input)
    ensures |ReachedFrom(flat, e, input)| == Count(EdgesOfType(flat, e), Followed(RowsOfTag(flat, e.target), input))
  {
    var edges, targets := EdgesOfType(flat, e), RowsOfTag(flat, e.target);
    if input == [] {
      CountNone(edges, Followed(targets, input));
    } else {
      var init, last := input[..|input| - 1], input[|input| - 1];
      EmitsFollowed(flat, e, init);
      assert input == init + [last] && last !in init;
      CountSplit(edges, Followed(targets, input), Followed(targets, init), Leaves(targets, last));
      FilterCount(edges, Leaves(targets, last));
    }
  }

  lemma EmittedAndLeftOut(g: Snapshot, e: EdgeType, input: seq<NodeId>)
    requires g.Valid() && g.HasEdge(e) && NoDuplicates(input)
    ensures g.HasTag(e.target)
    ensures |ReachedFrom(g.Flatten(), e, input)| + LeftOut(g, e, input) == |g.Edges(e)|
  {
    hide Snapshot.Valid, Snapshot.Rows, Snapshot.Edges;
    FlattenEdges(g, e);
    FlattenAt(g, e.target);
    EmitsFollowed(g.Flatten(), e, input);
    var rows := g.Rows(e.target);
    var all := (edge: FlatEdge) => true;
    CountAll(g.Edges(e), all);
    CountSplit(g.Edges(e), all, Followed(rows, input), NotFollowed(rows, input));
  }

  // ---- What the averages miss ----

  /** By how much `n` times a layer's average degree falls short of its edges, from its published statistics. */
  function Shortfall(s: DegreeStatistics, n: nat): real {
    if s.sourceCount == 0 then 0.0
    else s.edgeCount as real * (s.sourceCount - n) as real / s.sourceCount as real
  }

  /** The shortfalls of all layers; a layer with more keys than `n` adds, one with fewer takes away. */
  function TotalShortfall(g: Snapshot, e: EdgeType, n: nat): real
    requires g.Valid() && g.HasEdge(e)
  {
    g.UnfoldEdge(e);
    Shortfall(g.data.edges[e].statistics, n) + if g.parent.Some? then TotalShortfall(g.parent.value, e, n) else 0.0
  }

  lemma LayerShortfall(t: EdgeTable, n: nat)
    requires t.Valid() && t.statisticsReady
    ensures t.size as real == Scaled(n, t.statistics.averageOutDegree) + Shortfall(t.statistics, n)
  {
    hide TypedColumns;
    if |t.outgoing| == 0 {
      LengthsSumToEdges(t);
      assert t.outgoing.Keys == {};
    } else {
      AverageAndShortfall(t.size, |t.outgoing|, n);
    }
  }

  lemma AverageAndShortfall(size: nat, count: nat, n: nat)
    requires count > 0
    ensures size as real
         == n as real * (size as real / count as real) + size as real * (count - n) as real / count as real
  {
    var average := size as real / count as real;
    assert average * count as real == size as real;
    assert size as real * (count - n) as real == average * (count - n) as real * count as real;
  }

  lemma {:induction false} EdgesAndShortfall(g: Snapshot, e: EdgeType, n: nat)
    requires g.Valid() && g.HasEdge(e)
    ensures |g.Edges(e)| as real == Scaled(n, RelationAverageDegree(g, e)) + TotalShortfall(g, e, n)
  {
    hide GraphTable.Valid, GraphTable.Ready, EdgeTable.Valid, BasesMatch, Attached, Scaled, Shortfall;
    g.UnfoldEdge(e);
    LayerShortfall(g.data.edges[e], n);
    if g.parent.None? {
      assert |g.Edges(e)| == g.data.edges[e].size;
    } else {
      EdgesAndShortfall(g.parent.value, e, n);
      Distribute(n, g.data.edges[e].statistics.averageOutDegree, RelationAverageDegree(g.parent.value, e));
    }
  }

  lemma Distribute(n: nat, a: real, b: real)
    ensures Scaled(n, a + b) == Scaled(n, a) + Scaled(n, b)
  {
  }

  lemma CeilReaches(k: int, x: real)
    ensures k <= Ceil(x) <==> k as real < x + 1.0
  {
  }

  // ---- When the estimate suffices ----

  /**
    * The reserved capacity suffices exactly if the averages miss less than one edge more than the step leaves out:
    * for any chain, leftover lists included, and any input without repetitions.
    */
  lemma EstimateSufficesExactly(g: Snapshot, e: EdgeType, input: seq<NodeId>)
    requires g.Valid() && g.HasEdge(e) && NoDuplicates(input)
    ensures g.HasTag(e.target)
    ensures |ReachedFrom(g.Flatten(), e, input)| <= EstimateTraversalCardinality(g, e, |input|)
       <==> TotalShortfall(g, e, |input|) < (LeftOut(g, e, input) + 1) as real
  {
    hide Snapshot.Valid, Snapshot.Edges, Scaled, Ceil, LeftOut, RelationAverageDegree, TotalShortfall, ReachedFrom;
    EmittedAndLeftOut(g, e, input);
    EdgesAndShortfall(g, e, |input|);
    CeilReaches(|ReachedFrom(g.Flatten(), e, input)|, Scaled(|input|, RelationAverageDegree(g, e)));
  }

  /** In every layer: no throwing append left an empty list, and each edge starts at a node of the input. */
  ghost predicate Covered(g: Snapshot, e: EdgeType, input: seq<NodeId>)
    requires g.Valid() && g.HasEdge(e)
  {
    g.UnfoldEdge(e);
    && Tight(g.data.edges[e].outgoing)
    && (forall source :: source in g.data.edges[e].sources ==> source in input)
    && (g.parent.Some? ==> Covered(g.parent.value, e, input))
  }

  lemma KeysInInput(t: EdgeTable, input: seq<NodeId>)
    requires t.Linked() && Tight(t.outgoing) && forall source :: source in t.sources ==> source in input
    ensures |t.outgoing| <= |input|
  {
    var keys := t.outgoing.Keys;
    forall k | k in keys
      ensures k in input
    {
      InvertedLookup(t.outgoing, t.sources, t.idBase, k);
      assert t.outgoing[k][0] in Lookup(t.outgoing, k);
    }
    SubsetOfSequence(keys, input);
  }

  lemma {:induction false} SubsetOfSequence(keys: set<NodeId>, s: seq<NodeId>)
    requires forall k :: k in keys ==> k in s
    ensures |keys| <= |s|
  {
    if s == [] {
      assert keys == {};
    } else {
      SubsetOfSequence(keys - {s[|s| - 1]}, s[..|s| - 1]);
    }
  }

  /** With at least as many inputs as keys nothing is missed. */
  lemma NoShortfall(s: DegreeStatistics, n: nat)
    requires s.sourceCount <= n
    ensures Shortfall(s, n) <= 0.0
  {
    if s.sourceCount > 0 {
      var missed, count := s.edgeCount as real * (s.sourceCount - n) as real, s.sourceCount as real;
      assert missed <= 0.0;
      assert Shortfall(s, n) * count == missed;
    }
  }

  lemma {:induction false} CoveredShortfall(g: Snapshot, e: EdgeType, input: seq<NodeId>)
    requires g.Valid() && g.HasEdge(e) && Covered(g, e, input)
    ensures TotalShortfall(g, e, |input|) <= 0.0
  {
    hide GraphTable.Valid, GraphTable.Ready, BasesMatch, Attached, TypedColumns, EdgeTable.Linked, Shortfall;
    g.UnfoldEdge(e);
    KeysInInput(g.data.edges[e], input);
    NoShortfall(g.data.edges[e].statistics, |input|);
    if g.parent.None? {
    } else {
      CoveredShortfall(g.parent.value, e, input);
    }
  }

  /** An input that holds every source of layers without leftover lists never outgrows the reserved capacity. */
  lemma EstimateBoundsTraversal(g: Snapshot, e: EdgeType, input: seq<NodeId>)
    requires g.Valid() && g.HasEdge(e) && NoDuplicates(input) && Covered(g, e, input)
    ensures |ReachedFrom(g.Flatten(), e, input)| <= EstimateTraversalCardinality(g, e, |input|)
  {
    hide Snapshot.Valid, Covered, ReachedFrom, EstimateTraversalCardinality, TotalShortfall, LeftOut;
    CoveredShortfall(g, e, input);
    EstimateSufficesExactly(g, e, input);
  }

  // ---- One layer and its real sources ----

  function SourcesOf(t: EdgeTable): set<NodeId> {
    set source | source in t.sources
  }

  lemma ListOfSource(t: EdgeTable, k: NodeId)
    requires t.Linked()
    ensures Exactly(Lookup(t.outgoing, k), t.sources, t.idBase, k)
  {
    InvertedLookup(t.outgoing, t.sources, t.idBase, k);
  }

  lemma SourceListed(t: EdgeTable, k: NodeId)
    requires t.Linked()
    ensures k in SourcesOf(t) <==> Lookup(t.outgoing, k) != []
  {
    hide EdgeTable.Linked, Lookup;
    ListOfSource(t, k);
    if k in t.sources {
      var i :| 0 <= i < |t.sources| && t.sources[i] == k;
      assert t.idBase + i in Lookup(t.outgoing, k);
    }
    if Lookup(t.outgoing, k) != [] {
      assert Lookup(t.outgoing, k)[0] in Lookup(t.outgoing, k);
    }
  }

  /** Without a leftover list the keys are the sources; each leftover list is a key too many. */
  lemma KeysAreSources(t: EdgeTable)
    requires t.Linked()
    ensures SourcesOf(t) <= t.outgoing.Keys && (Tight(t.outgoing) <==> SourcesOf(t) == t.outgoing.Keys)
    ensures |SourcesOf(t)| <= |t.outgoing| && (Tight(t.outgoing) <==> |SourcesOf(t)| == |t.outgoing|)
  {
    hide EdgeTable.Linked;
    forall k: NodeId
      ensures k in SourcesOf(t) <==> Lookup(t.outgoing, k) != []
    {
      SourceListed(t, k);
    }
    SubsetSize(SourcesOf(t), t.outgoing.Keys);
  }

  lemma SubsetSize(a: set<NodeId>, b: set<NodeId>)
    requires a <= b
    ensures |a| <= |b| && (|a| == |b| <==> a == b)
  {
    assert b == a + (b - a);
    assert b - a == {} ==> a == b;
  }

  /**
    * The average times the number of real sources covers a layer's edges exactly if no list was left over;
    * rounded up, exactly if the leftover keys, each weighing as much as the layer's edges, weigh less than all keys.
    */
  lemma LayerBoundExactly(t: EdgeTable)
    requires t.Valid() && t.statisticsReady && t.size > 0
    ensures var n, average := |SourcesOf(t)|, t.statistics.averageOutDegree;
      && (t.size as real <= Scaled(n, average) <==> Tight(t.outgoing))
      && (t.size <= Ceil(Scaled(n, average)) <==> (|t.outgoing| - n) * t.size < |t.outgoing|)
  {
    hide TypedColumns, Ceil, Scaled;
    KeysAreSources(t);
    assert t.sources[0] in SourcesOf(t);
    var n, count := |SourcesOf(t)|, |t.outgoing|;
    LayerShortfall(t, n);
    ShortfallBelowOne(t.statistics, n);
    CeilReaches(t.size, Scaled(n, t.statistics.averageOutDegree));
  }

  lemma ShortfallBelowOne(s: DegreeStatistics, n: nat)
    requires s.sourceCount > 0 && s.edgeCount > 0
    ensures Shortfall(s, n) <= 0.0 <==> s.sourceCount <= n
    ensures Shortfall(s, n) < 1.0 <==> (s.sourceCount - n) * s.edgeCount < s.sourceCount
  {
    var missed := (s.sourceCount - n) * s.edgeCount;
    assert s.edgeCount as real * (s.sourceCount - n) as real == missed as real;
    assert Shortfall(s, n) == missed as real / s.sourceCount as real;
    QuotientSide(missed, s.sourceCount);
    ProductSide(s.sourceCount - n, s.edgeCount);
  }

  lemma QuotientSide(p: int, count: nat)
    requires count > 0
    ensures p as real / count as real <= 0.0 <==> p <= 0
    ensures p as real / count as real < 1.0 <==> p < count
  {
    var q := p as real / count as real;
    assert q * count as real == p as real;
  }

  lemma ProductSide(x: int, y: nat)
    requires y > 0
    ensures x * y <= 0 <==> x <= 0
  {
  }

  // ---- A leftover list that makes the estimate too small ----

  function Repeated(node: NodeId, n: nat): seq<NodeId> {
    seq(n, i => node)
  }

  /** All `n` edges lead from the second node to the first, and the first is a key without edges. */
  ghost predicate Fan(t: EdgeTable, n: nat) {
    && t.idBase == 0 && t.size == n && t.properties == [] && t.columns == map[]
    && t.sources == Repeated(1, n) && t.targets == Repeated(0, n)
    && t.outgoing == if n == 0 then map[0 := []] else map[0 := [], 1 := Ids(0, n)]
  }

  /** The first append runs out of memory between its key and its list. */
  lemma FanBegins(after: EdgeTable, outcome: Outcome<EdgeId>)
    requires AppendOutcome(EmptyEdges([], 0), after, 0, 0, [], 3, outcome)
    ensures Fan(after, 0)
  {
  }

  lemma FanGrows(before: EdgeTable, after: EdgeTable, outcome: Outcome<EdgeId>, n: nat)
    requires Fan(before, n) && n < INVALID_32 && AppendOutcome(before, after, 1, 0, [], 6, outcome)
    ensures Fan(after, n + 1)
  {
    assert Ids(0, n + 1) == Ids(0, n) + [n];
  }

  method AppendEdges(delta: DeltaStore, n: nat)
    requires delta.Valid() && delta.schema == OneRelation() && n < INVALID_32
    requires PERSON in delta.nodes && Nodes(delta.nodes[PERSON], 0, 2, 0)
    requires KNOWS in delta.edges && delta.edges[KNOWS] == EmptyEdges([], 0)
    modifies delta
    ensures delta.Valid() && delta.nodes == old(delta.nodes)
    ensures KNOWS in delta.edges && Fan(delta.edges[KNOWS], n)
  {
    hide GraphTable.Valid, GraphTable.EdgeGuard, EdgeTable.Valid, Schema.WellFormed, Nodes, Fan, AppendOutcome;
    NodesJoin(delta.View(), 0);
    var threw := delta.AppendEdge(KNOWS, 0, 0, [], 3);
    FanBegins(delta.edges[KNOWS], threw);
    for i := 0 to n
      invariant delta.Valid() && delta.nodes == old(delta.nodes)
      invariant KNOWS in delta.edges && Fan(delta.edges[KNOWS], i)
    {
      ghost var before := delta.edges[KNOWS];
      NodesJoin(delta.View(), 1);
      FanShape(before, i);
      var appended := delta.AppendEdge(KNOWS, 1, 0, [], 6);
      FanGrows(before, delta.edges[KNOWS], appended, i);
    }
  }

  lemma NodesJoin(g: GraphTable, source: NodeId)
    requires PERSON in g.nodes && Nodes(g.nodes[PERSON], 0, 2, 0) && source < 2
    ensures g.EdgeGuard(KNOWS, source, 0).None?
  {
  }

  lemma FanShape(t: EdgeTable, n: nat)
    requires Fan(t, n)
    ensures t.properties == [] && t.columns == map[]
  {
  }

  /** A step from the only node with edges emits all of them, but only half of them were estimated. */
  lemma FanOutgrows(g: Snapshot, n: nat)
    requires g.Valid() && g.parent.None? && g.schema == OneRelation() && g.worldline == g.validAt == g.knownAt == 0
    requires PERSON in g.data.nodes && Nodes(g.data.nodes[PERSON], 0, 2, 0)
    requires KNOWS in g.data.edges && Fan(g.data.edges[KNOWS], n) && n > 0
    ensures g.HasEdge(KNOWS) && !Tight(g.data.edges[KNOWS].outgoing)
    ensures |ReachedFrom(g.Flatten(), KNOWS, [1])| == n
    ensures EstimateTraversalCardinality(g, KNOWS, 1) == (n + 1) / 2
  {
    hide Snapshot.Valid, NodeTable.Valid, EdgeTable.Linked, ReachedFrom;
    g.UnfoldEdge(KNOWS);
    FanEmitted(g, n);
    var t := g.data.edges[KNOWS];
    assert 0 in t.outgoing && |t.outgoing| == 2;
    assert t.statistics.averageOutDegree == n as real / 2.0;
    HalfRoundedUp(n);
  }

  lemma FanEmitted(g: Snapshot, n: nat)
    requires g.Valid() && g.parent.None? && g.schema == OneRelation() && g.worldline == g.validAt == g.knownAt == 0
    requires PERSON in g.data.nodes && Nodes(g.data.nodes[PERSON], 0, 2, 0)
    requires KNOWS in g.data.edges && Fan(g.data.edges[KNOWS], n)
    ensures g.HasEdge(KNOWS) && |ReachedFrom(g.Flatten(), KNOWS, [1])| == n
  {
    hide Snapshot.Valid, Snapshot.Rows, NodeTable.Valid, EdgeTable.Linked, ReachedFrom, Nodes, Fan;
    g.UnfoldEdge(KNOWS);
    FirstNodeVisible(g);
    FanEdges(g.data.edges[KNOWS], n);
    assert g.Edges(KNOWS) == LocalEdges(g.data.edges[KNOWS]);
    CountNone(g.Edges(KNOWS), NotFollowed(g.Rows(PERSON), [1]));
    EmittedAndLeftOut(g, KNOWS, [1]);
  }

  lemma FirstNodeVisible(g: Snapshot)
    requires g.Valid() && g.schema == OneRelation() && g.worldline == g.validAt == g.knownAt == 0
    requires PERSON in g.data.nodes && Nodes(g.data.nodes[PERSON], 0, 2, 0)
    ensures g.HasTag(PERSON) && IsVisible(g.Rows(PERSON), 0)
  {
    hide Snapshot.Valid, Snapshot.Rows, NodeTable.Valid;
    g.Unfold(PERSON);
    VisibilityIsFlat(g, PERSON, 0);
  }

  lemma FanEdges(t: EdgeTable, n: nat)
    requires t.Linked() && Fan(t, n)
    ensures |LocalEdges(t)| == n && forall edge :: edge in LocalEdges(t) ==> edge.source == 1 && edge.target == 0
  {
    hide Inverts;
  }

  lemma HalfRoundedUp(n: nat)
    ensures Ceil(Scaled(1, n as real / 2.0)) == (n + 1) / 2
  {
    var half := (n + 1) / 2;
    assert 2 * half == n || 2 * half == n + 1;
    assert Scaled(1, n as real / 2.0) == n as real / 2.0;
    CeilReaches(half, n as real / 2.0);
    CeilReaches(half + 1, n as real / 2.0);
  }

  /** After one append that threw, `n` edges can be stored and published for which half the capacity is reserved. */
  method LooseSnapshot(generation: Id64, n: nat) returns (r: Result<Snapshot>)
    requires generation != INVALID_64 && 0 < n < INVALID_32
    ensures r.Ok? && r.value.Valid() && r.value.HasEdge(KNOWS) && KNOWS in r.value.data.edges
    ensures !Tight(r.value.data.edges[KNOWS].outgoing)
    ensures |ReachedFrom(r.value.Flatten(), KNOWS, [1])| == n
    ensures EstimateTraversalCardinality(r.value, KNOWS, 1) == (n + 1) / 2
  {
    hide GraphTable.Valid, GraphTable.Ready, NodeTable.Valid, EdgeTable.Valid, Schema.WellFormed, ReachedFrom;
    OneRelationWellFormed();
    var delta := new DeltaStore(OneRelation(), None);
    AppendNodes(delta, 0, 2, 0);
    AppendEdges(delta, n);
    ghost var before := delta.View();
    r := Publish(generation, 0, 0, 0, delta);
    assert before.nodes[PERSON].Data() == delta.View().nodes[PERSON].Data();
    assert SameEdges(before.edges[KNOWS], delta.View().edges[KNOWS]);
    FanOutgrows(r.value, n);
  }
}
