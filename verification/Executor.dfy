/** The executor: loops over identifier lists, with cost decisions that never change an answer. */
module Executors {
  import opened Common
  import opened Sequences
  import opened Values
  import opened StableSorts
  import opened NodeTables
  import opened DeltaStores
  import opened FlatGraphs
  import opened Snapshots
  import opened SnapshotQueries
  import opened Queries
  import opened Optimizers

  // ---- Index candidates ----

  function Among(ids: seq<NodeId>): NodeId -> bool {
    (id: NodeId) => id in ids
  }

  /** Intersect with the indexed candidates only if that is the shorter list. */
  method RetainSmallerCandidateSet(input: seq<NodeId>, indexed: seq<NodeId>) returns (result: seq<NodeId>)
    ensures result == if |indexed| >= |input| then input else Filter(input, Among(indexed))
  {
    if |indexed| >= |input| {
      return input;
    }
    var selected := set id | id in indexed;
    result := [];
    for i := 0 to |input|
      invariant result == Filter(input[..i], Among(indexed))
    {
      assert input[..i + 1][..i] == input[..i];
      if input[i] in selected {
        result := result + [input[i]];
      }
    }
    assert input[..|input|] == input;
  }

  predicate ShouldUsePropertyIndex(estimate: nat, inputSize: nat) {
    estimate as real < inputSize as real * 0.8
  }

  /** The index is used where it promises to leave less than four fifths. */
  lemma UsesIndexBelowFourFifths(estimate: nat, inputSize: nat)
    ensures ShouldUsePropertyIndex(estimate, inputSize) <==> 5 * estimate < 4 * inputSize
  {
  }

  /** Every identifier of the list is visible in the snapshot. */
  ghost predicate AllVisible(g: Snapshot, tag: Tag, ids: seq<NodeId>)
    requires g.Valid() && g.HasTag(tag)
  {
    forall id :: id in ids ==> IsVisible(g.Rows(tag), id)
  }

  /** Whatever the estimate says, what narrowing removes is only what the predicate rejects. */
  method Narrow(g: Snapshot, tag: Tag, p: Predicate, estimate: nat, input: seq<NodeId>) returns (r: Result<seq<NodeId>>)
    requires g.Valid() && g.HasTag(tag) && p.key in KeysOf(g.schema.nodeProperties[tag])
    requires AllVisible(g, tag, input)
    ensures r.Ok? && (r.value == input || r.value == Filter(input, Satisfies(g.Rows(tag), p.key, p.op, p.value)))
  {
    hide Snapshot.Valid, Snapshot.Rows, Snapshot.Edges, Snapshot.CheckVisibility, Snapshot.Property;
    if ShouldUsePropertyIndex(estimate, |input|) {
      var indexed := PropertyCandidates(g, tag, p.key, p.op, p.value);
      if indexed.Err? {
        return indexed;
      }
      var smaller := RetainSmallerCandidateSet(input, indexed.value);
      CandidatesAreMatches(g, tag, p, input);
      return Ok(smaller);
    }
    return Ok(input);
  }

  lemma CandidatesAreMatches(g: Snapshot, tag: Tag, p: Predicate, input: seq<NodeId>)
    requires g.Valid() && g.HasTag(tag) && AllVisible(g, tag, input)
    ensures Filter(input, Among(MatchingCandidates(g.Rows(tag), p.key, p.op, p.value)))
         == Filter(input, Satisfies(g.Rows(tag), p.key, p.op, p.value))
  {
    hide Snapshot.Valid, Snapshot.Rows, Snapshot.Edges, Snapshot.CheckVisibility, Snapshot.Property;
    var rows, sat := g.Rows(tag), Satisfies(g.Rows(tag), p.key, p.op, p.value);
    RowsPartition(g, tag);
    VisibleIdsExactly(rows, g.RowBase(tag));
    forall id | id in input ensures Among(MatchingCandidates(rows, p.key, p.op, p.value))(id) == sat(id) {
      FilterMember(VisibleIds(rows), sat, id);
    }
    FilterAgree(input, Among(MatchingCandidates(rows, p.key, p.op, p.value)), sat);
  }

  // ---- Filters ----

  function SpecOf(properties: seq<PropertySpec>, key: Key): PropertySpec
    requires key in KeysOf(properties)
    ensures SpecOf(properties, key) in properties && SpecOf(properties, key).key == key
  {
    if properties[0].key == key then properties[0] else SpecOf(properties[1..], key)
  }

  method EvaluateWhere(g: Snapshot, tag: Tag, p: Predicate, input: seq<NodeId>) returns (r: Result<seq<NodeId>>)
    requires g.Valid() && g.HasTag(tag) && p.key in KeysOf(g.schema.nodeProperties[tag])
    requires AllVisible(g, tag, input)
    ensures r == Ok(Filter(input, Satisfies(g.Rows(tag), p.key, p.op, p.value)))
  {
    hide Snapshot.Valid, Snapshot.Rows, Snapshot.Edges, Snapshot.CheckVisibility, Snapshot.Property;
    var spec := SpecOf(g.schema.nodeProperties[tag], p.key);
    var estimate := EstimatePropertyCandidates(g, tag, spec, p.op, p.value);
    match estimate {
      case Err(error) => return Err(error);
      case Ok(_) =>
    }
    var narrowed := Narrow(g, tag, p, estimate.value, input);
    if narrowed.Err? {
      return narrowed;
    }
    var candidates := narrowed.value;
    ghost var keep := Satisfies(g.Rows(tag), p.key, p.op, p.value);
    FilterFilter(input, keep, keep);
    FilterVisible(g, tag, input, keep);
    var output := [];
    for i := 0 to |candidates|
      invariant output == Filter(candidates[..i], keep)
    {
      var id := candidates[i];
      assert candidates[..i + 1][..i] == candidates[..i];
      ReadsVisible(g, tag, p.key, id);
      match g.Property(tag, p.key, id) {
        case Err(error) => return Err(error);
        case Ok(property) =>
          if Compare(p.op, property, p.value) {
            output := output + [id];
          }
      }
    }
    assert candidates[..|candidates|] == candidates;
    return Ok(output);
  }

  lemma FilterVisible(g: Snapshot, tag: Tag, input: seq<NodeId>, keep: NodeId -> bool)
    requires g.Valid() && g.HasTag(tag) && AllVisible(g, tag, input)
    ensures AllVisible(g, tag, Filter(input, keep))
  {
    forall id | id in Filter(input, keep) ensures IsVisible(g.Rows(tag), id) {
      FilterMember(input, keep, id);
    }
  }

  /** A visible identifier has its property, and it is the flat row's. */
  lemma ReadsVisible(g: Snapshot, tag: Tag, key: Key, id: NodeId)
    requires g.Valid() && g.HasTag(tag) && key in KeysOf(g.schema.nodeProperties[tag])
    requires IsVisible(g.Rows(tag), id)
    ensures g.Property(tag, key, id) == Ok(ValueOf(g.Rows(tag), key, id))
  {
    VisibilityIsFlat(g, tag, id);
    PropertyIsFlat(g, tag, key, id);
  }

  // ---- Fused filters ----

  ghost predicate KeysKnown(g: Snapshot, tag: Tag, ps: seq<Predicate>)
    requires g.HasTag(tag)
  {
    forall p :: p in ps ==> p.key in KeysOf(g.schema.nodeProperties[tag])
  }

  /** Narrow by each predicate in turn; each decision sees the list left by the ones before. */
  method ApplyIndexCandidates(g: Snapshot, tag: Tag, ps: seq<Predicate>, index: nat, input: seq<NodeId>)
    returns (r: Result<seq<NodeId>>)
    requires g.Valid() && g.HasTag(tag) && KeysKnown(g, tag, ps) && index <= |ps|
    requires AllVisible(g, tag, input)
    ensures r.Ok? && AllVisible(g, tag, r.value)
    ensures Filter(r.value, SatisfiesAll(g.Rows(tag), ps)) == Filter(input, SatisfiesAll(g.Rows(tag), ps))
    decreases |ps| - index
  {
    hide Snapshot.Valid, Snapshot.Rows, Snapshot.Edges, Snapshot.CheckVisibility, Snapshot.Property;
    if index == |ps| {
      return Ok(input);
    }
    var p := ps[index];
    var spec := SpecOf(g.schema.nodeProperties[tag], p.key);
    var estimate := EstimatePropertyCandidates(g, tag, spec, p.op, p.value);
    match estimate {
      case Err(error) => return Err(error);
      case Ok(_) =>
    }
    var narrowed := Narrow(g, tag, p, estimate.value, input);
    if narrowed.Err? {
      return narrowed;
    }
    var one, all := Satisfies(g.Rows(tag), p.key, p.op, p.value), SatisfiesAll(g.Rows(tag), ps);
    FilterFilter(input, one, all);
    FilterVisible(g, tag, input, one);
    r := ApplyIndexCandidates(g, tag, ps, index + 1, narrowed.value);
  }

  function MatchesPredicate(g: Snapshot, tag: Tag, id: NodeId, p: Predicate): Result<bool>
    requires g.Valid() && g.HasTag(tag) && p.key in KeysOf(g.schema.nodeProperties[tag])
  {
    match g.Property(tag, p.key, id)
    case Err(error) => Err(error)
    case Ok(property) => Ok(Compare(p.op, property, p.value))
  }

  /** Predicate by predicate, stopping at the first error or the first that fails. */
  function MatchesAll(g: Snapshot, tag: Tag, id: NodeId, ps: seq<Predicate>, index: nat): Result<bool>
    requires g.Valid() && g.HasTag(tag) && KeysKnown(g, tag, ps) && index <= |ps|
    decreases |ps| - index
  {
    if index == |ps| then Ok(true) else
    var matches := MatchesPredicate(g, tag, id, ps[index]);
    if matches != Ok(true) then matches else MatchesAll(g, tag, id, ps, index + 1)
  }

  lemma {:induction false} MatchesAllVisible(g: Snapshot, tag: Tag, id: NodeId, ps: seq<Predicate>, index: nat)
    requires g.Valid() && g.HasTag(tag) && KeysKnown(g, tag, ps) && index <= |ps|
    requires IsVisible(g.Rows(tag), id)
    ensures MatchesAll(g, tag, id, ps, index)
         == Ok(forall i | index <= i < |ps| :: Satisfies(g.Rows(tag), ps[i].key, ps[i].op, ps[i].value)(id))
    decreases |ps| - index
  {
    hide Snapshot.Valid, Snapshot.Rows, Snapshot.Edges, Snapshot.CheckVisibility, Snapshot.Property;
    if |ps| <= index {
    } else {
      ReadsVisible(g, tag, ps[index].key, id);
      MatchesAllVisible(g, tag, id, ps, index + 1);
    }
  }

  lemma MatchesAllKept(g: Snapshot, tag: Tag, id: NodeId, ps: seq<Predicate>)
    requires g.Valid() && g.HasTag(tag) && KeysKnown(g, tag, ps) && IsVisible(g.Rows(tag), id)
    ensures MatchesAll(g, tag, id, ps, 0) == Ok(SatisfiesAll(g.Rows(tag), ps)(id))
  {
    hide Snapshot.Valid, Snapshot.Rows, Snapshot.Edges, Snapshot.CheckVisibility, Snapshot.Property;
    MatchesAllVisible(g, tag, id, ps, 0);
  }

  method EvaluateFusedWhere(g: Snapshot, tag: Tag, ps: seq<Predicate>, input: seq<NodeId>)
    returns (r: Result<seq<NodeId>>)
    requires g.Valid() && g.HasTag(tag) && KeysKnown(g, tag, ps) && AllVisible(g, tag, input)
    ensures r == Ok(Filter(input, SatisfiesAll(g.Rows(tag), ps)))
  {
    hide Snapshot.Valid, MatchesAll, Satisfies;
    var narrowed := ApplyIndexCandidates(g, tag, ps, 0, input);
    if narrowed.Err? {
      return narrowed;
    }
    var candidates := narrowed.value;
    ghost var keep := SatisfiesAll(g.Rows(tag), ps);
    var output := [];
    for i := 0 to |candidates|
      invariant output == Filter(candidates[..i], keep)
    {
      var id := candidates[i];
      assert candidates[..i + 1][..i] == candidates[..i];
      MatchesAllKept(g, tag, id, ps);
      match MatchesAll(g, tag, id, ps, 0) {
        case Err(error) => return Err(error);
        case Ok(matches) =>
          if matches {
            output := output + [id];
          }
      }
    }
    assert candidates[..|candidates|] == candidates;
    return Ok(output);
  }

  // ---- Traversal, ranking, projection ----

  /** Every kept edge is found again by its identifier. */
  lemma KeptTarget(g: Snapshot, e: EdgeType, keep: FlatEdge -> bool, i: nat)
    requires g.Valid() && g.HasEdge(e) && i < |Filter(g.Edges(e), keep)|
    ensures g.EdgeTarget(e, Filter(g.Edges(e), keep)[i].id) == Ok(Filter(g.Edges(e), keep)[i].target)
  {
    hide Snapshot.Valid, Snapshot.Edges, Snapshot.EdgeBaseOf, Snapshot.EdgeTarget;
    EdgesPartition(g, e);
    KeptEdgeAt(g.Edges(e), g.EdgeBaseOf(e), keep, i);
    EdgeTargetIsFlat(g, e, Filter(g.Edges(e), keep)[i].id);
  }

  lemma KeptEdgeAt(edges: seq<FlatEdge>, base: nat, keep: FlatEdge -> bool, i: nat)
    requires EdgesFrom(edges, base) && i < |Filter(edges, keep)|
    ensures var edge := Filter(edges, keep)[i];
      base <= edge.id < base + |edges| && edges[edge.id - base] == edge
  {
    var edge := Filter(edges, keep)[i];
    FilterMember(edges, keep, edge);
    var j :| 0 <= j < |edges| && edges[j] == edge;
  }

  /** Targets of one node's visible edges, appended to the output. */
  method FollowEdges(g: Snapshot, e: EdgeType, source: NodeId, input: seq<NodeId>) returns (r: Result<seq<NodeId>>)
    requires g.Valid() && g.HasEdge(e) && g.HasTag(e.source) && g.HasTag(e.target)
    requires IsVisible(g.Rows(e.source), source)
    ensures r == Ok(input + Map(Filter(g.Edges(e), Leaves(g.Rows(e.target), source)), TargetOf()))
  {
    hide Snapshot.Valid, Snapshot.Rows, Snapshot.Edges, Snapshot.CheckVisibility, Snapshot.Property;
    VisibilityIsFlat(g, e.source, source);
    var edges := Outgoing(g, e, source);
    match edges {
      case Err(error) => return Err(error);
      case Ok(_) =>
    }
    ghost var kept := Filter(g.Edges(e), Leaves(g.Rows(e.target), source));
    var output := input;
    for i := 0 to |edges.value|
      invariant output == input + Map(kept[..i], TargetOf())
    {
      KeptTarget(g, e, Leaves(g.Rows(e.target), source), i);
      match g.EdgeTarget(e, edges.value[i]) {
        case Err(error) => return Err(error);
        case Ok(target) => output := output + [target];
      }
      assert kept[..i + 1] == kept[..i] + [kept[i]];
    }
    assert kept[..|edges.value|] == kept;
    return Ok(output);
  }

  method EvaluateTraverse(g: Snapshot, e: EdgeType, input: seq<NodeId>) returns (r: Result<seq<NodeId>>)
    requires g.Valid() && g.HasEdge(e) && g.HasTag(e.source) && AllVisible(g, e.source, input)
    ensures r == Ok(ReachedFrom(g.Flatten(), e, input))
  {
    hide Snapshot.Valid, Snapshot.Rows, Snapshot.Edges, Snapshot.CheckVisibility, Snapshot.Property;
    FlattenEdges(g, e);
    FlattenAt(g, e.target);
    var output := [];
    for i := 0 to |input|
      invariant output == ReachedFrom(g.Flatten(), e, input[..i])
    {
      assert input[..i + 1][..i] == input[..i];
      var followed := FollowEdges(g, e, input[i], output);
      if followed.Err? {
        return followed;
      }
      output := followed.value;
    }
    assert input[..|input|] == input;
    return Ok(output);
  }

  method EvaluateTopK(g: Snapshot, tag: Tag, count: nat, order: Order, input: seq<NodeId>)
    returns (r: Result<seq<NodeId>>)
    requires g.Valid() && g.HasTag(tag) && order.key in KeysOf(g.schema.nodeProperties[tag])
    requires AllVisible(g, tag, input)
    ensures r == Ok(Top(g.Rows(tag), input, count, order))
  {
    hide Snapshot.Valid, Snapshot.Rows, Snapshot.Edges, Snapshot.CheckVisibility, Snapshot.Property;
    var ranked: seq<Ranked> := [];
    for i := 0 to |input|
      invariant ranked == Map(input[..i], WithKey(g.Rows(tag), order.key))
    {
      assert input[..i + 1] == input[..i] + [input[i]];
      ReadsVisible(g, tag, order.key, input[i]);
      match g.Property(tag, order.key, input[i]) {
        case Err(error) => return Err(error);
        case Ok(property) => ranked := ranked + [(input[i], property)];
      }
    }
    assert input[..|input|] == input;
    ranked := SortStably(ranked, ByKey(order.direction));
    if |ranked| > count {
      ranked := ranked[..count];
    }
    var output := [];
    for i := 0 to |ranked|
      invariant output == Map(ranked[..i], RankedId())
    {
      assert ranked[..i + 1] == ranked[..i] + [ranked[i]];
      output := output + [ranked[i].0];
    }
    assert ranked[..|ranked|] == ranked;
    return Ok(output);
  }

  // ---- Evaluation ----

  /** Every step passes on visible identifiers only, so lookups further up the pipeline cannot fail. */
  lemma {:induction false} OnlyVisibleFlow(g: Snapshot, e: Expr)
    requires g.Valid() && TypeOf(g.schema, e).Some? && g.HasTag(e.NodeTag())
    ensures AllVisible(g, e.NodeTag(), NaiveIds(g.Flatten(), e))
  {
    hide Snapshot.Valid, Snapshot.Rows, Snapshot.Edges, Snapshot.CheckVisibility, Snapshot.Property;
    FlattenAt(g, e.NodeTag());
    var rows := g.Rows(e.NodeTag());
    if e.Source? {
      RowsPartition(g, e.tag);
      VisibleIdsExactly(rows, g.RowBase(e.tag));
    } else {
      TypeTag(g.schema, e.previous);
      OnlyVisibleFlow(g, e.previous);
      var ids := NaiveIds(g.Flatten(), e.previous);
      match e
      case Where(_, p) => FilterVisible(g, e.NodeTag(), ids, Satisfies(rows, p.key, p.op, p.value));
      case FusedWhere(_, ps) => FilterVisible(g, e.NodeTag(), ids, SatisfiesAll(rows, ps));
      case Traverse(q, relation, target) => ReachesVisible(g, EdgeType(q.NodeTag(), relation, target), ids);
      case TopK(_, count, order) => TopMembers(rows, ids, count, order);
      case _ =>
    }
  }

  lemma {:induction false} ReachesVisible(g: Snapshot, e: EdgeType, sources: seq<NodeId>)
    requires g.Valid() && g.HasEdge(e) && g.HasTag(e.target)
    ensures AllVisible(g, e.target, ReachedFrom(g.Flatten(), e, sources))
  {
    hide Snapshot.Valid, Snapshot.Rows, Snapshot.Edges, Snapshot.CheckVisibility, Snapshot.Property;
    FlattenEdges(g, e);
    FlattenAt(g, e.target);
    if sources == [] {
    } else {
      var n := |sources| - 1;
      ReachesVisible(g, e, sources[..n]);
      var kept := Filter(g.Edges(e), Leaves(g.Rows(e.target), sources[n]));
      forall edge | edge in kept ensures IsVisible(g.Rows(e.target), edge.target) {
        FilterMember(g.Edges(e), Leaves(g.Rows(e.target), sources[n]), edge);
      }
    }
  }

  lemma TopMembers(rows: seq<FlatRow>, ids: seq<NodeId>, count: nat, order: Order)
    ensures forall id :: id in Top(rows, ids, count, order) ==> id in ids
  {
    var ranked := Map(ids, WithKey(rows, order.key));
    var sorted := StableSort(ranked, ByKey(order.direction));
    SortMembers(ranked, ByKey(order.direction));
    forall id | id in Top(rows, ids, count, order) ensures id in ids {
      var i :| 0 <= i < |Take(sorted, count)| && Take(sorted, count)[i].0 == id;
      assert sorted[i] in sorted;
      assert sorted[i] in ranked;
    }
  }

  lemma {:induction false} SortMembers<T>(s: seq<T>, before: (T, T) -> bool)
    ensures forall x :: x in StableSort(s, before) ==> x in s
  {
    if s == [] {
    } else {
      var n := |s| - 1;
      SortMembers(s[..n], before);
      var rest := StableSort(s[..n], before);
      InsertElements(rest, s[n], before);
      forall x | x in StableSort(s, before) ensures x in s {
        assert x in multiset(Insert(rest, s[n], before));
        assert x == s[n] || x in multiset(rest);
        assert x in rest ==> x in s[..n];
      }
    }
  }

  /** Evaluation over layers, indices and estimates is the naive scan of the flattened chain. */
  method Evaluate(g: Snapshot, e: Expr) returns (r: Result<seq<NodeId>>)
    requires g.Valid() && TypeOf(g.schema, e).Some?
    ensures r == NaiveEvaluate(g.Flatten(), e)
    decreases e
  {
    hide Snapshot.Valid, Snapshot.Rows, Snapshot.Edges, Snapshot.CheckVisibility, Snapshot.Property;
    TypeTag(g.schema, e);
    FlattenAt(g, e.NodeTag());
    match e {
      case Source(tag) =>
        r := SourceCandidates(g, tag);
        return;
      case ActiveAt(_, time) =>
        if time != g.validAt {
          return Err(NOT_ACTIVE);
        }
      case KnownAt(_, time) =>
        if time != g.knownAt {
          return Err(NOT_KNOWN);
        }
      case InWorldline(_, w) =>
        if w != g.worldline {
          return Err(NOT_HERE);
        }
      case _ =>
    }
    TypeTag(g.schema, e.previous);
    OnlyVisibleFlow(g, e.previous);
    var input := Evaluate(g, e.previous);
    if input.Err? {
      return input;
    }
    r := Step(g, e, input.value);
  }

  /** One step above the source, applied to the identifiers of the step below. */
  method Step(g: Snapshot, e: Expr, input: seq<NodeId>) returns (r: Result<seq<NodeId>>)
    requires g.Valid() && TypeOf(g.schema, e).Some? && !e.Source?
    requires g.HasTag(e.previous.NodeTag()) && AllVisible(g, e.previous.NodeTag(), input)
    requires input == NaiveIds(g.Flatten(), e.previous)
    ensures r == Ok(NaiveIds(g.Flatten(), e))
  {
    hide Snapshot.Valid, Snapshot.Rows, Snapshot.Edges, Snapshot.CheckVisibility, Snapshot.Property;
    var tag := e.previous.NodeTag();
    TypeTag(g.schema, e.previous);
    FlattenAt(g, tag);
    match e {
      case Where(_, p) => r := EvaluateWhere(g, tag, p, input);
      case FusedWhere(_, ps) => r := EvaluateFusedWhere(g, tag, ps, input);
      case Traverse(_, relation, target) => r := EvaluateTraverse(g, EdgeType(tag, relation, target), input);
      case TopK(_, count, order) => r := EvaluateTopK(g, tag, count, order, input);
      case Limit(_, count) => return Ok(if |input| > count then input[..count] else input);
      case _ => return Ok(input);
    }
  }

  // ---- Results ----

  function ReadProjection(g: Snapshot, tag: Tag, id: NodeId, keys: seq<Key>): Result<seq<Value>>
    requires g.Valid() && g.HasTag(tag) && forall key :: key in keys ==> key in KeysOf(g.schema.nodeProperties[tag])
  {
    if keys == [] then Ok([]) else
    match g.Property(tag, keys[0], id)
    case Err(error) => Err(error)
    case Ok(first) =>
      match ReadProjection(g, tag, id, keys[1..])
      case Err(error) => Err(error)
      case Ok(rest) => Ok([first] + rest)
  }

  lemma {:induction false} ReadsProjection(g: Snapshot, tag: Tag, id: NodeId, keys: seq<Key>)
    requires g.Valid() && g.HasTag(tag) && forall key :: key in keys ==> key in KeysOf(g.schema.nodeProperties[tag])
    requires IsVisible(g.Rows(tag), id)
    ensures ReadProjection(g, tag, id, keys) == Ok(Projected(g.Rows(tag), keys)(id).values)
  {
    hide Snapshot.Valid, Snapshot.Rows, Snapshot.Edges, Snapshot.CheckVisibility, Snapshot.Property;
    if keys == [] {
    } else {
      ReadsVisible(g, tag, keys[0], id);
      ReadsProjection(g, tag, id, keys[1..]);
      assert Projected(g.Rows(tag), keys)(id).values
          == [ValueOf(g.Rows(tag), keys[0], id)] + Projected(g.Rows(tag), keys[1..])(id).values;
    }
  }

  method Materialize(g: Snapshot, tag: Tag, keys: seq<Key>, ids: seq<NodeId>) returns (r: Result<seq<ProjectedRow>>)
    requires g.Valid() && g.HasTag(tag) && forall key :: key in keys ==> key in KeysOf(g.schema.nodeProperties[tag])
    requires AllVisible(g, tag, ids)
    ensures r == Ok(Map(ids, Projected(g.Rows(tag), keys)))
  {
    hide Snapshot.Valid, Snapshot.Rows, Snapshot.Edges, Snapshot.CheckVisibility, Snapshot.Property;
    var rows := [];
    for i := 0 to |ids|
      invariant rows == Map(ids[..i], Projected(g.Rows(tag), keys))
    {
      assert ids[..i + 1] == ids[..i] + [ids[i]];
      ReadsProjection(g, tag, ids[i], keys);
      match ReadProjection(g, tag, ids[i], keys) {
        case Err(error) => return Err(error);
        case Ok(values) => rows := rows + [ProjectedRow(ids[i], values)];
      }
    }
    assert ids[..|ids|] == ids;
    return Ok(rows);
  }

  lemma {:induction false} ProjectionAvailable(schema: Schema, e: Expr, key: Key)
    requires TypeOf(schema, e).Some? && TypeOf(schema, e).value.projection.Some?
    requires key in TypeOf(schema, e).value.projection.value
    ensures e.NodeTag() in schema.nodeProperties && key in KeysOf(schema.nodeProperties[e.NodeTag()])
  {
    TypeTag(schema, e);
    TypeTag(schema, e.previous);
    if e.Project? {
    } else {
      ProjectionAvailable(schema, e.previous, key);
    }
  }

  /** Executing a well-typed query on a published chain gives exactly the naive result, or the naive error. */
  method Execute(g: Snapshot, e: Expr) returns (r: Result<Output>)
    requires g.Valid() && TypeOf(g.schema, e).Some?
    ensures r == NaiveExecute(g.Flatten(), e, TypeOf(g.schema, e).value.projection)
  {
    hide Snapshot.Valid, Snapshot.Rows, Snapshot.Edges, Snapshot.CheckVisibility, Snapshot.Property;
    var ids := Evaluate(g, e);
    match ids {
      case Err(error) => return Err(error);
      case Ok(_) =>
    }
    TypeTag(g.schema, e);
    match TypeOf(g.schema, e).value.projection {
      case None => return Ok(IdList(ids.value));
      case Some(keys) =>
        FlattenAt(g, e.NodeTag());
        OnlyVisibleFlow(g, e);
        forall key | key in keys { ProjectionAvailable(g.schema, e, key); }
        var rows := Materialize(g, e.NodeTag(), keys, ids.value);
        match rows {
          case Err(error) => return Err(error);
          case Ok(_) => return Ok(RowList(rows.value));
        }
    }
  }

  /** The whole pipeline: optimize, then execute; the answer is the naive answer to the original query. */
  method ExecuteOptimized(g: Snapshot, e: Expr) returns (r: Result<Output>)
    requires g.Valid() && TypeOf(g.schema, e).Some?
    ensures r == NaiveExecute(g.Flatten(), e, TypeOf(g.schema, e).value.projection)
  {
    NormalizeType(g.schema, e);
    NormalizeMeaning(g.Flatten(), e);
    NormalizeTag(e);
    r := Execute(g, Normalize(e));
  }

  /** What a selector names, next to what the snapshot was published for. */
  predicate Names(g: Snapshot, step: Expr) {
    match step
    case ActiveAt(_, time) => time == g.validAt
    case KnownAt(_, time) => time == g.knownAt
    case InWorldline(_, w) => w == g.worldline
    case _ => true
  }

  /** A query succeeds exactly if every selector names its own coordinate of the snapshot. */
  lemma SucceedsExactly(g: Snapshot, e: Expr)
    requires g.Valid()
    ensures NaiveEvaluate(g.Flatten(), e).Ok? <==> forall i :: 0 <= i < |Steps(e)| ==> Names(g, Steps(e)[i])
  {
    var at := g.Flatten().at;
    FailsIfSomeMismatch(at, e);
    forall i | 0 <= i < |Steps(e)|
      ensures SelectorError(at, Steps(e)[i]).None? <==> Names(g, Steps(e)[i])
    {
    }
  }
}
