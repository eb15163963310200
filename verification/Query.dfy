/** Query expressions, their static typing, and the naive evaluator every execution is measured against. */
module Queries {
  import opened Common
  import opened Sequences
  import opened Values
  import opened StableSorts
  import opened NodeTables
  import opened DeltaStores
  import opened FlatGraphs

  datatype Predicate = Predicate(key: Key, op: Operator, value: Value)

  datatype Direction = Ascends | Descends

  datatype Order = Order(key: Key, direction: Direction)

  /** A pipeline: every step but the source has one step before it. */
  datatype Expr =
    | Source(tag: Tag)
    | ActiveAt(previous: Expr, time: Timestamp)
    | KnownAt(previous: Expr, time: Timestamp)
    | InWorldline(previous: Expr, worldline: WorldlineId)
    | Where(previous: Expr, condition: Predicate)
    | FusedWhere(previous: Expr, predicates: seq<Predicate>)
    | Traverse(previous: Expr, relation: Relation, target: Tag)
    | Project(previous: Expr, keys: seq<Key>)
    | TopK(previous: Expr, count: nat, order: Order)
    | Limit(previous: Expr, count: nat)
  {
    predicate Selector() {
      ActiveAt? || KnownAt? || InWorldline?
    }

    /** The node type of the identifiers the expression produces. */
    function NodeTag(): Tag {
      match this
      case Source(tag) => tag
      case Traverse(_, _, target) => target
      case _ => previous.NodeTag()
    }
  }

  // ---- Typing: what the query language accepts at compile time ----

  datatype QueryType = QueryType(tag: Tag, projection: Option<seq<Key>>)

  predicate Available(schema: Schema, t: QueryType, key: Key) {
    && t.tag in schema.nodeProperties && key in KeysOf(schema.nodeProperties[t.tag])
    && (t.projection.Some? ==> key in t.projection.value)
  }

  predicate Accepts(schema: Schema, t: QueryType, p: Predicate) {
    && Available(schema, t, p.key)
    && forall spec | spec in schema.nodeProperties[t.tag] :: spec.key == p.key ==> p.value.ComparesWith(spec.kind)
  }

  /** The current node type and projection of a well-typed query, or nothing. */
  function TypeOf(schema: Schema, e: Expr): Option<QueryType> {
    match e
    case Source(tag) =>
      if tag in schema.nodeProperties then Some(QueryType(tag, None)) else None
    case _ =>
      match TypeOf(schema, e.previous)
      case None => None
      case Some(t) =>
        match e
        case Where(_, p) => if Accepts(schema, t, p) then Some(t) else None
        case FusedWhere(_, ps) => if forall p | p in ps :: Accepts(schema, t, p) then Some(t) else None
        case Traverse(_, relation, target) =>
          if t.projection.None? && target in schema.nodeProperties
          && EdgeType(t.tag, relation, target) in schema.edgeProperties then Some(QueryType(target, None)) else None
        case Project(_, keys) =>
          if t.projection.None? && keys != [] && forall key | key in keys :: Available(schema, t, key)
          then Some(QueryType(t.tag, Some(keys))) else None
        case TopK(_, count, order) => if count > 0 && Available(schema, t, order.key) then Some(t) else None
        case _ => Some(t)
  }

  lemma {:induction false} TypeTag(schema: Schema, e: Expr)
    requires TypeOf(schema, e).Some?
    ensures TypeOf(schema, e).value.tag == e.NodeTag() && e.NodeTag() in schema.nodeProperties
  {
    if e.Source? {
    } else {
      TypeTag(schema, e.previous);
    }
  }

  // ---- The naive evaluator ----

  const NOT_ACTIVE: GraphError := GraphError(Conflict, "query active_at does not match the supplied snapshot")
  const NOT_KNOWN: GraphError := GraphError(Conflict, "query known_at does not match the supplied snapshot")
  const NOT_HERE: GraphError := GraphError(WorldlineMismatch, "query worldline does not match the supplied snapshot")

  /** What a selector says about a snapshot at `at`. */
  function SelectorError(at: Coordinates, e: Expr): Option<GraphError> {
    match e
    case ActiveAt(_, time) => if time != at.validAt then Some(NOT_ACTIVE) else None
    case KnownAt(_, time) => if time != at.knownAt then Some(NOT_KNOWN) else None
    case InWorldline(_, w) => if w != at.worldline then Some(NOT_HERE) else None
    case _ => None
  }

  /** The error of the last selector in the pipeline that does not match, if one does not. */
  function Mismatch(at: Coordinates, e: Expr): Option<GraphError> {
    if SelectorError(at, e).Some? then SelectorError(at, e)
    else if e.Source? then None
    else Mismatch(at, e.previous)
  }

  function SatisfiesAll(rows: seq<FlatRow>, ps: seq<Predicate>): NodeId -> bool {
    (id: NodeId) => forall i | 0 <= i < |ps| :: Satisfies(rows, ps[i].key, ps[i].op, ps[i].value)(id)
  }

  /** The visible targets of a node's edges, in edge order. */
  function Reached(flat: Flat, e: EdgeType, source: NodeId): seq<NodeId> {
    Map(Filter(EdgesOfType(flat, e), Leaves(RowsOfTag(flat, e.target), source)), TargetOf())
  }

  function ReachedFrom(flat: Flat, e: EdgeType, sources: seq<NodeId>): seq<NodeId> {
    if sources == [] then []
    else ReachedFrom(flat, e, sources[..|sources| - 1]) + Reached(flat, e, sources[|sources| - 1])
  }

  type Ranked = (NodeId, Value)

  function WithKey(rows: seq<FlatRow>, key: Key): NodeId -> Ranked {
    (id: NodeId) => (id, ValueOf(rows, key, id))
  }

  function ByKey(direction: Direction): (Ranked, Ranked) -> bool {
    (a: Ranked, b: Ranked) => if direction == Ascends then Less(a.1, b.1) else Less(b.1, a.1)
  }

  function RankedId(): Ranked -> NodeId {
    (r: Ranked) => r.0
  }

  function Top(rows: seq<FlatRow>, ids: seq<NodeId>, count: nat, order: Order): seq<NodeId> {
    Map(Take(StableSort(Map(ids, WithKey(rows, order.key)), ByKey(order.direction)), count), RankedId())
  }

  /** The identifiers, in order and with repetitions, by scanning, filtering and following edges. */
  function NaiveIds(flat: Flat, e: Expr): seq<NodeId> {
    match e
    case Source(tag) => VisibleIds(RowsOfTag(flat, tag))
    case Where(q, p) => Filter(NaiveIds(flat, q), Satisfies(RowsOfTag(flat, q.NodeTag()), p.key, p.op, p.value))
    case FusedWhere(q, ps) => Filter(NaiveIds(flat, q), SatisfiesAll(RowsOfTag(flat, q.NodeTag()), ps))
    case Traverse(q, relation, target) =>
      ReachedFrom(flat, EdgeType(q.NodeTag(), relation, target), NaiveIds(flat, q))
    case TopK(q, count, order) => Top(RowsOfTag(flat, q.NodeTag()), NaiveIds(flat, q), count, order)
    case Limit(q, count) => Take(NaiveIds(flat, q), count)
    case _ => NaiveIds(flat, e.previous)
  }

  function NaiveEvaluate(flat: Flat, e: Expr): Result<seq<NodeId>> {
    match Mismatch(flat.at, e)
    case Some(error) => Err(error)
    case None => Ok(NaiveIds(flat, e))
  }

  datatype ProjectedRow = ProjectedRow(id: NodeId, values: seq<Value>)

  datatype Output = IdList(ids: seq<NodeId>) | RowList(rows: seq<ProjectedRow>)

  function Projected(rows: seq<FlatRow>, keys: seq<Key>): NodeId -> ProjectedRow {
    (id: NodeId) => ProjectedRow(id, seq(|keys|, i requires 0 <= i < |keys| => ValueOf(rows, keys[i], id)))
  }

  /** The identifiers of a query or, if it projects, its rows. */
  function NaiveExecute(flat: Flat, e: Expr, projection: Option<seq<Key>>): Result<Output> {
    match NaiveEvaluate(flat, e)
    case Err(error) => Err(error)
    case Ok(ids) =>
      match projection
      case None => Ok(IdList(ids))
      case Some(keys) => Ok(RowList(Map(ids, Projected(RowsOfTag(flat, e.NodeTag()), keys))))
  }

  // ---- When a query fails ----

  /** The steps of a pipeline, source first. */
  function Steps(e: Expr): seq<Expr> {
    if e.Source? then [e] else Steps(e.previous) + [e]
  }

  ghost predicate LastMismatch(at: Coordinates, steps: seq<Expr>, i: nat) {
    && i < |steps| && SelectorError(at, steps[i]).Some?
    && forall j :: i < j < |steps| ==> SelectorError(at, steps[j]).None?
  }

  /** No step of a pipeline mismatches. */
  ghost predicate AllMatch(at: Coordinates, steps: seq<Expr>) {
    forall i :: 0 <= i < |steps| ==> SelectorError(at, steps[i]).None?
  }

  /** A query fails exactly if some selector mismatches. */
  lemma {:induction false} FailsIfSomeMismatch(at: Coordinates, e: Expr)
    ensures Mismatch(at, e).None? <==> AllMatch(at, Steps(e))
  {
    if e.Source? {
    } else {
      FailsIfSomeMismatch(at, e.previous);
      AllMatchOneMore(at, Steps(e.previous), e);
    }
  }

  lemma AllMatchOneMore(at: Coordinates, before: seq<Expr>, e: Expr)
    ensures AllMatch(at, before + [e]) <==> AllMatch(at, before) && SelectorError(at, e).None?
  {
    var steps := before + [e];
    assert steps[|before|] == e;
    assert forall i :: 0 <= i < |before| ==> steps[i] == before[i];
    if AllMatch(at, steps) {
      forall i | 0 <= i < |before| ensures SelectorError(at, before[i]).None? {
        assert SelectorError(at, steps[i]).None?;
      }
    }
  }

  lemma LastMismatchOneMore(at: Coordinates, before: seq<Expr>, e: Expr, i: nat)
    requires SelectorError(at, e).None?
    ensures LastMismatch(at, before + [e], i) <==> LastMismatch(at, before, i)
  {
    var steps := before + [e];
    assert steps[|before|] == e;
    assert forall j :: 0 <= j < |before| ==> steps[j] == before[j];
  }

  /** It then fails with the error of the last mismatching selector. */
  lemma {:induction false} FailsAtLastMismatch(at: Coordinates, e: Expr, i: nat)
    requires LastMismatch(at, Steps(e), i)
    ensures Mismatch(at, e) == SelectorError(at, Steps(e)[i])
  {
    var steps := Steps(e);
    assert steps[|steps| - 1] == e;
    if SelectorError(at, e).Some? || e.Source? {
    } else {
      LastMismatchOneMore(at, Steps(e.previous), e, i);
      FailsAtLastMismatch(at, e.previous, i);
    }
  }

  /** Top-k takes a prefix of the one stable arrangement, whenever the keys are of one kind without NaN. */
  lemma TopIsStablePrefix(rows: seq<FlatRow>, ids: seq<NodeId>, count: nat, order: Order, output: seq<Ranked>)
    requires forall a, b :: a in ids && b in ids ==> Orderable(ValueOf(rows, order.key, a), ValueOf(rows, order.key, b))
    requires StablySorted(Map(ids, WithKey(rows, order.key)), output, ByKey(order.direction))
    ensures Top(rows, ids, count, order) == Map(Take(output, count), RankedId())
  {
    var ranked := Map(ids, WithKey(rows, order.key));
    forall x, y, z | x in ranked && y in ranked && z in ranked
      ensures Orderable(x.1, y.1) && Orderable(y.1, z.1)
    {
      assert x.0 in ids && y.0 in ids && z.0 in ids;
    }
    KeysOrder(ranked, order.direction);
    StableSortUnique(ranked, output, ByKey(order.direction));
  }

  lemma KeysOrder(ranked: seq<Ranked>, direction: Direction)
    requires forall x, y :: x in ranked && y in ranked ==> Orderable(x.1, y.1)
    ensures Orders(ByKey(direction), ranked)
  {
    var before := ByKey(direction);
    forall x, y | x in ranked && y in ranked && before(x, y) ensures !before(y, x) {
      LessIsTotalOrder(x.1, y.1, x.1);
    }
    forall x, y, z | x in ranked && y in ranked && z in ranked && before(x, z) ensures before(x, y) || before(y, z) {
      LessIsTotalOrder(y.1, x.1, z.1);
      LessIsTotalOrder(x.1, z.1, y.1);
      LessIsTotalOrder(z.1, x.1, y.1);
      LessIsTotalOrder(z.1, y.1, x.1);
      LessIsTotalOrder(x.1, y.1, z.1);
    }
  }

  /** The ranked identifiers in order: each with its own key, none invented, none lost. */
  lemma Arranged(rows: seq<FlatRow>, ids: seq<NodeId>, order: Order)
    requires forall a, b :: a in ids && b in ids ==> Orderable(ValueOf(rows, order.key, a), ValueOf(rows, order.key, b))
    ensures var sorted := StableSort(Map(ids, WithKey(rows, order.key)), ByKey(order.direction));
      && |sorted| == |ids|
      && (forall i :: 0 <= i < |sorted| ==> sorted[i].1 == ValueOf(rows, order.key, sorted[i].0))
      && (forall id :: id in ids ==> exists i :: 0 <= i < |sorted| && sorted[i].0 == id)
      && Sorted(sorted, ByKey(order.direction))
  {
    hide ValueOf, Orderable, Less, StableSort;
    var ranked := Map(ids, WithKey(rows, order.key));
    var sorted := StableSort(ranked, ByKey(order.direction));
    forall x, y | x in ranked && y in ranked
      ensures Orderable(x.1, y.1)
    {
      assert x.0 in ids && y.0 in ids;
    }
    KeysOrder(ranked, order.direction);
    StableSortSorts(ranked, ByKey(order.direction));
    PermutationFacts(ranked, sorted);
    forall i | 0 <= i < |sorted|
      ensures sorted[i].1 == ValueOf(rows, order.key, sorted[i].0)
    {
      assert sorted[i] in ranked;
    }
    forall id | id in ids
      ensures exists i :: 0 <= i < |sorted| && sorted[i].0 == id
    {
      var j :| 0 <= j < |ids| && ids[j] == id;
      assert ranked[j] in sorted;
    }
  }

  /** Top-k keeps as many as it may, the least keys first when ascending and the greatest first when descending. */
  lemma TopIsOrdered(rows: seq<FlatRow>, ids: seq<NodeId>, count: nat, order: Order, i: nat, j: nat)
    requires forall a, b :: a in ids && b in ids ==> Orderable(ValueOf(rows, order.key, a), ValueOf(rows, order.key, b))
    ensures |Top(rows, ids, count, order)| == (if |ids| < count then |ids| else count)
    ensures var top := Top(rows, ids, count, order);
      i < j < |top| ==>
        var (first, second) := (ValueOf(rows, order.key, top[i]), ValueOf(rows, order.key, top[j]));
        if order.direction == Ascends then !Less(second, first) else !Less(first, second)
  {
    hide Orderable, ValueOf, StableSort;
    Arranged(rows, ids, order);
  }

  /** Nothing that is left out comes strictly before anything that is kept. */
  lemma TopKeepsTheBest(rows: seq<FlatRow>, ids: seq<NodeId>, count: nat, order: Order, kept: NodeId, other: NodeId)
    requires forall a, b :: a in ids && b in ids ==> Orderable(ValueOf(rows, order.key, a), ValueOf(rows, order.key, b))
    requires kept in Top(rows, ids, count, order) && other in ids && other !in Top(rows, ids, count, order)
    ensures if order.direction == Ascends then !Less(ValueOf(rows, order.key, other), ValueOf(rows, order.key, kept))
            else !Less(ValueOf(rows, order.key, kept), ValueOf(rows, order.key, other))
  {
    hide Orderable, ValueOf, StableSort;
    Arranged(rows, ids, order);
    var sorted := StableSort(Map(ids, WithKey(rows, order.key)), ByKey(order.direction));
    var top := Top(rows, ids, count, order);
    var i :| 0 <= i < |top| && top[i] == kept;
    var j :| 0 <= j < |sorted| && sorted[j].0 == other;
    assert forall x :: 0 <= x < |top| ==> top[x] == sorted[x].0;
  }

  // ---- Laws of the steps ----

  /** An equality filter keeps what comes neither before nor after the given value. */
  lemma EqualityKeeps(flat: Flat, q: Expr, key: Key, value: Value, id: NodeId)
    requires Orderable(ValueOf(RowsOfTag(flat, q.NodeTag()), key, id), value)
    ensures id in NaiveIds(flat, Where(q, Predicate(key, EqualTo, value))) <==>
      var own := ValueOf(RowsOfTag(flat, q.NodeTag()), key, id);
      id in NaiveIds(flat, q) && !Less(own, value) && !Less(value, own)
  {
    hide Orderable, Less, Compare, ValueOf;
    var rows := RowsOfTag(flat, q.NodeTag());
    EqualToIsUnordered(ValueOf(rows, key, id), value);
    FilterMember(NaiveIds(flat, q), Satisfies(rows, key, EqualTo, value), id);
  }

  /** A traverse step works through its inputs in order, repeated ones each time. */
  lemma {:induction false} ReachedFromAppend(flat: Flat, e: EdgeType, a: seq<NodeId>, b: seq<NodeId>)
    ensures ReachedFrom(flat, e, a + b) == ReachedFrom(flat, e, a) + ReachedFrom(flat, e, b)
  {
    hide Reached;
    if b == [] {
      assert a + b == a;
    } else {
      var n := |b| - 1;
      assert (a + b)[..|a| + n] == a + b[..n];
      ReachedFromAppend(flat, e, a, b[..n]);
    }
  }

  lemma ReachedFromOne(flat: Flat, e: EdgeType, id: NodeId)
    ensures ReachedFrom(flat, e, [id]) == Reached(flat, e, id)
  {
    hide Reached;
    assert [id][..0] == [];
  }

  /** A node is reached from a source exactly if some edge leads from it to that node and the node can be seen. */
  lemma ReachedExactly(flat: Flat, e: EdgeType, source: NodeId, target: NodeId)
    ensures target in Reached(flat, e, source) <==>
      IsVisible(RowsOfTag(flat, e.target), target) &&
      exists edge :: edge in EdgesOfType(flat, e) && edge.source == source && edge.target == target
  {
    var edges, keep := EdgesOfType(flat, e), Leaves(RowsOfTag(flat, e.target), source);
    var kept := Filter(edges, keep);
    if target in Reached(flat, e, source) {
      var i :| 0 <= i < |kept| && kept[i].target == target;
      FilterMember(edges, keep, kept[i]);
    }
    forall edge | edge in edges && edge.source == source && edge.target == target && keep(edge)
      ensures target in Reached(flat, e, source)
    {
      FilterMember(edges, keep, edge);
      var i :| 0 <= i < |kept| && kept[i] == edge;
      assert Reached(flat, e, source)[i] == target;
    }
  }

  // ---- What the static checks admit ----

  /** The keys of the projection in force, if there is one. */
  function Projection(e: Expr): Option<seq<Key>> {
    match e
    case Source(_) => None
    case Project(_, keys) => Some(keys)
    case _ => Projection(e.previous)
  }

  /** The property is declared for the current node type and not projected away. */
  ghost predicate Readable(schema: Schema, q: Expr, key: Key) {
    && q.NodeTag() in schema.nodeProperties
    && (exists spec :: spec in schema.nodeProperties[q.NodeTag()] && spec.key == key)
    && (Projection(q).Some? ==> key in Projection(q).value)
  }

  ghost predicate Comparable(schema: Schema, q: Expr, p: Predicate) {
    && Readable(schema, q, p.key)
    && forall spec :: spec in schema.nodeProperties[q.NodeTag()] && spec.key == p.key ==>
         (p.value.Text? <==> spec.kind.Textual?)
  }

  /** One static check for each kind of step. */
  ghost predicate Admitted(schema: Schema, step: Expr) {
    match step
    case Source(tag) => tag in schema.nodeProperties
    case Where(q, p) => Comparable(schema, q, p)
    case FusedWhere(q, ps) => forall p :: p in ps ==> Comparable(schema, q, p)
    case Traverse(q, relation, target) =>
      && Projection(q).None? && target in schema.nodeProperties
      && EdgeType(q.NodeTag(), relation, target) in schema.edgeProperties
    case Project(q, keys) => Projection(q).None? && keys != [] && forall key :: key in keys ==> Readable(schema, q, key)
    case TopK(q, count, order) => count > 0 && Readable(schema, q, order.key)
    case _ => true
  }

  ghost predicate AllAdmitted(schema: Schema, steps: seq<Expr>) {
    forall i :: 0 <= i < |steps| ==> Admitted(schema, steps[i])
  }

  /** A query is well typed exactly if every step passes its check; its type is read off the pipeline. */
  lemma {:induction false} TypedExactly(schema: Schema, e: Expr)
    ensures TypeOf(schema, e).Some? <==> AllAdmitted(schema, Steps(e))
    ensures TypeOf(schema, e).Some? ==> TypeOf(schema, e).value == QueryType(e.NodeTag(), Projection(e))
  {
    hide Admitted;
    if e.Source? {
      assert Steps(e)[0] == e;
      AdmittedSource(schema, e);
    } else {
      TypedExactly(schema, e.previous);
      AdmittedStep(schema, e);
      AllAdmittedOneMore(schema, Steps(e.previous), e);
    }
  }

  lemma AdmittedSource(schema: Schema, e: Expr)
    requires e.Source?
    ensures TypeOf(schema, e) == if Admitted(schema, e) then Some(QueryType(e.tag, None)) else None
  {
  }

  lemma AllAdmittedOneMore(schema: Schema, before: seq<Expr>, e: Expr)
    ensures AllAdmitted(schema, before + [e]) <==> AllAdmitted(schema, before) && Admitted(schema, e)
  {
    hide Admitted;
    var steps := before + [e];
    assert steps[|before|] == e;
    assert forall i :: 0 <= i < |before| ==> steps[i] == before[i];
    if AllAdmitted(schema, steps) {
      forall i | 0 <= i < |before|
        ensures Admitted(schema, before[i])
      {
        assert Admitted(schema, steps[i]);
      }
    }
  }

  lemma AdmittedStep(schema: Schema, e: Expr)
    requires !e.Source?
    requires TypeOf(schema, e.previous).Some? ==>
      TypeOf(schema, e.previous).value == QueryType(e.previous.NodeTag(), Projection(e.previous))
    ensures TypeOf(schema, e).Some? <==> TypeOf(schema, e.previous).Some? && Admitted(schema, e)
    ensures TypeOf(schema, e).Some? ==> TypeOf(schema, e).value == QueryType(e.NodeTag(), Projection(e))
  {
  }
}
