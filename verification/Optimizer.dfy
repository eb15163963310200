/** The static rewrites: filters pushed below selectors and fused, limits merged. */
module Optimizers {
  import opened Common
  import opened Sequences
  import opened DeltaStores
  import opened FlatGraphs
  import opened Queries

  /** Append a filter: past any run of selectors, into the filter it meets there. */
  function AppendWhere(e: Expr, p: Predicate): Expr {
    match e
    case Where(q, first) => FusedWhere(q, [first, p])
    case FusedWhere(q, ps) => FusedWhere(q, ps + [p])
    case ActiveAt(q, time) => ActiveAt(AppendWhere(q, p), time)
    case KnownAt(q, time) => KnownAt(AppendWhere(q, p), time)
    case InWorldline(q, w) => InWorldline(AppendWhere(q, p), w)
    case _ => Where(e, p)
  }

  function AppendLimit(e: Expr, count: nat): Expr {
    match e
    case Limit(q, first) => Limit(q, if first < count then first else count)
    case _ => Limit(e, count)
  }

  function Normalize(e: Expr): Expr {
    match e
    case Source(_) => e
    case ActiveAt(q, time) => ActiveAt(Normalize(q), time)
    case KnownAt(q, time) => KnownAt(Normalize(q), time)
    case InWorldline(q, w) => InWorldline(Normalize(q), w)
    case Where(q, p) => AppendWhere(Normalize(q), p)
    case FusedWhere(q, ps) => FusedWhere(Normalize(q), ps)
    case Traverse(q, relation, target) => Traverse(Normalize(q), relation, target)
    case Project(q, keys) => Project(Normalize(q), keys)
    case TopK(q, count, order) => TopK(Normalize(q), count, order)
    case Limit(q, count) => AppendLimit(Normalize(q), count)
  }

  // ---- Meaning ----

  lemma {:induction false} AppendWhereTag(e: Expr, p: Predicate)
    ensures AppendWhere(e, p).NodeTag() == e.NodeTag()
  {
    if !e.Selector() {
    } else {
      AppendWhereTag(e.previous, p);
    }
  }

  lemma {:induction false} NormalizeTag(e: Expr)
    ensures Normalize(e).NodeTag() == e.NodeTag()
  {
    if e.Source? {
    } else {
      NormalizeTag(e.previous);
      if e.Where? {
        AppendWhereTag(Normalize(e.previous), e.condition);
      }
    }
  }

  lemma {:induction false} AppendWhereMeaning(flat: Flat, e: Expr, p: Predicate)
    ensures Mismatch(flat.at, AppendWhere(e, p)) == Mismatch(flat.at, e)
    ensures NaiveIds(flat, AppendWhere(e, p))
         == Filter(NaiveIds(flat, e), Satisfies(RowsOfTag(flat, e.NodeTag()), p.key, p.op, p.value))
  {
    var rows := RowsOfTag(flat, e.NodeTag());
    match e
    case Where(q, first) =>
      FuseTwo(rows, NaiveIds(flat, q), first, p);
    case FusedWhere(q, ps) => Fuse(rows, NaiveIds(flat, q), ps, p);
    case ActiveAt(q, _) => AppendWhereMeaning(flat, q, p);
    case KnownAt(q, _) => AppendWhereMeaning(flat, q, p);
    case InWorldline(q, _) => AppendWhereMeaning(flat, q, p);
    case _ =>
  }

  lemma FuseTwo(rows: seq<FlatRow>, ids: seq<NodeId>, first: Predicate, p: Predicate)
    ensures var one, other := Satisfies(rows, first.key, first.op, first.value), Satisfies(rows, p.key, p.op, p.value);
      Filter(Filter(ids, one), other) == Filter(ids, SatisfiesAll(rows, [first, p]))
  {
    hide Filter;
    Fuse(rows, ids, [first], p);
    forall id
      ensures SatisfiesAll(rows, [first])(id) == Satisfies(rows, first.key, first.op, first.value)(id)
    {
      FusedAt(rows, [], first, id);
      assert [] + [first] == [first];
    }
    FilterAgree(ids, Satisfies(rows, first.key, first.op, first.value), SatisfiesAll(rows, [first]));
    assert [first] + [p] == [first, p];
  }

  /** Filtering by a list of predicates and then by one more is filtering by the longer list. */
  lemma {:induction false} Fuse(rows: seq<FlatRow>, ids: seq<NodeId>, ps: seq<Predicate>, p: Predicate)
    ensures Filter(Filter(ids, SatisfiesAll(rows, ps)), Satisfies(rows, p.key, p.op, p.value))
         == Filter(ids, SatisfiesAll(rows, ps + [p]))
  {
    if ids == [] {
    } else {
      var n := |ids| - 1;
      Fuse(rows, ids[..n], ps, p);
      var kept := Filter(ids[..n], SatisfiesAll(rows, ps));
      var last := if SatisfiesAll(rows, ps)(ids[n]) then [ids[n]] else [];
      FilterAppend(kept, last, Satisfies(rows, p.key, p.op, p.value));
      FusedAt(rows, ps, p, ids[n]);
    }
  }

  lemma FusedAt(rows: seq<FlatRow>, ps: seq<Predicate>, p: Predicate, id: NodeId)
    ensures SatisfiesAll(rows, ps + [p])(id)
       <==> SatisfiesAll(rows, ps)(id) && Satisfies(rows, p.key, p.op, p.value)(id)
  {
    var all := ps + [p];
    assert forall i :: 0 <= i < |ps| ==> all[i] == ps[i];
    assert all[|ps|] == p;
  }

  /** The optimizer preserves meaning: the same identifiers in the same order, or the same error. */
  lemma NormalizeMeaning(flat: Flat, e: Expr)
    ensures NaiveEvaluate(flat, Normalize(e)) == NaiveEvaluate(flat, e)
  {
    NormalizeParts(flat, e);
  }

  lemma {:induction false} NormalizeParts(flat: Flat, e: Expr)
    ensures Mismatch(flat.at, Normalize(e)) == Mismatch(flat.at, e)
    ensures NaiveIds(flat, Normalize(e)) == NaiveIds(flat, e)
  {
    if e.Source? {
    } else {
      NormalizeParts(flat, e.previous);
      NormalizeTag(e.previous);
      match e
      case Where(q, p) => AppendWhereMeaning(flat, Normalize(q), p);
      case Limit(q, count) =>
      case _ =>
    }
  }

  // ---- Types ----

  lemma {:induction false} AppendWhereType(schema: Schema, e: Expr, p: Predicate)
    ensures TypeOf(schema, AppendWhere(e, p)) == TypeOf(schema, Where(e, p))
  {
    if !e.Selector() {
    } else {
      AppendWhereType(schema, e.previous, p);
    }
  }

  /** A well-typed query stays well typed, with the same node type and projection. */
  lemma {:induction false} NormalizeType(schema: Schema, e: Expr)
    ensures TypeOf(schema, Normalize(e)) == TypeOf(schema, e)
  {
    if e.Source? {
    } else {
      NormalizeType(schema, e.previous);
      if e.Where? {
        AppendWhereType(schema, Normalize(e.previous), e.condition);
      }
    }
  }

  // ---- Required columns and metrics ----

  datatype Column = Column(tag: Tag, key: Key)

  function ColumnsOf(tag: Tag, keys: seq<Key>): seq<Column> {
    seq(|keys|, i requires 0 <= i < |keys| => Column(tag, keys[i]))
  }

  function PredicateColumns(tag: Tag, ps: seq<Predicate>): seq<Column> {
    seq(|ps|, i requires 0 <= i < |ps| => Column(tag, ps[i].key))
  }

  /** The columns a query reads, in pipeline order and with repetitions. */
  function ReadColumns(e: Expr): seq<Column> {
    match e
    case Source(_) => []
    case Where(q, p) => ReadColumns(q) + [Column(q.NodeTag(), p.key)]
    case FusedWhere(q, ps) => ReadColumns(q) + PredicateColumns(q.NodeTag(), ps)
    case Project(q, keys) => ReadColumns(q) + ColumnsOf(q.NodeTag(), keys)
    case TopK(q, _, order) => ReadColumns(q) + [Column(q.NodeTag(), order.key)]
    case _ => ReadColumns(e.previous)
  }

  /** Every element once, at the place of its last occurrence. */
  function Unique<T(==)>(s: seq<T>): seq<T> {
    if s == [] then [] else
    var tail := Unique(s[1..]);
    if s[0] in tail then tail else [s[0]] + tail
  }

  function RequiredColumns(e: Expr): seq<Column> {
    Unique(ReadColumns(e))
  }

  lemma {:induction false} UniqueKeeps<T>(s: seq<T>)
    ensures NoDuplicates(Unique(s)) && forall x :: x in Unique(s) <==> x in s
  {
    if s == [] {
    } else {
      UniqueKeeps(s[1..]);
      assert s == [s[0]] + s[1..];
    }
  }

  /** An element met again moves to the end; the others keep their order. */
  lemma {:induction false} UniqueMore<T>(s: seq<T>, x: T)
    ensures Unique(s + [x]) == Filter(Unique(s), (y: T) => y != x) + [x]
  {
    var other := (y: T) => y != x;
    if s == [] {
      assert Unique([x]) == [x];
    } else {
      var head, tail := [s[0]], s[1..];
      assert (s + [x])[1..] == tail + [x];
      UniqueMore(tail, x);
      UniqueKeeps(tail);
      FilterMember(Unique(tail), other, s[0]);
      FilterAppend(head, Unique(tail), other);
      assert head[..0] == [];
    }
  }

  function Depth(e: Expr): nat {
    if e.Source? then 1 else Depth(e.previous) + 1
  }

  function Filters(e: Expr): nat {
    match e
    case Source(_) => 0
    case Where(q, _) => Filters(q) + 1
    case FusedWhere(q, ps) => Filters(q) + |ps|
    case _ => Filters(e.previous)
  }

  function Traversals(e: Expr): nat {
    if e.Source? then 0 else Traversals(e.previous) + if e.Traverse? then 1 else 0
  }

  lemma {:induction false} AppendWhereMetrics(e: Expr, p: Predicate)
    ensures ReadColumns(AppendWhere(e, p)) == ReadColumns(Where(e, p))
    ensures Filters(AppendWhere(e, p)) == Filters(e) + 1 && Traversals(AppendWhere(e, p)) == Traversals(e)
    ensures Depth(AppendWhere(e, p)) <= Depth(e) + 1
  {
    match e
    case Where(q, first) => assert PredicateColumns(q.NodeTag(), [first, p])
                                == [Column(q.NodeTag(), first.key)] + [Column(q.NodeTag(), p.key)];
    case FusedWhere(q, ps) => assert PredicateColumns(q.NodeTag(), ps + [p])
                                  == PredicateColumns(q.NodeTag(), ps) + [Column(q.NodeTag(), p.key)];
    case ActiveAt(q, _) => AppendWhereMetrics(q, p);
    case KnownAt(q, _) => AppendWhereMetrics(q, p);
    case InWorldline(q, _) => AppendWhereMetrics(q, p);
    case _ =>
  }

  /** Normalizing changes neither the columns read nor the number of filters and traversals, and never deepens. */
  lemma {:induction false} NormalizeMetrics(e: Expr)
    ensures ReadColumns(Normalize(e)) == ReadColumns(e) && RequiredColumns(Normalize(e)) == RequiredColumns(e)
    ensures Filters(Normalize(e)) == Filters(e) && Traversals(Normalize(e)) == Traversals(e)
    ensures Depth(Normalize(e)) <= Depth(e)
  {
    if e.Source? {
    } else {
      NormalizeMetrics(e.previous);
      NormalizeTag(e.previous);
      if e.Where? {
        AppendWhereMetrics(Normalize(e.previous), e.condition);
      }
    }
  }

  // ---- The normal form ----

  /** No single filter directly above a selector or a filter, and no limit directly above a limit. */
  predicate Normal(e: Expr) {
    e.Source? ||
    (&& Normal(e.previous)
     && (e.Where? ==> !e.previous.Selector() && !e.previous.Where? && !e.previous.FusedWhere?)
     && (e.Limit? ==> !e.previous.Limit?))
  }

  /** The query language itself never builds a fused filter. */
  predicate Unfused(e: Expr) {
    e.Source? || (!e.FusedWhere? && Unfused(e.previous))
  }

  /** A fused filter, too, sits on neither a selector nor a filter. */
  predicate Settled(e: Expr) {
    e.Source? ||
    (&& Settled(e.previous)
     && (e.FusedWhere? ==> !e.previous.Selector() && !e.previous.Where? && !e.previous.FusedWhere?))
  }

  lemma {:induction false} AppendWhereNormal(e: Expr, p: Predicate)
    requires Normal(e)
    ensures Normal(AppendWhere(e, p))
    ensures Settled(e) ==> Settled(AppendWhere(e, p))
  {
    if !e.Selector() {
    } else {
      AppendWhereNormal(e.previous, p);
    }
  }

  lemma {:induction false} NormalizeNormal(e: Expr)
    ensures Normal(Normalize(e)) && (Unfused(e) ==> Settled(Normalize(e)))
  {
    if e.Source? {
    } else {
      NormalizeNormal(e.previous);
      if e.Where? {
        AppendWhereNormal(Normalize(e.previous), e.condition);
      }
    }
  }

  /** Exactly the expressions in normal form are left alone, so normalizing twice changes nothing more. */
  lemma NormalIsFixed(e: Expr)
    ensures Normalize(e) == e <==> Normal(e)
    ensures Normalize(Normalize(e)) == Normalize(e)
  {
    NormalizeNormal(e);
    if Normal(e) {
      FixedIfNormal(e);
    }
    FixedIfNormal(Normalize(e));
  }

  lemma {:induction false} FixedIfNormal(e: Expr)
    requires Normal(e)
    ensures Normalize(e) == e
  {
    if e.Source? {
    } else {
      FixedIfNormal(e.previous);
    }
  }

  // ---- Only the required columns matter ----

  /** The same rows up to property values, and the same values in column `key`. */
  ghost predicate SameColumn(a: seq<FlatRow>, b: seq<FlatRow>, key: Key) {
    && |a| == |b|
    && forall i :: 0 <= i < |a| ==>
         (key in a[i].values <==> key in b[i].values) && (key in a[i].values ==> a[i].values[key] == b[i].values[key])
  }

  ghost predicate SameVisibility(a: seq<FlatRow>, b: seq<FlatRow>) {
    && |a| == |b|
    && forall i :: 0 <= i < |a| ==> a[i].(values := b[i].values) == b[i]
  }

  /** Two graphs agree on coordinates, rows without values, edges, and the listed columns. */
  ghost predicate AgreeOn(a: Flat, b: Flat, columns: seq<Column>) {
    && a.at == b.at && a.edges == b.edges
    && (forall tag: Tag :: SameVisibility(RowsOfTag(a, tag), RowsOfTag(b, tag)))
    && forall c :: c in columns ==> SameColumn(RowsOfTag(a, c.tag), RowsOfTag(b, c.tag), c.key)
  }

  lemma {:induction false} SameVisible(a: seq<FlatRow>, b: seq<FlatRow>)
    requires SameVisibility(a, b)
    ensures VisibleIds(a) == VisibleIds(b)
  {
    if a == [] {
    } else {
      var n := |a| - 1;
      assert a == a[..n] + [a[n]] && b == b[..n] + [b[n]];
      assert a[n].(values := b[n].values) == b[n];
      SameVisible(a[..n], b[..n]);
      VisibleIdsStep(a[..n], a[n]);
      VisibleIdsStep(b[..n], b[n]);
    }
  }

  lemma {:induction false} SameLookup(a: seq<FlatRow>, b: seq<FlatRow>, id: NodeId)
    requires SameVisibility(a, b)
    ensures IsVisible(a, id) == IsVisible(b, id)
  {
    if a == [] {
    } else {
      var n := |a| - 1;
      assert a[n].(values := b[n].values) == b[n];
      SameLookup(a[..n], b[..n], id);
    }
  }

  lemma {:induction false} SameValue(a: seq<FlatRow>, b: seq<FlatRow>, key: Key, id: NodeId)
    requires SameVisibility(a, b) && SameColumn(a, b, key)
    ensures ValueOf(a, key, id) == ValueOf(b, key, id)
  {
    if a == [] {
    } else {
      var n := |a| - 1;
      assert a[n].(values := b[n].values) == b[n];
      SameValue(a[..n], b[..n], key, id);
    }
  }

  lemma {:induction false} SameReached(a: Flat, b: Flat, e: EdgeType, sources: seq<NodeId>)
    requires a.edges == b.edges && SameVisibility(RowsOfTag(a, e.target), RowsOfTag(b, e.target))
    ensures ReachedFrom(a, e, sources) == ReachedFrom(b, e, sources)
  {
    if sources == [] {
    } else {
      var n := |sources| - 1;
      SameReached(a, b, e, sources[..n]);
      forall id { SameLookup(RowsOfTag(a, e.target), RowsOfTag(b, e.target), id); }
      var last := sources[n];
      FilterAgree(EdgesOfType(a, e), Leaves(RowsOfTag(a, e.target), last), Leaves(RowsOfTag(b, e.target), last));
    }
  }

  /** Graphs that agree on the columns a query reads give it the same identifiers. */
  lemma {:induction false} SameIds(a: Flat, b: Flat, e: Expr)
    requires AgreeOn(a, b, ReadColumns(e))
    ensures NaiveIds(a, e) == NaiveIds(b, e)
  {
    if e.Source? {
      SameVisible(RowsOfTag(a, e.tag), RowsOfTag(b, e.tag));
    } else {
      var q, tag := e.previous, e.previous.NodeTag();
      var ra, rb := RowsOfTag(a, tag), RowsOfTag(b, tag);
      assert forall c :: c in ReadColumns(q) ==> c in ReadColumns(e);
      SameIds(a, b, q);
      var ids := NaiveIds(a, q);
      match e
      case Where(_, p) =>
        assert Column(tag, p.key) in ReadColumns(e);
        forall id { SameValue(ra, rb, p.key, id); }
        FilterAgree(ids, Satisfies(ra, p.key, p.op, p.value), Satisfies(rb, p.key, p.op, p.value));
      case FusedWhere(_, ps) =>
        forall i | 0 <= i < |ps| ensures Column(tag, ps[i].key) in ReadColumns(e) {
          assert PredicateColumns(tag, ps)[i] in PredicateColumns(tag, ps);
        }
        forall i, id | 0 <= i < |ps| { SameValue(ra, rb, ps[i].key, id); }
        FilterAgree(ids, SatisfiesAll(ra, ps), SatisfiesAll(rb, ps));
      case Traverse(_, relation, target) => SameReached(a, b, EdgeType(tag, relation, target), ids);
      case TopK(_, _, order) =>
        assert Column(tag, order.key) in ReadColumns(e);
        forall id { SameValue(ra, rb, order.key, id); }
        assert Map(ids, WithKey(ra, order.key)) == Map(ids, WithKey(rb, order.key));
      case _ =>
    }
  }

  /** The keys a query projects are among the columns it reads, for the node type they are projected from. */
  lemma {:induction false} ProjectionRead(schema: Schema, e: Expr, key: Key)
    requires TypeOf(schema, e).Some? && TypeOf(schema, e).value.projection.Some?
    requires key in TypeOf(schema, e).value.projection.value
    ensures Column(e.NodeTag(), key) in ReadColumns(e)
  {
    TypeTag(schema, e.previous);
    if e.Project? {
      var i :| 0 <= i < |e.keys| && e.keys[i] == key;
      assert ColumnsOf(e.previous.NodeTag(), e.keys)[i] == Column(e.NodeTag(), key);
    } else {
      ProjectionRead(schema, e.previous, key);
    }
  }

  /** A query's whole result depends on the graph only through its required columns. */
  lemma OnlyRequiredColumnsMatter(schema: Schema, a: Flat, b: Flat, e: Expr)
    requires TypeOf(schema, e).Some? && AgreeOn(a, b, RequiredColumns(e))
    ensures NaiveExecute(a, e, TypeOf(schema, e).value.projection)
         == NaiveExecute(b, e, TypeOf(schema, e).value.projection)
  {
    hide TypeOf, RequiredColumns, ReadColumns, NaiveIds, Mismatch, SameVisibility, SameColumn;
    AgreeOnRead(a, b, e);
    SameIds(a, b, e);
    var projection := TypeOf(schema, e).value.projection;
    if projection.Some? {
      forall key | key in projection.value
        ensures SameColumn(RowsOfTag(a, e.NodeTag()), RowsOfTag(b, e.NodeTag()), key)
      {
        ProjectionRead(schema, e, key);
        assert Column(e.NodeTag(), key).tag == e.NodeTag();
      }
      SameProjected(RowsOfTag(a, e.NodeTag()), RowsOfTag(b, e.NodeTag()), projection.value, NaiveIds(a, e));
    }
  }

  lemma AgreeOnRead(a: Flat, b: Flat, e: Expr)
    requires AgreeOn(a, b, RequiredColumns(e))
    ensures AgreeOn(a, b, ReadColumns(e))
  {
    hide ReadColumns, SameVisibility, SameColumn;
    UniqueKeeps(ReadColumns(e));
  }

  lemma SameProjected(a: seq<FlatRow>, b: seq<FlatRow>, keys: seq<Key>, ids: seq<NodeId>)
    requires SameVisibility(a, b) && forall key :: key in keys ==> SameColumn(a, b, key)
    ensures Map(ids, Projected(a, keys)) == Map(ids, Projected(b, keys))
  {
    forall id: NodeId ensures Projected(a, keys)(id) == Projected(b, keys)(id) {
      forall i | 0 <= i < |keys| ensures ValueOf(a, keys[i], id) == ValueOf(b, keys[i], id) {
        SameValue(a, b, keys[i], id);
      }
    }
  }

  // ---- What the metrics count ----

  function IsWhere(): Expr -> bool {
    (step: Expr) => step.Where?
  }

  function IsTraverse(): Expr -> bool {
    (step: Expr) => step.Traverse?
  }

  /** Depth counts the steps, the traversal count the traversals, and, before fusing, the filter count the filters. */
  lemma {:induction false} MetricsCount(e: Expr)
    ensures Depth(e) == |Steps(e)| && Traversals(e) == Count(Steps(e), IsTraverse())
    ensures Unfused(e) ==> Filters(e) == Count(Steps(e), IsWhere())
  {
    if e.Source? {
      assert Steps(e)[..0] == [];
    } else {
      MetricsCount(e.previous);
      assert Steps(e)[..|Steps(e)| - 1] == Steps(e.previous);
    }
  }

  /** The step looks up column `c` of the identifiers it is given. */
  predicate Reads(step: Expr, c: Column) {
    && !step.Source? && c.tag == step.previous.NodeTag()
    && match step
       case Where(_, p) => c.key == p.key
       case FusedWhere(_, ps) => exists i | 0 <= i < |ps| :: ps[i].key == c.key
       case Project(_, keys) => c.key in keys
       case TopK(_, _, order) => c.key == order.key
       case _ => false
  }

  ghost predicate SomeReads(steps: seq<Expr>, c: Column) {
    exists i :: 0 <= i < |steps| && Reads(steps[i], c)
  }

  lemma SomeReadsOneMore(before: seq<Expr>, e: Expr, c: Column)
    ensures SomeReads(before + [e], c) <==> SomeReads(before, c) || Reads(e, c)
  {
    hide Reads;
    var steps := before + [e];
    assert steps[|before|] == e;
    assert forall i :: 0 <= i < |before| ==> steps[i] == before[i];
    if SomeReads(before, c) {
      var i :| 0 <= i < |before| && Reads(before[i], c);
      assert Reads(steps[i], c);
    }
  }

  lemma {:induction false} ReadExactly(e: Expr, c: Column)
    ensures c in ReadColumns(e) <==> SomeReads(Steps(e), c)
  {
    if e.Source? {
      assert Steps(e)[0] == e;
    } else {
      ReadExactly(e.previous, c);
      ReadByStep(e, c);
      SomeReadsOneMore(Steps(e.previous), e, c);
    }
  }

  lemma ReadByStep(e: Expr, c: Column)
    requires !e.Source?
    ensures c in ReadColumns(e) <==> c in ReadColumns(e.previous) || Reads(e, c)
  {
    match e
    case FusedWhere(q, ps) =>
      var columns := PredicateColumns(q.NodeTag(), ps);
      if c in columns {
        var i :| 0 <= i < |columns| && columns[i] == c;
        assert ps[i].key == c.key;
      }
      if Reads(e, c) {
        var i :| 0 <= i < |ps| && ps[i].key == c.key;
        assert columns[i] == c;
      }
    case Project(q, keys) =>
      var columns := ColumnsOf(q.NodeTag(), keys);
      if c in columns {
        var i :| 0 <= i < |columns| && columns[i] == c;
        assert keys[i] == c.key;
      }
      if Reads(e, c) {
        var i :| 0 <= i < |keys| && keys[i] == c.key;
        assert columns[i] == c;
      }
    case _ =>
  }

  /** A column is required exactly if some step of the query reads it. */
  lemma RequiredExactly(e: Expr, c: Column)
    ensures c in RequiredColumns(e) <==> SomeReads(Steps(e), c)
  {
    UniqueKeeps(ReadColumns(e));
    ReadExactly(e, c);
  }
}
