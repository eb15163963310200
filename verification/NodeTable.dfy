/** A published node table: rows column by column, its selection indices, and the queries over them. */
module NodeTables {
  import opened Common
  import opened Sequences
  import opened Values
  import opened Histograms
  import opened StableSorts

  datatype PropertySpec = PropertySpec(key: Key, kind: Kind)

  predicate UniqueKeys(properties: seq<PropertySpec>) {
    forall i, j :: 0 <= i < j < |properties| ==> properties[i].key != properties[j].key
  }

  function KeysOf(properties: seq<PropertySpec>): set<Key> {
    set p | p in properties :: p.key
  }

  /** One column per property, each `size` long and of its property's kind. */
  ghost predicate TypedColumns(properties: seq<PropertySpec>, columns: map<Key, seq<Value>>, size: nat) {
    && UniqueKeys(properties) && columns.Keys == KeysOf(properties)
    && forall p :: p in properties ==>
         |columns[p.key]| == size && forall v :: v in columns[p.key] ==> v.HasKind(p.kind)
  }

  predicate Arithmetic(kind: Kind) {
    kind.Integral? || kind.Floating?
  }

  /** Columns with a histogram are those that can hold numbers. */
  lemma ArithmeticExactly(kind: Kind)
    ensures Arithmetic(kind) <==> exists v: Value :: v.IsNumber() && v.HasKind(kind)
  {
    IntegralExactly(0, 0.0);
    assert Finite(0.0).IsNumber();
  }

  type Start = (Timestamp, NodeId)

  function StartsBefore(): (Start, Start) -> bool {
    (a: Start, b: Start) => a.0 < b.0
  }

  datatype PropertyIndex = PropertyIndex(rows: seq<NodeId>, histogram: Histogram)

  function Ids(base: nat, size: nat): seq<NodeId> {
    seq(size, i requires 0 <= i => base + i)
  }

  lemma IdsMembers(base: nat, size: nat)
    ensures Ascending(Ids(base, size))
    ensures forall id: NodeId :: id in Ids(base, size) <==> base <= id < base + size
  {
    forall id: NodeId | base <= id < base + size ensures id in Ids(base, size) {
      assert Ids(base, size)[id - base] == id;
    }
  }

  function Starts(spans: seq<Interval>, base: nat): seq<Start> {
    seq(|spans|, i requires 0 <= i < |spans| => (spans[i].from, base + i))
  }

  ghost predicate IndexesWorldlines(
    index: map<WorldlineId, seq<NodeId>>, worldlines: seq<WorldlineId>, base: nat) {
    && (forall w :: w in index <==> w in worldlines)
    && forall w :: w in index ==> index[w] == RowsOf(worldlines, base, w)
  }

  /** Entries sorted by time; nothing is said about entries of equal time. */
  ghost predicate IndexesStarts(index: seq<Start>, spans: seq<Interval>, base: nat) {
    multiset(index) == multiset(Starts(spans, base)) && Sorted(index, StartsBefore())
  }

  ghost predicate IndexesProperty(index: PropertyIndex, column: seq<Value>, kind: Kind, base: nat) {
    && index.rows == Ids(base, |column|)
    && if Arithmetic(kind) then Describes(index.histogram, column) else index.histogram == EMPTY
  }

  const NOT_BUILT: GraphError := GraphError(Conflict, "delta selection indices are not built")

  datatype NodeTable = NodeTable(
    idBase: nat,
    properties: seq<PropertySpec>,
    columns: map<Key, seq<Value>>,
    worldlines: seq<WorldlineId>,
    valids: seq<Interval>,
    transactions: seq<Interval>,
    sources: seq<Provenance>,
    worldlineIndex: map<WorldlineId, seq<NodeId>>,
    validStarts: seq<Start>,
    transactionStarts: seq<Start>,
    propertyIndices: map<Key, PropertyIndex>,
    indicesReady: bool)
  {
    function Size(): nat {
      |worldlines|
    }

    function Extent(): nat {
      idBase + Size()
    }

    /** All columns are equally long and well typed, and no row's identifier is the invalid one. */
    ghost predicate Consistent() {
      && TypedColumns(properties, columns, Size())
      && |valids| == |transactions| == |sources| == Size()
      && (Size() > 0 ==> Extent() <= INVALID_32)
    }

    ghost predicate IndicesCurrent()
      requires Consistent()
    {
      && IndexesWorldlines(worldlineIndex, worldlines, idBase)
      && IndexesStarts(validStarts, valids, idBase)
      && IndexesStarts(transactionStarts, transactions, idBase)
      && propertyIndices.Keys == columns.Keys
      && forall p :: p in properties ==>
           IndexesProperty(propertyIndices[p.key], columns[p.key], p.kind, idBase)
    }

    ghost predicate Valid() {
      Consistent() && (indicesReady ==> IndicesCurrent())
    }

    /** The table without its indices: what building them must not change. */
    function Data(): NodeTable {
      this.(worldlineIndex := map[], validStarts := [], transactionStarts := [],
            propertyIndices := map[], indicesReady := false)
    }

    predicate Contains(id: NodeId) {
      id != INVALID_32 && idBase <= id < Extent()
    }

    function CheckedRow(id: NodeId): Result<nat> {
      if id == INVALID_32 then Err(GraphError(InvalidId, ""))
      else if id < idBase || id >= Extent() then Err(GraphError(IdNotFound, ""))
      else Ok(id - idBase)
    }

    function WorldlineOf(id: NodeId): WorldlineId
      requires Contains(id)
    {
      worldlines[id - idBase]
    }

    function ReadProperty(key: Key, id: NodeId): Result<Value>
      requires Consistent() && key in columns
    {
      assert exists p :: p in properties && p.key == key;
      match CheckedRow(id)
      case Err(e) => Err(e)
      case Ok(row) => Ok(columns[key][row])
    }

    /** The row is in `w` and both of its intervals contain the given times. */
    predicate VisibleAt(id: NodeId, w: WorldlineId, validAt: Timestamp, knownAt: Timestamp)
      requires |valids| == |transactions| == Size()
    {
      && idBase <= id < Extent()
      && worldlines[id - idBase] == w
      && valids[id - idBase].Contains(validAt)
      && transactions[id - idBase].Contains(knownAt)
    }

    function IsVisibleAt(w: WorldlineId, validAt: Timestamp, knownAt: Timestamp): NodeId -> bool
      requires |valids| == |transactions| == Size()
    {
      (id: NodeId) => VisibleAt(id, w, validAt, knownAt)
    }

    /** The scan the temporal indices must agree with. */
    function VisibleIds(w: WorldlineId, validAt: Timestamp, knownAt: Timestamp): seq<NodeId>
      requires |valids| == |transactions| == Size()
    {
      Filter(Ids(idBase, Size()), IsVisibleAt(w, validAt, knownAt))
    }

    function Holds(key: Key, op: Operator, value: Value): NodeId -> bool
      requires key in columns
    {
      (id: NodeId) => idBase <= id < idBase + |columns[key]| && Compare(op, columns[key][id - idBase], value)
    }

    function MatchingIds(key: Key, op: Operator, value: Value): seq<NodeId>
      requires key in columns
    {
      Filter(Ids(idBase, Size()), Holds(key, op, value))
    }

    /** The cheapest access path: it repeats no row and misses no visible one. */
    method ChoosePath(w: WorldlineId, validAt: Timestamp, knownAt: Timestamp) returns (path: seq<NodeId>)
      requires Valid() && indicesReady && w in worldlineIndex
      ensures NoDuplicates(path)
      ensures forall id: NodeId :: VisibleAt(id, w, validAt, knownAt) ==> id in path
    {
      var worldlineRows := worldlineIndex[w];
      var validEnd := UpperBound(validStarts, validAt);
      var transactionEnd := UpperBound(transactionStarts, knownAt);
      if |worldlineRows| <= validEnd && |worldlineRows| <= transactionEnd {
        RowsOfMembers(worldlines, idBase, w);
        path := worldlineRows;
      } else if validEnd <= transactionEnd {
        StartPath(validStarts, valids, idBase, validEnd, validAt);
        path := PrefixIds(validStarts, validEnd);
      } else {
        StartPath(transactionStarts, transactions, idBase, transactionEnd, knownAt);
        path := PrefixIds(transactionStarts, transactionEnd);
      }
    }

    /** Candidates visible at the given coordinates, whichever access path is taken. */
    method IndexedCandidates(w: WorldlineId, validAt: Timestamp, knownAt: Timestamp)
      returns (r: Result<seq<NodeId>>)
      requires Valid()
      ensures r == if indicesReady then Ok(VisibleIds(w, validAt, knownAt)) else Err(NOT_BUILT)
    {
      if !indicesReady {
        return Err(NOT_BUILT);
      }
      if w !in worldlineIndex {
        FilterNone(Ids(idBase, Size()), IsVisibleAt(w, validAt, knownAt));
        return Ok([]);
      }
      var path := ChoosePath(w, validAt, knownAt);
      var result := Scan(path, IsVisibleAt(w, validAt, knownAt));
      var sorted := SortIds(result);
      SortedScan(path, IsVisibleAt(w, validAt, knownAt), sorted, idBase, Size());
      return Ok(sorted);
    }

    method IndexedPropertyCandidates(key: Key, op: Operator, value: Value)
      returns (r: Result<seq<NodeId>>)
      requires Valid() && key in columns
      ensures r == if indicesReady then Ok(MatchingIds(key, op, value)) else Err(NOT_BUILT)
    {
      if !indicesReady {
        return Err(NOT_BUILT);
      }
      ghost var p :| p in properties && p.key == key;
      var rows := propertyIndices[key].rows;
      assert IndexesProperty(propertyIndices[key], columns[key], p.kind, idBase);
      IdsMembers(idBase, Size());
      var result := Scan(rows, Holds(key, op, value));
      var sorted := SortIds(result);
      SortedScan(rows, Holds(key, op, value), sorted, idBase, Size());
      return Ok(sorted);
    }

    method EstimatePropertyCandidates(key: Key, kind: Kind, op: Operator, value: Value)
      returns (r: Result<nat>)
      requires Valid() && PropertySpec(key, kind) in properties
      ensures r.Err? <==> !indicesReady
      ensures r == if !indicesReady then Err(NOT_BUILT) else Ok(
        if Arithmetic(kind) then Estimate(propertyIndices[key].histogram, Size(), kind, op, value) else Size())
    {
      if !indicesReady {
        return Err(NOT_BUILT);
      }
      if !Arithmetic(kind) {
        return Ok(Size());
      }
      ghost var p := PropertySpec(key, kind);
      CountMonotone(columns[p.key], IsFinite, IsFinite);
      var estimate := ComputeEstimate(propertyIndices[key].histogram, Size(), kind, op, value);
      return Ok(estimate);
    }
  }

  /** A row is found exactly if the store holds it; the invalid identifier is told apart from an unknown one. */
  lemma CheckedRowExactly(t: NodeTable, id: NodeId)
    requires t.Valid()
    ensures t.CheckedRow(id) == (
      if t.idBase <= id < t.Extent() then Ok(id - t.idBase)
      else Err(GraphError(if id == INVALID_32 then InvalidId else IdNotFound, "")))
  {
    hide NodeTable.IndicesCurrent;
  }

  /** The scan in terms of the columns: ascending, and exactly the rows active at both times. */
  lemma VisibleIdsAt(t: NodeTable, w: WorldlineId, validAt: Timestamp, knownAt: Timestamp, id: NodeId)
    requires t.Valid()
    ensures Ascending(t.VisibleIds(w, validAt, knownAt))
    ensures id in t.VisibleIds(w, validAt, knownAt) <==>
      && t.idBase <= id < t.Extent()
      && t.worldlines[id - t.idBase] == w
      && t.valids[id - t.idBase].from <= validAt < t.valids[id - t.idBase].to
      && t.transactions[id - t.idBase].from <= knownAt < t.transactions[id - t.idBase].to
  {
    hide NodeTable.IndicesCurrent, TypedColumns;
    IdsMembers(t.idBase, t.Size());
    FilterAscending(Ids(t.idBase, t.Size()), t.IsVisibleAt(w, validAt, knownAt));
    FilterMember(Ids(t.idBase, t.Size()), t.IsVisibleAt(w, validAt, knownAt), id);
  }

  /** The property index in terms of the column: ascending, and exactly the rows whose value compares. */
  lemma MatchingIdsAt(t: NodeTable, key: Key, op: Operator, value: Value, id: NodeId)
    requires t.Valid() && key in t.columns
    ensures Ascending(t.MatchingIds(key, op, value))
    ensures id in t.MatchingIds(key, op, value) <==>
      t.idBase <= id < t.idBase + |t.columns[key]| && Compare(op, t.columns[key][id - t.idBase], value)
  {
    hide NodeTable.IndicesCurrent;
    var p :| p in t.properties && p.key == key;
    IdsMembers(t.idBase, t.Size());
    FilterAscending(Ids(t.idBase, t.Size()), t.Holds(key, op, value));
    FilterMember(Ids(t.idBase, t.Size()), t.Holds(key, op, value), id);
  }

  function Second(): Start -> NodeId {
    (e: Start) => e.1
  }

  function PrefixIds(starts: seq<Start>, end: nat): seq<NodeId>
    requires end <= |starts|
  {
    Map(starts[..end], Second())
  }

  /** A sorted start index, cut at a time: no row twice, and no row missed that starts by then. */
  lemma StartPath(starts: seq<Start>, spans: seq<Interval>, base: nat, end: nat, point: Timestamp)
    requires IndexesStarts(starts, spans, base) && end <= |starts|
    requires forall i :: end <= i < |starts| ==> point < starts[i].0
    ensures NoDuplicates(PrefixIds(starts, end))
    ensures forall i :: 0 <= i < |spans| && spans[i].from <= point ==> base + i in PrefixIds(starts, end)
  {
    var all := Starts(spans, base);
    PermutationFacts(all, starts);
    var prefix := PrefixIds(starts, end);
    forall i, j | 0 <= i < j < |prefix| ensures prefix[i] != prefix[j] {
      assert starts[i] in starts && starts[j] in starts;
      assert starts[i] in all && starts[j] in all;
    }
    forall i | 0 <= i < |spans| && spans[i].from <= point ensures base + i in prefix {
      assert all[i] in all;
      var k :| 0 <= k < |starts| && starts[k] == all[i];
      assert k < end;
      assert prefix[k] == base + i;
    }
  }

  /** `std::upper_bound`: the first entry that starts after `point`. */
  method UpperBound(starts: seq<Start>, point: Timestamp) returns (end: nat)
    requires Sorted(starts, StartsBefore())
    ensures end <= |starts|
    ensures forall i :: 0 <= i < end ==> starts[i].0 <= point
    ensures forall i :: end <= i < |starts| ==> point < starts[i].0
  {
    var lo, hi := 0, |starts|;
    while lo < hi
      invariant 0 <= lo <= hi <= |starts|
      invariant forall i :: 0 <= i < lo ==> starts[i].0 <= point
      invariant forall i :: hi <= i < |starts| ==> point < starts[i].0
    {
      var mid := (lo + hi) / 2;
      assert forall i, j :: 0 <= i < j < |starts| ==> !StartsBefore()(starts[j], starts[i]);
      if point < starts[mid].0 {
        hi := mid;
      } else {
        lo := mid + 1;
      }
    }
    end := lo;
  }

  method Scan(ids: seq<NodeId>, keep: NodeId -> bool) returns (kept: seq<NodeId>)
    ensures kept == Filter(ids, keep)
  {
    kept := [];
    for i := 0 to |ids|
      invariant kept == Filter(ids[..i], keep)
    {
      assert ids[..i + 1][..i] == ids[..i];
      if keep(ids[i]) {
        kept := kept + [ids[i]];
      }
    }
    assert ids[..|ids|] == ids;
  }

  /** Any sort will do: callers learn that the result is a sorted rearrangement and no more. */
  method UnstableSort<T>(s: seq<T>, before: (T, T) -> bool) returns (sorted: seq<T>)
    requires Orders(before, s)
    ensures multiset(sorted) == multiset(s) && Sorted(sorted, before)
  {
    sorted := SortStably(s, before);
    StableSortSorts(s, before);
  }

  method SortIds(ids: seq<NodeId>) returns (sorted: seq<NodeId>)
    ensures multiset(sorted) == multiset(ids)
    ensures forall i, j :: 0 <= i < j < |sorted| ==> sorted[i] <= sorted[j]
  {
    var before := (a: NodeId, b: NodeId) => a < b;
    sorted := UnstableSort(ids, before);
    assert forall i, j :: 0 <= i < j < |sorted| ==> !before(sorted[j], sorted[i]);
  }

  /** A repetition-free path that misses no kept row gives, once sorted, the scan of all rows. */
  lemma SortedScan(path: seq<NodeId>, keep: NodeId -> bool, sorted: seq<NodeId>, base: nat, size: nat)
    requires NoDuplicates(path)
    requires forall id: NodeId :: keep(id) ==> base <= id < base + size && id in path
    requires multiset(sorted) == multiset(Filter(path, keep))
    requires forall i, j :: 0 <= i < j < |sorted| ==> sorted[i] <= sorted[j]
    ensures sorted == Filter(Ids(base, size), keep)
  {
    FilterNoDuplicates(path, keep);
    PermutationFacts(Filter(path, keep), sorted);
    var all := Ids(base, size);
    FilterAscending(all, keep);
    forall id: NodeId ensures id in sorted <==> id in Filter(all, keep) {
      FilterMember(path, keep, id);
      FilterMember(all, keep, id);
      assert keep(id) ==> all[id - base] == id;
    }
    AscendingUnique(sorted, Filter(all, keep));
  }

  lemma {:induction false} FilterNoDuplicates<T>(s: seq<T>, p: T -> bool)
    requires NoDuplicates(s)
    ensures NoDuplicates(Filter(s, p))
  {
    if s == [] {
    } else {
      var n := |s| - 1;
      FilterNoDuplicates(s[..n], p);
      var kept := Filter(s[..n], p);
      forall i | 0 <= i < |kept| ensures kept[i] != s[n] {
        FilterMember(s[..n], p, kept[i]);
      }
    }
  }
}
