/** Edges of one relation: the edge table, the two adjacency maps that invert it, and degree statistics. */
module AdjacencyStores {
  import opened Common
  import opened Sequences
  import opened Values
  import opened NodeTables
  import opened NodeStores

  datatype DegreeStatistics = DegreeStatistics(
    edgeCount: nat, sourceCount: nat, maximumOutDegree: nat, averageOutDegree: real)

  type Adjacency = map<NodeId, seq<EdgeId>>

  /** A lookup: an absent key and an empty list are the same to a reader. */
  function Lookup(adjacency: Adjacency, node: NodeId): seq<EdgeId> {
    if node in adjacency then adjacency[node] else []
  }

  /** The map lists, for every node, the edges whose endpoint column names it, in order. */
  ghost predicate Inverts(adjacency: Adjacency, endpoints: seq<NodeId>, base: nat) {
    forall node: NodeId :: Lookup(adjacency, node) == RowsOf(endpoints, base, node)
  }

  /** A view of an adjacency store: what a const reference to it shows. */
  datatype EdgeTable = EdgeTable(
    idBase: nat,
    properties: seq<PropertySpec>,
    sources: seq<NodeId>,
    targets: seq<NodeId>,
    columns: map<Key, seq<Value>>,
    outgoing: Adjacency,
    incoming: Adjacency,
    size: nat,
    statistics: DegreeStatistics,
    statisticsReady: bool)
  {
    function Extent(): nat {
      idBase + size
    }

    /** Endpoints, identifiers and adjacency maps fit together. */
    ghost predicate Linked() {
      && |sources| == |targets| == size
      && (size > 0 ==> Extent() <= INVALID_32)
      && Inverts(outgoing, sources, idBase) && Inverts(incoming, targets, idBase)
    }

    ghost predicate Valid() {
      Linked() && TypedColumns(properties, columns, size) && (statisticsReady ==> StatisticsCurrent())
    }

    ghost predicate StatisticsCurrent() {
      && statistics.edgeCount == size
      && statistics.sourceCount == |outgoing|
      && (forall s :: s in outgoing ==> |outgoing[s]| <= statistics.maximumOutDegree)
      && (if |outgoing| == 0 then statistics.maximumOutDegree == 0 && statistics.averageOutDegree == 0.0
          else (exists s :: s in outgoing && |outgoing[s]| == statistics.maximumOutDegree) &&
               statistics.averageOutDegree == size as real / |outgoing| as real)
    }

    predicate Contains(id: EdgeId) {
      id != INVALID_32 && idBase <= id < Extent()
    }

    function CheckedRow(id: EdgeId): Result<nat> {
      if id == INVALID_32 then Err(GraphError(InvalidId, ""))
      else if id < idBase || id >= Extent() then Err(GraphError(IdNotFound, ""))
      else Ok(id - idBase)
    }

    function Source(id: EdgeId): Result<NodeId>
      requires |sources| == size
    {
      match CheckedRow(id)
      case Err(e) => Err(e)
      case Ok(row) => Ok(sources[row])
    }

    function Target(id: EdgeId): Result<NodeId>
      requires |targets| == size
    {
      match CheckedRow(id)
      case Err(e) => Err(e)
      case Ok(row) => Ok(targets[row])
    }
  }

  /** An edge has its endpoints exactly if the store holds it. */
  lemma EndpointsExactly(t: EdgeTable, edge: EdgeId)
    requires t.Linked()
    ensures var error := GraphError(if edge == INVALID_32 then InvalidId else IdNotFound, "");
      if t.idBase <= edge < t.Extent()
      then t.Source(edge) == Ok(t.sources[edge - t.idBase]) && t.Target(edge) == Ok(t.targets[edge - t.idBase])
      else t.Source(edge) == Err(error) && t.Target(edge) == Err(error)
  {
    hide Inverts;
  }

  /** `list` holds, in ascending order, exactly the edges whose endpoint is `node`. */
  ghost predicate Exactly(list: seq<EdgeId>, endpoints: seq<NodeId>, base: nat, node: NodeId) {
    Ascending(list) && forall e: EdgeId :: e in list <==> base <= e < base + |endpoints| && endpoints[e - base] == node
  }

  /** Both maps invert the edge table: strictly ascending, complete, and nothing else. */
  lemma AdjacencyInvertsEdges(t: EdgeTable, node: NodeId)
    requires t.Linked()
    ensures Exactly(Lookup(t.outgoing, node), t.sources, t.idBase, node)
    ensures Exactly(Lookup(t.incoming, node), t.targets, t.idBase, node)
  {
    InvertedLookup(t.outgoing, t.sources, t.idBase, node);
    InvertedLookup(t.incoming, t.targets, t.idBase, node);
  }

  lemma InvertedLookup(adjacency: Adjacency, endpoints: seq<NodeId>, base: nat, node: NodeId)
    requires Inverts(adjacency, endpoints, base)
    ensures Exactly(Lookup(adjacency, node), endpoints, base, node)
  {
    RowsOfMembers(endpoints, base, node);
  }

  /** `before` with `id` behind the list of `key`. */
  function Listing(before: Adjacency, key: NodeId, id: EdgeId): Adjacency {
    before[key := Lookup(before, key) + [id]]
  }

  /** Nothing listed; a missing key is there with an empty list if its allocation was still possible. */
  function Touched(before: Adjacency, key: NodeId, budget: nat): Adjacency {
    if key in before || budget == 0 then before else before[key := []]
  }

  /** The allocations of one push: the key, if it is missing, and the list. */
  function Needed(adjacency: Adjacency, key: NodeId): nat {
    if key in adjacency then 1 else 2
  }

  /** `map[key].push_back(id)`: a missing key is one allocation, the push another. */
  method PushBack(adjacency: Adjacency, key: NodeId, id: EdgeId, budget: nat)
    returns (after: Adjacency, pushed: bool, left: nat)
    ensures pushed <==> Needed(adjacency, key) <= budget
    ensures pushed ==> left == budget - Needed(adjacency, key) && after == Listing(adjacency, key, id)
    ensures !pushed ==> after == Touched(adjacency, key, budget)
  {
    after, pushed, left := adjacency, false, budget;
    if key !in after {
      if left == 0 {
        return;
      }
      after, left := after[key := []], left - 1;
    }
    if left == 0 {
      return;
    }
    after, pushed, left := after[key := after[key] + [id]], true, left - 1;
  }

  /** How many allocations an append makes when none of them fails. */
  function Pushes(t: EdgeTable, source: NodeId, target: NodeId): nat {
    2 + |t.properties| + Needed(t.outgoing, source) + Needed(t.incoming, target)
  }

  function Spare(budget: nat, spent: nat): nat {
    if budget < spent then 0 else budget - spent
  }

  /** The table after an append that threw: every row as before, and perhaps a new key without edges. */
  function Undone(before: EdgeTable, source: NodeId, target: NodeId, budget: nat): EdgeTable {
    var left := Spare(budget, 2 + |before.properties|);
    before.(outgoing := Touched(before.outgoing, source, left),
            incoming := Touched(before.incoming, target, Spare(left, Needed(before.outgoing, source))),
            statisticsReady := false)
  }

  /** One more row in every column and one more identifier in both lists. */
  ghost predicate Appended(before: EdgeTable, after: EdgeTable, source: NodeId, target: NodeId, values: seq<Value>)
    requires |values| == |before.properties| && KeysOf(before.properties) <= before.columns.Keys
  {
    && after.idBase == before.idBase && after.properties == before.properties && after.size == before.size + 1
    && after.sources == before.sources + [source] && after.targets == before.targets + [target]
    && after.columns == WithRow(before.columns, before.properties, values, 0)
    && after.outgoing == Listing(before.outgoing, source, before.Extent())
    && after.incoming == Listing(before.incoming, target, before.Extent())
  }

  function EmptyEdges(properties: seq<PropertySpec>, base: nat): EdgeTable {
    EdgeTable(base, properties, [], [], map key | key in KeysOf(properties) :: [], map[], map[], 0,
              DegreeStatistics(0, 0, 0, 0.0), false)
  }

  class AdjacencyStore {
    const properties: seq<PropertySpec>
    const idBase: nat
    var sources: seq<NodeId>
    var targets: seq<NodeId>
    var columns: map<Key, seq<Value>>
    var outgoing: Adjacency
    var incoming: Adjacency
    var size: nat
    var statistics: DegreeStatistics
    var statisticsReady: bool

    function View(): EdgeTable
      reads this
    {
      EdgeTable(idBase, properties, sources, targets, columns, outgoing, incoming, size, statistics, statisticsReady)
    }

    ghost predicate Valid()
      reads this
    {
      View().Valid()
    }

    /** A store holding the given table: an empty one, or one taken out of a delta to be changed. */
    constructor (table: EdgeTable)
      requires table.Valid()
      ensures Valid() && View() == table
    {
      properties, idBase, size := table.properties, table.idBase, table.size;
      sources, targets, columns := table.sources, table.targets, table.columns;
      outgoing, incoming := table.outgoing, table.incoming;
      statistics, statisticsReady := table.statistics, table.statisticsReady;
    }

    method AppendEndpoints(source: NodeId, target: NodeId, values: seq<Value>, budget: nat) returns (threw: bool)
      requires |values| == |properties| && UniqueKeys(properties) && columns.Keys == KeysOf(properties)
      modifies `sources, `targets, `columns
      ensures threw <==> budget < 2 + |properties|
      ensures threw ==> unchanged(`sources, `targets, `columns)
      ensures !threw ==> sources == old(sources) + [source] && targets == old(targets) + [target]
      ensures !threw ==> columns == WithRow(old(columns), properties, values, 0)
    {
      if budget == 0 {
        return true;
      }
      sources := sources + [source];
      if budget > 1 {
        targets := targets + [target];
        columns, threw := AppendColumns(columns, properties, values, 0, budget - 2);
        if !threw {
          return false;
        }
        targets := targets[..|targets| - 1];
      }
      sources := sources[..|sources| - 1];
      return true;
    }

    /** Removes the row an append has just pushed onto every column. */
    method PopColumns(ghost before: map<Key, seq<Value>>, ghost values: seq<Value>)
      requires sources != [] && targets != [] && TypedColumns(properties, before, |sources| - 1)
      requires |values| == |properties| && columns == WithRow(before, properties, values, 0)
      modifies `sources, `targets, `columns
      ensures sources == old(sources)[..|old(sources)| - 1] && targets == old(targets)[..|old(targets)| - 1]
      ensures columns == before
    {
      WithRowAt(before, properties, values, 0);
      forall key | key in columns ensures columns[key] != [] && columns[key][..|columns[key]| - 1] == before[key] {
        var p :| p in properties && p.key == key;
        var i :| 0 <= i < |properties| && properties[i] == p;
      }
      sources, targets := sources[..|sources| - 1], targets[..|targets| - 1];
      columns := map key | key in columns :: columns[key][..|columns[key]| - 1];
    }

    /** Lists the edge under both endpoints; a push that throws takes the first listing back. */
    method PushBoth(source: NodeId, target: NodeId, id: EdgeId, budget: nat) returns (pushed: bool)
      modifies `outgoing, `incoming
      ensures pushed <==> budget >= Needed(old(outgoing), source) + Needed(old(incoming), target)
      ensures pushed ==> outgoing == Listing(old(outgoing), source, id)
      ensures pushed ==> incoming == Listing(old(incoming), target, id)
      ensures !pushed ==> outgoing == Touched(old(outgoing), source, budget)
      ensures !pushed ==> incoming == Touched(old(incoming), target, Spare(budget, Needed(old(outgoing), source)))
    {
      var left;
      outgoing, pushed, left := PushBack(outgoing, source, id, budget);
      if pushed {
        incoming, pushed, left := PushBack(incoming, target, id, left);
        if !pushed {
          outgoing := outgoing[source := outgoing[source][..|outgoing[source]| - 1]];
        }
      }
    }

    /** All pushes of an append, in order; if one throws, the ones before it are undone. */
    method PushEdge(source: NodeId, target: NodeId, values: seq<Value>, budget: nat) returns (id: EdgeId, threw: bool)
      requires |values| == |properties| && TypedColumns(properties, columns, |sources|)
      requires View().Extent() < INVALID_32
      modifies this
      ensures !statisticsReady && id == old(View()).Extent()
      ensures threw <==> budget < Pushes(old(View()), source, target)
      ensures if threw then View() == Undone(old(View()), source, target, budget)
              else Appended(old(View()), View(), source, target, values)
    {
      statisticsReady := false;
      id := Narrow32(idBase + size);
      threw := AppendEndpoints(source, target, values, budget);
      if !threw {
        var pushed := PushBoth(source, target, id, budget - 2 - |properties|);
        if pushed {
          size := size + 1;
        } else {
          PopColumns(old(columns), values);
          threw := true;
        }
      }
    }

    /** Append an edge, or leave every lookup as it was: by an error, or by a push that throws anywhere. */
    method Append(source: NodeId, target: NodeId, values: seq<Value>, budget: nat)
      returns (outcome: Outcome<EdgeId>)
      requires Valid() && TypedRow(properties, values)
      modifies this
      ensures Valid()
      ensures AppendOutcome(old(View()), View(), source, target, values, budget, outcome)
    {
      if source == INVALID_32 || target == INVALID_32 {
        return Returned(Err(GraphError(InvalidId, "edge endpoints must be valid")));
      }
      if idBase + size >= INVALID_32 {
        return Returned(Err(GraphError(CapacityExceeded, "")));
      }
      var id, threw := PushEdge(source, target, values, budget);
      if threw {
        UndoneValid(old(View()), source, target, budget);
        return Threw;
      }
      AppendedValid(old(View()), View(), source, target, values);
      return Returned(Ok(id));
    }

    method BuildStatistics()
      requires Valid()
      modifies `statistics, `statisticsReady
      ensures Valid() && statisticsReady
      ensures View() == old(View()).(statistics := statistics, statisticsReady := true)
    {
      var maximum, rest := 0, outgoing.Keys;
      while rest != {}
        invariant rest <= outgoing.Keys
        invariant forall s :: s in outgoing && s !in rest ==> |outgoing[s]| <= maximum
        invariant if rest == outgoing.Keys then maximum == 0
                  else exists s :: s in outgoing && |outgoing[s]| == maximum
        decreases rest
      {
        var s :| s in rest;
        if maximum < |outgoing[s]| {
          maximum := |outgoing[s]|;
        } else if rest == outgoing.Keys {
          assert |outgoing[s]| == maximum;
        }
        rest := rest - {s};
      }
      var average := if |outgoing| != 0 then size as real / |outgoing| as real else 0.0;
      statistics := DegreeStatistics(size, |outgoing|, maximum, average);
      statisticsReady := true;
    }
  }

  predicate SameEdges(before: EdgeTable, after: EdgeTable) {
    after == before.(statistics := after.statistics, statisticsReady := after.statisticsReady)
  }

  /** What an append answers and what it does to the table it is sent to. */
  ghost predicate AppendOutcome(before: EdgeTable, after: EdgeTable, source: NodeId, target: NodeId,
                                values: seq<Value>, budget: nat, outcome: Outcome<EdgeId>)
    requires |values| == |before.properties| && KeysOf(before.properties) <= before.columns.Keys
  {
    if source == INVALID_32 || target == INVALID_32 then
      outcome == Returned(Err(GraphError(InvalidId, "edge endpoints must be valid"))) && after == before
    else if before.Extent() >= INVALID_32 then
      outcome == Returned(Err(GraphError(CapacityExceeded, ""))) && after == before
    else if budget < Pushes(before, source, target) then
      outcome == Threw && after == Undone(before, source, target, budget)
    else
      outcome == Returned(Ok(before.Extent())) && Appended(before, after, source, target, values)
  }

  /** Take the table into a store, append there, and take it out again. */
  method AppendEdgeTo(table: EdgeTable, source: NodeId, target: NodeId, values: seq<Value>, budget: nat)
    returns (after: EdgeTable, outcome: Outcome<EdgeId>)
    requires table.Valid() && TypedRow(table.properties, values)
    ensures after.Valid() && AppendOutcome(table, after, source, target, values, budget, outcome)
  {
    var store := new AdjacencyStore(table);
    outcome := store.Append(source, target, values, budget);
    after := store.View();
  }

  method WithStatistics(table: EdgeTable) returns (after: EdgeTable)
    requires table.Valid()
    ensures after.Valid() && after.statisticsReady && SameEdges(table, after)
  {
    var store := new AdjacencyStore(table);
    store.BuildStatistics();
    after := store.View();
  }

  lemma InvertsOneMore(before: Adjacency, after: Adjacency, endpoints: seq<NodeId>, base: nat, key: NodeId)
    requires Inverts(before, endpoints, base) && after == Listing(before, key, base + |endpoints|)
    ensures Inverts(after, endpoints + [key], base)
  {
    assert (endpoints + [key])[..|endpoints|] == endpoints;
  }

  lemma AppendedValid(before: EdgeTable, after: EdgeTable, source: NodeId, target: NodeId, values: seq<Value>)
    requires before.Valid() && TypedRow(before.properties, values) && before.Extent() < INVALID_32
    requires !after.statisticsReady && Appended(before, after, source, target, values)
    ensures after.Valid()
  {
    AppendedLinked(before, after, source, target);
    TypedWithRow(before.columns, before.properties, values, before.size);
  }

  lemma AppendedLinked(before: EdgeTable, after: EdgeTable, source: NodeId, target: NodeId)
    requires before.Linked() && before.Extent() < INVALID_32
    requires after.idBase == before.idBase && after.size == before.size + 1
    requires after.sources == before.sources + [source] && after.targets == before.targets + [target]
    requires after.outgoing == Listing(before.outgoing, source, before.Extent())
    requires after.incoming == Listing(before.incoming, target, before.Extent())
    ensures after.Linked()
  {
    InvertsOneMore(before.outgoing, after.outgoing, before.sources, before.idBase, source);
    InvertsOneMore(before.incoming, after.incoming, before.targets, before.idBase, target);
  }

  lemma UndoneValid(before: EdgeTable, source: NodeId, target: NodeId, budget: nat)
    requires before.Valid()
    ensures Undone(before, source, target, budget).Valid()
  {
    TouchedLookups(before.outgoing, source);
    TouchedLookups(before.incoming, target);
  }

  /** No key without edges: true of a new table and kept by every append that does not throw. */
  ghost predicate Tight(adjacency: Adjacency) {
    forall node :: node in adjacency ==> adjacency[node] != []
  }

  lemma TightUnlessThrown(before: EdgeTable, after: EdgeTable, source: NodeId, target: NodeId,
                          values: seq<Value>, budget: nat, outcome: Outcome<EdgeId>)
    requires |values| == |before.properties| && KeysOf(before.properties) <= before.columns.Keys
    requires AppendOutcome(before, after, source, target, values, budget, outcome)
    requires Tight(before.outgoing) && outcome.Returned?
    ensures Tight(after.outgoing)
  {
  }

  /** After a failed append every lookup, every endpoint and every property reads as before. */
  lemma UndoneReadsAsBefore(before: EdgeTable, source: NodeId, target: NodeId, budget: nat, node: NodeId, e: EdgeId)
    requires before.Valid()
    ensures var after := Undone(before, source, target, budget);
      && after.Valid() && after.columns == before.columns
      && Lookup(after.outgoing, node) == Lookup(before.outgoing, node)
      && Lookup(after.incoming, node) == Lookup(before.incoming, node)
      && after.Source(e) == before.Source(e) && after.Target(e) == before.Target(e)
  {
    UndoneValid(before, source, target, budget);
  }

  /** A failed append leaves a key without edges exactly if the key is new and was still allocated. */
  lemma UndoneTight(before: EdgeTable, source: NodeId, target: NodeId, budget: nat)
    requires Tight(before.outgoing)
    ensures Tight(Undone(before, source, target, budget).outgoing)
       <==> source in before.outgoing || budget <= 2 + |before.properties|
  {
    var after := Undone(before, source, target, budget).outgoing;
    assert source !in before.outgoing && budget > 2 + |before.properties| ==> source in after && after[source] == [];
  }

  lemma TouchedLookups(before: Adjacency, key: NodeId)
    ensures forall node, budget :: Lookup(Touched(before, key, budget), node) == Lookup(before, node)
  {
  }

  // ---- Degrees ----

  ghost function SumOver(keys: set<NodeId>, f: NodeId -> nat): nat {
    if keys == {} then 0 else
    var k :| k in keys;
    f(k) + SumOver(keys - {k}, f)
  }

  lemma {:induction false} SumPick(keys: set<NodeId>, f: NodeId -> nat, k: NodeId)
    requires k in keys
    ensures SumOver(keys, f) == f(k) + SumOver(keys - {k}, f)
  {
    var first :| first in keys && SumOver(keys, f) == f(first) + SumOver(keys - {first}, f);
    if first == k {
    } else {
      SumPick(keys - {first}, f, k);
      SumPick(keys - {k}, f, first);
      assert keys - {first} - {k} == keys - {k} - {first};
    }
  }

  lemma {:induction false} SumAgree(keys: set<NodeId>, f: NodeId -> nat, g: NodeId -> nat)
    requires forall k :: k in keys ==> f(k) == g(k)
    ensures SumOver(keys, f) == SumOver(keys, g)
  {
    if keys == {} {
    } else {
      var k :| k in keys;
      SumPick(keys, f, k);
      SumPick(keys, g, k);
      SumAgree(keys - {k}, f, g);
    }
  }

  lemma {:induction false} SumAtMost(keys: set<NodeId>, f: NodeId -> nat, bound: nat)
    requires forall k :: k in keys ==> f(k) <= bound
    ensures SumOver(keys, f) <= bound * |keys|
  {
    if keys == {} {
    } else {
      var k :| k in keys;
      SumPick(keys, f, k);
      SumAtMost(keys - {k}, f, bound);
      OneMoreTimes(bound, |keys - {k}|);
      assert |keys| == |keys - {k}| + 1;
    }
  }

  lemma OneMoreTimes(bound: nat, n: nat)
    ensures bound * (n + 1) == bound * n + bound
  {
  }

  function DegreeIn(endpoints: seq<NodeId>, base: nat): NodeId -> nat {
    (node: NodeId) => |RowsOf(endpoints, base, node)|
  }

  lemma {:induction false} DegreesSum(endpoints: seq<NodeId>, base: nat, keys: set<NodeId>)
    requires forall i :: 0 <= i < |endpoints| ==> endpoints[i] in keys
    ensures SumOver(keys, DegreeIn(endpoints, base)) == |endpoints|
  {
    if endpoints == [] {
      SumAtMost(keys, DegreeIn(endpoints, base), 0);
    } else {
      var n := |endpoints| - 1;
      var k := endpoints[n];
      var f, g := DegreeIn(endpoints, base), DegreeIn(endpoints[..n], base);
      DegreesSum(endpoints[..n], base, keys);
      SumPick(keys, f, k);
      SumPick(keys, g, k);
      SumAgree(keys - {k}, f, g);
    }
  }

  function DegreeOf(adjacency: Adjacency): NodeId -> nat {
    (node: NodeId) => |Lookup(adjacency, node)|
  }

  /** List lengths add up to the number of edges, whatever empty lists a failed append left behind. */
  lemma LengthsSumToEdges(t: EdgeTable)
    requires t.Valid()
    ensures SumOver(t.outgoing.Keys, DegreeOf(t.outgoing)) == t.size
    ensures SumOver(t.incoming.Keys, DegreeOf(t.incoming)) == t.size
  {
    LengthsSum(t.outgoing, t.sources, t.idBase);
    LengthsSum(t.incoming, t.targets, t.idBase);
  }

  lemma ListedKey(adjacency: Adjacency, endpoints: seq<NodeId>, base: nat, i: nat)
    requires Inverts(adjacency, endpoints, base) && i < |endpoints|
    ensures endpoints[i] in adjacency
  {
    RowsOfMembers(endpoints, base, endpoints[i]);
    assert base + i in Lookup(adjacency, endpoints[i]);
  }

  lemma LengthsSum(adjacency: Adjacency, endpoints: seq<NodeId>, base: nat)
    requires Inverts(adjacency, endpoints, base)
    ensures SumOver(adjacency.Keys, DegreeOf(adjacency)) == |endpoints|
  {
    forall i | 0 <= i < |endpoints|
      ensures endpoints[i] in adjacency
    {
      ListedKey(adjacency, endpoints, base, i);
    }
    SumAgree(adjacency.Keys, DegreeOf(adjacency), DegreeIn(endpoints, base));
    DegreesSum(endpoints, base, adjacency.Keys);
  }

  /** The published average out-degree never exceeds the published maximum. */
  lemma AverageAtMostMaximum(t: EdgeTable)
    requires t.Valid() && t.statisticsReady
    ensures t.statistics.averageOutDegree <= t.statistics.maximumOutDegree as real
  {
    if |t.outgoing| != 0 {
      LengthsSumToEdges(t);
      SumAtMost(t.outgoing.Keys, DegreeOf(t.outgoing), t.statistics.maximumOutDegree);
      assert |t.outgoing.Keys| == |t.outgoing|;
      QuotientAtMost(t.size, |t.outgoing|, t.statistics.maximumOutDegree);
    }
  }

  lemma QuotientAtMost(size: nat, count: nat, bound: nat)
    requires count > 0 && size <= bound * count
    ensures size as real / count as real <= bound as real
  {
    var q, n, b := size as real / count as real, count as real, bound as real;
    assert q * n == size as real;
    assert (bound * count) as real == b * n;
    assert (q - b) * n <= 0.0;
  }
}
