/** The mutable node stores: property columns, row metadata, rollback and index construction. */
module NodeStores {
  import opened Common
  import opened Sequences
  import opened Values
  import opened Histograms
  import opened NodeTables

  /** One value per property, each of its property's kind: what the typed `append` accepts. */
  predicate TypedRow(properties: seq<PropertySpec>, values: seq<Value>) {
    |values| == |properties| && forall i :: 0 <= i < |values| ==> values[i].HasKind(properties[i].kind)
  }

  /** `columns` with one more value in each column from position `from` on. */
  function WithRow(columns: map<Key, seq<Value>>, properties: seq<PropertySpec>, values: seq<Value>, from: nat)
    : map<Key, seq<Value>>
    requires from <= |properties| == |values|
    requires KeysOf(properties) <= columns.Keys
    decreases |properties| - from
  {
    if from == |properties| then columns else
    var key := properties[from].key;
    assert properties[from] in properties;
    WithRow(columns[key := columns[key] + [values[from]]], properties, values, from + 1)
  }

  lemma {:induction false} WithRowAt(
    columns: map<Key, seq<Value>>, properties: seq<PropertySpec>, values: seq<Value>, from: nat)
    requires from <= |properties| == |values| && KeysOf(properties) <= columns.Keys && UniqueKeys(properties)
    ensures WithRow(columns, properties, values, from).Keys == columns.Keys
    ensures forall i :: 0 <= i < |properties| ==>
      WithRow(columns, properties, values, from)[properties[i].key]
      == columns[properties[i].key] + if i < from then [] else [values[i]]
    decreases |properties| - from
  {
    if |properties| <= from {
    } else {
      var key := properties[from].key;
      assert properties[from] in properties;
      WithRowAt(columns[key := columns[key] + [values[from]]], properties, values, from + 1);
    }
  }

  lemma TypedWithRow(columns: map<Key, seq<Value>>, properties: seq<PropertySpec>, values: seq<Value>, size: nat)
    requires TypedColumns(properties, columns, size) && TypedRow(properties, values)
    ensures TypedColumns(properties, WithRow(columns, properties, values, 0), size + 1)
  {
    WithRowAt(columns, properties, values, 0);
    forall p | p in properties
      ensures var column := WithRow(columns, properties, values, 0)[p.key];
        |column| == size + 1 && forall v :: v in column ==> v.HasKind(p.kind)
    {
      var i :| 0 <= i < |properties| && properties[i] == p;
    }
  }

  /** Pushes column by column; a push that throws undoes the pushes before it on the way out. */
  method AppendColumns(columns: map<Key, seq<Value>>, properties: seq<PropertySpec>, values: seq<Value>,
                       index: nat, budget: nat)
    returns (after: map<Key, seq<Value>>, threw: bool)
    requires index <= |properties| == |values|
    requires UniqueKeys(properties) && KeysOf(properties) <= columns.Keys
    ensures threw <==> budget < |properties| - index
    ensures after == if threw then columns else WithRow(columns, properties, values, index)
    decreases |properties| - index
  {
    after, threw := columns, false;
    if index < |properties| {
      if budget == 0 {
        return columns, true;
      }
      var key := properties[index].key;
      assert properties[index] in properties;
      after := after[key := after[key] + [values[index]]];
      after, threw := AppendColumns(after, properties, values, index + 1, budget - 1);
      if threw {
        after := after[key := after[key][..|after[key]| - 1]];
        assert after == columns;
      }
    }
  }

  class NodeStore {
    const properties: seq<PropertySpec>
    const idBase: nat
    var columns: map<Key, seq<Value>>
    var size: nat

    ghost predicate Valid()
      reads this
    {
      TypedColumns(properties, columns, size) && (size > 0 ==> idBase + size <= INVALID_32)
    }

    constructor (properties: seq<PropertySpec>, idBase: nat, columns: map<Key, seq<Value>>, size: nat)
      requires TypedColumns(properties, columns, size) && (size > 0 ==> idBase + size <= INVALID_32)
      ensures Valid() && this.properties == properties && this.idBase == idBase
      ensures this.columns == columns && this.size == size
    {
      this.properties, this.idBase, this.columns, this.size := properties, idBase, columns, size;
    }

    method Append(values: seq<Value>, budget: nat) returns (outcome: Outcome<NodeId>)
      requires Valid() && TypedRow(properties, values)
      modifies this
      ensures Valid()
      ensures outcome ==
        if idBase + old(size) >= INVALID_32 then Returned(Err(GraphError(CapacityExceeded, "")))
        else if budget < |properties| then Threw
        else Returned(Ok(idBase + old(size)))
      ensures if outcome.Returned? && outcome.result.Ok?
        then outcome.result.value < INVALID_32 && size == old(size) + 1 &&
             columns == WithRow(old(columns), properties, values, 0)
        else size == old(size) && columns == old(columns)
    {
      if idBase + size >= INVALID_32 {
        return Returned(Err(GraphError(CapacityExceeded, "")));
      }
      ghost var before := columns;
      var threw;
      columns, threw := AppendColumns(columns, properties, values, 0, budget);
      if threw {
        return Threw;
      }
      TypedWithRow(before, properties, values, size);
      var id := Narrow32(idBase + size);
      size := size + 1;
      return Returned(Ok(id));
    }
  }

  function EmptyNodes(properties: seq<PropertySpec>, base: nat): NodeTable {
    NodeTable(base, properties, map key | key in KeysOf(properties) :: [], [], [], [], [], map[], [], [], map[], false)
  }

  class DeltaNodeStore {
    const nodes: NodeStore
    var worldlines: seq<WorldlineId>
    var valids: seq<Interval>
    var transactions: seq<Interval>
    var sources: seq<Provenance>
    var worldlineIndex: map<WorldlineId, seq<NodeId>>
    var validStarts: seq<Start>
    var transactionStarts: seq<Start>
    var propertyIndices: map<Key, PropertyIndex>
    var indicesReady: bool

    /** What a const reference to the store shows. */
    function View(): NodeTable
      reads this, nodes
    {
      NodeTable(nodes.idBase, nodes.properties, nodes.columns, worldlines, valids, transactions, sources,
                worldlineIndex, validStarts, transactionStarts, propertyIndices, indicesReady)
    }

    ghost predicate Valid()
      reads this, nodes
    {
      nodes.Valid() && nodes.size == |worldlines| && View().Valid()
    }

    /** A store holding the given table: an empty one, or one taken out of a delta to be changed. */
    constructor (table: NodeTable)
      requires table.Valid()
      ensures Valid() && fresh(nodes) && View() == table
    {
      nodes := new NodeStore(table.properties, table.idBase, table.columns, table.Size());
      worldlines, valids, transactions, sources := table.worldlines, table.valids, table.transactions, table.sources;
      worldlineIndex, propertyIndices := table.worldlineIndex, table.propertyIndices;
      validStarts, transactionStarts := table.validStarts, table.transactionStarts;
      indicesReady := table.indicesReady;
    }

    /** The four metadata pushes, with the same undo on the way out. */
    method AppendMetadata(w: WorldlineId, valid: Interval, transaction: Interval, source: Provenance, budget: nat)
      returns (threw: bool)
      modifies `worldlines, `valids, `transactions, `sources
      ensures threw <==> budget < 4
      ensures threw ==> unchanged(`worldlines, `valids, `transactions, `sources)
      ensures !threw ==> worldlines == old(worldlines) + [w] && valids == old(valids) + [valid]
      ensures !threw ==> transactions == old(transactions) + [transaction] && sources == old(sources) + [source]
    {
      if budget == 0 {
        return true;
      }
      worldlines := worldlines + [w];
      if budget > 1 {
        valids := valids + [valid];
        if budget > 2 {
          transactions := transactions + [transaction];
          if budget > 3 {
            sources := sources + [source];
            return false;
          }
          transactions := transactions[..|transactions| - 1];
        }
        valids := valids[..|valids| - 1];
      }
      worldlines := worldlines[..|worldlines| - 1];
      return true;
    }

    method PopMetadata()
      requires worldlines != [] && valids != [] && transactions != [] && sources != []
      modifies `worldlines, `valids, `transactions, `sources
      ensures worldlines == old(worldlines)[..|old(worldlines)| - 1] && valids == old(valids)[..|old(valids)| - 1]
      ensures transactions == old(transactions)[..|old(transactions)| - 1]
      ensures sources == old(sources)[..|old(sources)| - 1]
    {
      worldlines, valids := worldlines[..|worldlines| - 1], valids[..|valids| - 1];
      transactions, sources := transactions[..|transactions| - 1], sources[..|sources| - 1];
    }

    /** Metadata first, then the property columns; whatever fails, the earlier pushes are undone. */
    method PushRow(w: WorldlineId, valid: Interval, transaction: Interval, source: Provenance,
                   values: seq<Value>, budget: nat)
      returns (outcome: Outcome<NodeId>)
      requires nodes.Valid() && nodes.size == |worldlines| && TypedRow(nodes.properties, values)
      modifies this, nodes
      ensures nodes.Valid() && nodes.size == |worldlines| && !indicesReady
      ensures outcome ==
        if budget < 4 then Threw
        else if old(View()).Extent() >= INVALID_32 then Returned(Err(GraphError(CapacityExceeded, "")))
        else if budget - 4 < |nodes.properties| then Threw
        else Returned(Ok(old(View()).Extent()))
      ensures View() ==
        if outcome.Returned? && outcome.result.Ok?
        then AppendedRow(old(View()), w, valid, transaction, source, values)
        else old(View()).(indicesReady := false)
    {
      hide TypedColumns;
      indicesReady := false;
      var threw := AppendMetadata(w, valid, transaction, source, budget);
      if threw {
        return Threw;
      }
      ValidKeys(nodes.properties, nodes.columns, nodes.size);
      outcome := nodes.Append(values, budget - 4);
      if outcome == Threw || outcome.result.Err? {
        PopMetadata();
      }
    }

    /** Append a row, or leave every row as it was: by an error, or by an allocation that throws. */
    method Append(w: WorldlineId, valid: Interval, transaction: Interval, source: Provenance,
                  values: seq<Value>, budget: nat)
      returns (outcome: Outcome<NodeId>)
      requires Valid() && TypedRow(nodes.properties, values)
      modifies this, nodes
      ensures Valid()
      ensures RowOutcome(old(View()), View(), w, valid, transaction, source, values, budget, outcome)
    {
      if w == INVALID_64 {
        return Returned(Err(GraphError(InvalidId, "delta row worldline ID must be valid")));
      }
      outcome := PushRow(w, valid, transaction, source, values, budget);
      RowOutcomeValid(old(View()), View(), w, valid, transaction, source, values, budget, outcome);
    }

    /** Rebuild every index from the rows; the rows themselves stay as they are. */
    method BuildIndices()
      requires Valid()
      modifies this
      ensures Valid() && indicesReady
      ensures View().Data() == old(View().Data())
    {
      indicesReady := false;
      worldlineIndex, validStarts, transactionStarts := IndexRows(worldlines, valids, transactions, nodes.idBase);
      validStarts := UnstableSort(validStarts, StartsBefore());
      transactionStarts := UnstableSort(transactionStarts, StartsBefore());
      propertyIndices := IndexProperties(nodes.properties, nodes.columns, nodes.size, nodes.idBase);
      indicesReady := true;
    }
  }

  method IndexRows(worldlines: seq<WorldlineId>, valids: seq<Interval>, transactions: seq<Interval>, base: nat)
    returns (index: map<WorldlineId, seq<NodeId>>, validStarts: seq<Start>, transactionStarts: seq<Start>)
    requires |worldlines| == |valids| == |transactions|
    requires |worldlines| > 0 ==> base + |worldlines| <= INVALID_32
    ensures IndexesWorldlines(index, worldlines, base)
    ensures validStarts == Starts(valids, base) && transactionStarts == Starts(transactions, base)
  {
    hide IndexesWorldlines;
    index, validStarts, transactionStarts := map[], [], [];
    NothingIndexed(base);
    for row := 0 to |worldlines|
      invariant IndexesWorldlines(index, worldlines[..row], base)
      invariant validStarts == Starts(valids[..row], base)
      invariant transactionStarts == Starts(transactions[..row], base)
    {
      var id := Narrow32(base + row);
      var w := worldlines[row];
      assert worldlines[..row + 1] == worldlines[..row] + [w];
      IndexOneMore(index, worldlines[..row], base, w);
      index := index[w := (if w in index then index[w] else []) + [id]];
      StartsStep(valids, base, row);
      StartsStep(transactions, base, row);
      validStarts := validStarts + [(valids[row].from, id)];
      transactionStarts := transactionStarts + [(transactions[row].from, id)];
    }
    assert worldlines[..|worldlines|] == worldlines;
    assert valids[..|valids|] == valids && transactions[..|transactions|] == transactions;
  }

  method IndexProperties(properties: seq<PropertySpec>, columns: map<Key, seq<Value>>, size: nat, base: nat)
    returns (indices: map<Key, PropertyIndex>)
    requires TypedColumns(properties, columns, size)
    requires size > 0 ==> base + size <= INVALID_32
    ensures indices.Keys == KeysOf(properties)
    ensures forall p :: p in properties ==> IndexesProperty(indices[p.key], columns[p.key], p.kind, base)
  {
    hide IndexesProperty;
    indices := map[];
    for i := 0 to |properties|
      invariant indices.Keys == KeysOf(properties[..i])
      invariant forall j :: 0 <= j < i ==> properties[j].key in columns && properties[j].key in indices
      invariant forall j :: 0 <= j < i ==>
        IndexesProperty(indices[properties[j].key], columns[properties[j].key], properties[j].kind, base)
    {
      var p := properties[i];
      assert p in properties && properties[..i + 1] == properties[..i] + [p];
      var index := IndexProperty(columns[p.key], p.kind, base);
      indices := indices[p.key := index];
    }
    assert properties[..|properties|] == properties;
  }

  method IndexProperty(column: seq<Value>, kind: Kind, base: nat) returns (index: PropertyIndex)
    requires |column| > 0 ==> base + |column| <= INVALID_32
    ensures IndexesProperty(index, column, kind, base)
  {
    var rows := [];
    for row := 0 to |column|
      invariant rows == Ids(base, row)
    {
      rows := rows + [Narrow32(base + row)];
    }
    var histogram := EMPTY;
    if Arithmetic(kind) {
      histogram := Build(column);
    }
    index := PropertyIndex(rows, histogram);
  }

  lemma StartsStep(spans: seq<Interval>, base: nat, row: nat)
    requires row < |spans|
    ensures Starts(spans[..row + 1], base) == Starts(spans[..row], base) + [(spans[row].from, base + row)]
  {
  }

  lemma NothingIndexed(base: nat)
    ensures IndexesWorldlines(map[], [], base)
  {
  }

  lemma IndexOneMore(index: map<WorldlineId, seq<NodeId>>, worldlines: seq<WorldlineId>, base: nat, w: WorldlineId)
    requires IndexesWorldlines(index, worldlines, base)
    ensures IndexesWorldlines(
      index[w := (if w in index then index[w] else []) + [base + |worldlines|]], worldlines + [w], base)
  {
    assert (worldlines + [w])[..|worldlines|] == worldlines;
    NoRowsOf(worldlines, base, w);
  }

  /** The table with one more row and its indices marked stale. */
  function AppendedRow(t: NodeTable, w: WorldlineId, valid: Interval, transaction: Interval,
                       source: Provenance, values: seq<Value>): NodeTable
    requires KeysOf(t.properties) <= t.columns.Keys && |values| == |t.properties|
  {
    t.(columns := WithRow(t.columns, t.properties, values, 0),
       worldlines := t.worldlines + [w], valids := t.valids + [valid],
       transactions := t.transactions + [transaction], sources := t.sources + [source],
       indicesReady := false)
  }

  /** What an append answers and what it does to the table it is sent to. */
  ghost predicate RowOutcome(before: NodeTable, after: NodeTable, w: WorldlineId, valid: Interval,
                             transaction: Interval, source: Provenance, values: seq<Value>,
                             budget: nat, outcome: Outcome<NodeId>)
    requires KeysOf(before.properties) <= before.columns.Keys && |values| == |before.properties|
  {
    if w == INVALID_64 then
      outcome == Returned(Err(GraphError(InvalidId, "delta row worldline ID must be valid"))) && after == before
    else if budget < 4 then
      outcome == Threw && after == before.(indicesReady := false)
    else if before.Extent() >= INVALID_32 then
      outcome == Returned(Err(GraphError(CapacityExceeded, ""))) && after == before.(indicesReady := false)
    else if budget - 4 < |before.properties| then
      outcome == Threw && after == before.(indicesReady := false)
    else
      outcome == Returned(Ok(before.Extent())) && after == AppendedRow(before, w, valid, transaction, source, values)
  }

  lemma ValidKeys(properties: seq<PropertySpec>, columns: map<Key, seq<Value>>, size: nat)
    requires TypedColumns(properties, columns, size)
    ensures KeysOf(properties) == columns.Keys
  {
  }

  lemma RowOutcomeValid(before: NodeTable, after: NodeTable, w: WorldlineId, valid: Interval, transaction: Interval,
                        source: Provenance, values: seq<Value>, budget: nat, outcome: Outcome<NodeId>)
    requires before.Valid() && TypedRow(before.properties, values)
    requires RowOutcome(before, after, w, valid, transaction, source, values, budget, outcome)
    ensures after.Valid()
  {
    hide NodeTable.IndicesCurrent;
    TypedWithRow(before.columns, before.properties, values, before.Size());
  }

  /** Take the table into a store, append there, and take it out again. */
  method AppendTo(table: NodeTable, w: WorldlineId, valid: Interval, transaction: Interval, source: Provenance,
                  values: seq<Value>, budget: nat)
    returns (after: NodeTable, outcome: Outcome<NodeId>)
    requires table.Valid() && TypedRow(table.properties, values)
    ensures after.Valid() && RowOutcome(table, after, w, valid, transaction, source, values, budget, outcome)
  {
    var store := new DeltaNodeStore(table);
    outcome := store.Append(w, valid, transaction, source, values, budget);
    after := store.View();
  }

  method Indexed(table: NodeTable) returns (after: NodeTable)
    requires table.Valid()
    ensures after.Valid() && after.indicesReady && after.Data() == table.Data()
  {
    var store := new DeltaNodeStore(table);
    store.BuildIndices();
    after := store.View();
  }
}
