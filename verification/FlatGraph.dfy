/** The flattened graph: every row and edge of a layered chain in one list, and what a plain scan sees. */
module FlatGraphs {
  import opened Common
  import opened Sequences
  import opened Values

  /** The point a layer was published for. */
  datatype Coordinates = Coordinates(worldline: WorldlineId, validAt: Timestamp, knownAt: Timestamp)

  /** A row together with the coordinates of the layer that owns it: those decide whether it is seen. */
  datatype FlatRow = FlatRow(
    id: NodeId, worldline: WorldlineId, valid: Interval, transaction: Interval,
    owner: Coordinates, values: map<Key, Value>)
  {
    predicate Visible() {
      && worldline == owner.worldline
      && valid.Contains(owner.validAt)
      && transaction.Contains(owner.knownAt)
    }
  }

  datatype FlatEdge = FlatEdge(id: EdgeId, source: NodeId, target: NodeId)

  /** `at` are the coordinates of the snapshot itself; rows keep those of their layers. */
  datatype Flat = Flat(at: Coordinates, rows: map<Tag, seq<FlatRow>>, edges: map<EdgeType, seq<FlatEdge>>)

  function RowsOfTag(flat: Flat, tag: Tag): seq<FlatRow> {
    if tag in flat.rows then flat.rows[tag] else []
  }

  function EdgesOfType(flat: Flat, e: EdgeType): seq<FlatEdge> {
    if e in flat.edges then flat.edges[e] else []
  }

  function Seen(): FlatRow -> bool {
    (row: FlatRow) => row.Visible()
  }

  function RowId(): FlatRow -> NodeId {
    (row: FlatRow) => row.id
  }

  function FindRow(rows: seq<FlatRow>, id: NodeId): Option<FlatRow> {
    if rows == [] then None
    else if rows[|rows| - 1].id == id then Some(rows[|rows| - 1])
    else FindRow(rows[..|rows| - 1], id)
  }

  predicate IsVisible(rows: seq<FlatRow>, id: NodeId) {
    FindRow(rows, id).Some? && FindRow(rows, id).value.Visible()
  }

  /** The value a query reads; only rows of the schema's node type are ever looked up. */
  function ValueOf(rows: seq<FlatRow>, key: Key, id: NodeId): Value {
    var found := FindRow(rows, id);
    if found.Some? && key in found.value.values then found.value.values[key] else NaN
  }

  /** The rows a scan sees, in identifier order. */
  function VisibleIds(rows: seq<FlatRow>): seq<NodeId> {
    Map(Filter(rows, Seen()), RowId())
  }

  function Satisfies(rows: seq<FlatRow>, key: Key, op: Operator, value: Value): NodeId -> bool {
    (id: NodeId) => Compare(op, ValueOf(rows, key, id), value)
  }

  /** Edges from `source` whose target can be seen. */
  function Leaves(targets: seq<FlatRow>, source: NodeId): FlatEdge -> bool {
    (edge: FlatEdge) => edge.source == source && IsVisible(targets, edge.target)
  }

  /** Edges into `target` whose source can be seen. */
  function Enters(sources: seq<FlatRow>, target: NodeId): FlatEdge -> bool {
    (edge: FlatEdge) => edge.target == target && IsVisible(sources, edge.source)
  }

  function EdgeIdOf(): FlatEdge -> EdgeId {
    (edge: FlatEdge) => edge.id
  }

  function TargetOf(): FlatEdge -> NodeId {
    (edge: FlatEdge) => edge.target
  }

  // ---- Lists whose identifiers count up from a base ----

  ghost predicate RowsFrom(rows: seq<FlatRow>, base: nat) {
    forall i :: 0 <= i < |rows| ==> rows[i].id == base + i
  }

  ghost predicate EdgesFrom(edges: seq<FlatEdge>, base: nat) {
    forall i :: 0 <= i < |edges| ==> edges[i].id == base + i
  }

  lemma {:induction false} FindRowAt(rows: seq<FlatRow>, base: nat, id: NodeId)
    requires RowsFrom(rows, base)
    ensures FindRow(rows, id) == if base <= id < base + |rows| then Some(rows[id - base]) else None
  {
    if rows == [] {
    } else {
      FindRowAt(rows[..|rows| - 1], base, id);
    }
  }

  /** Rows of a child layer lie behind its parent's: lookups of older identifiers do not see them. */
  lemma FindRowBelow(older: seq<FlatRow>, newer: seq<FlatRow>, base: nat, id: NodeId)
    requires RowsFrom(older, base) && RowsFrom(newer, base + |older|)
    ensures FindRow(older + newer, id)
         == if id < base + |older| then FindRow(older, id) else FindRow(newer, id)
  {
    FindRowAt(older, base, id);
    FindRowAt(newer, base + |older|, id);
    FindRowAt(older + newer, base, id);
  }

  lemma {:induction false} MapAppend<S, T>(a: seq<S>, b: seq<S>, f: S -> T)
    ensures Map(a + b, f) == Map(a, f) + Map(b, f)
  {
  }

  /** An identifier is scanned exactly if its lookup is visible, and the scan is strictly ascending. */
  lemma {:induction false} VisibleIdsExactly(rows: seq<FlatRow>, base: nat)
    requires RowsFrom(rows, base)
    ensures Ascending(VisibleIds(rows))
    ensures forall id: NodeId :: id in VisibleIds(rows) <==> IsVisible(rows, id)
  {
    if rows == [] {
    } else {
      var n := |rows| - 1;
      var init := rows[..n];
      VisibleIdsExactly(init, base);
      VisibleIdsStep(init, rows[n]);
      assert rows == init + [rows[n]];
      forall i | 0 <= i < |VisibleIds(init)| ensures VisibleIds(init)[i] < base + n {
        assert VisibleIds(init)[i] in VisibleIds(init);
        FindRowAt(init, base, VisibleIds(init)[i]);
      }
      forall id: NodeId ensures id in VisibleIds(rows) <==> IsVisible(rows, id) {
        FindRowAt(init, base, id);
        FindRowAt(rows, base, id);
      }
    }
  }

  lemma VisibleIdsStep(init: seq<FlatRow>, row: FlatRow)
    ensures VisibleIds(init + [row]) == VisibleIds(init) + if row.Visible() then [row.id] else []
  {
    assert (init + [row])[..|init|] == init;
  }
}
