/** Queries on a published column, from the first append to the answer. */
module QueryRuns {
  import opened Common
  import opened Sequences
  import opened Values
  import opened NodeTables
  import opened NodeStores
  import opened DeltaStores
  import opened FlatGraphs
  import opened Snapshots
  import opened Queries
  import opened Executors
  import opened SmallGraphs

  const AGE: Key := Key(0)

  function OneColumn(): Schema {
    Schema([PERSON], map[PERSON := [PropertySpec(AGE, Integral)]], [], map[])
  }

  lemma OneColumnWellFormed()
    ensures OneColumn().WellFormed()
  {
  }

  /** One row for each age, all of the worldline 0, valid and known at the time 0. */
  ghost predicate People(t: NodeTable, ages: seq<int>) {
    && t.idBase == 0 && t.properties == [PropertySpec(AGE, Integral)]
    && t.columns.Keys == {AGE} && t.columns[AGE] == Map(ages, Age())
    && |t.worldlines| == |t.valids| == |t.transactions| == |ages|
    && forall i :: 0 <= i < |ages| ==>
         t.worldlines[i] == 0 && t.valids[i].Contains(0) && t.transactions[i].Contains(0)
  }

  function Age(): int -> Value {
    (age: int) => Finite(age as real)
  }

  lemma PeopleGrow(before: NodeTable, after: NodeTable, source: Provenance, outcome: Outcome<NodeId>,
                   ages: seq<int>, age: int)
    requires People(before, ages) && |ages| < 2
    requires RowOutcome(before, after, 0, Interval(0, 1), Interval(0, 1), source, [Finite(age as real)], 5, outcome)
    ensures People(after, ages + [age])
  {
    var values := [Finite(age as real)];
    assert after.columns == WithRow(before.columns, before.properties, values, 0);
    WithRowAt(before.columns, before.properties, values, 0);
    assert before.properties[0].key == AGE && values[0] == Age()(age);
  }

  method PublishPeople(generation: Id64, first: int, second: int) returns (g: Snapshot)
    requires generation != INVALID_64
    ensures g.Valid() && g.schema == OneColumn() && g.parent.None? && g.worldline == g.validAt == g.knownAt == 0
    ensures PERSON in g.data.nodes && People(g.data.nodes[PERSON], [first, second])
  {
    hide GraphTable.Valid, GraphTable.Ready, NodeTable.Valid, Schema.WellFormed, BasesMatch, RowOutcome, People;
    OneColumnWellFormed();
    var delta := new DeltaStore(OneColumn(), None);
    var source := Provenance(Observed, [119], None);
    ghost var empty := delta.nodes[PERSON];
    NoPeople(empty);
    AgeTyped(first);
    var zero := delta.AppendNode(PERSON, 0, Interval(0, 1), Interval(0, 1), source, [Finite(first as real)], 5);
    ghost var one := delta.nodes[PERSON];
    PeopleGrow(empty, one, source, zero, [], first);
    AgeTyped(second);
    var next := delta.AppendNode(PERSON, 0, Interval(0, 1), Interval(0, 1), source, [Finite(second as real)], 5);
    ghost var two := delta.nodes[PERSON];
    PeopleGrow(one, two, source, next, [] + [first], second);
    assert [] + [first] + [second] == [first, second];
    ghost var filled := delta.View();
    var published := Publish(generation, 0, 0, 0, delta);
    g := published.value;
    SamePeople(filled.nodes[PERSON], delta.View().nodes[PERSON], [first, second]);
  }

  lemma NoPeople(t: NodeTable)
    requires t == EmptyNodes([PropertySpec(AGE, Integral)], 0)
    ensures People(t, [])
  {
  }

  lemma AgeTyped(age: int)
    ensures TypedRow([PropertySpec(AGE, Integral)], [Finite(age as real)])
  {
    IntegralExactly(age, 0.0);
  }

  lemma SamePeople(before: NodeTable, after: NodeTable, ages: seq<int>)
    requires People(before, ages) && after.Data() == before.Data()
    ensures People(after, ages)
  {
  }

  // ---- The answers ----

  const BOTH: seq<NodeId> := [0, 1]

  /** Both people are seen, each with their age. */
  ghost predicate Seen(g: Snapshot, younger: int, elder: int) {
    && g.Valid() && g.schema == OneColumn() && g.worldline == 0 && g.HasTag(PERSON)
    && VisibleIds(g.Rows(PERSON)) == BOTH && HaveAges(g.Rows(PERSON), younger, elder)
  }

  ghost predicate HaveAges(rows: seq<FlatRow>, younger: int, elder: int) {
    ValueOf(rows, AGE, 0) == Finite(younger as real) && ValueOf(rows, AGE, 1) == Finite(elder as real)
  }

  lemma PeopleRows(t: NodeTable, at: Coordinates, younger: int, elder: int)
    requires t.Valid() && People(t, [younger, elder]) && at == Coordinates(0, 0, 0)
    ensures VisibleIds(LocalRows(t, at)) == BOTH && HaveAges(LocalRows(t, at), younger, elder)
  {
    hide NodeTable.IndicesCurrent, VisibleIds;
    var rows := LocalRows(t, at);
    FindRowAt(rows, 0, 0);
    FindRowAt(rows, 0, 1);
    VisibleIdsExactly(rows, 0);
    forall id: NodeId
      ensures id in VisibleIds(rows) <==> id in BOTH
    {
      FindRowAt(rows, 0, id);
    }
    AscendingUnique(VisibleIds(rows), BOTH);
  }

  lemma PeopleSeen(g: Snapshot, younger: int, elder: int)
    requires g.Valid() && g.schema == OneColumn() && g.parent.None? && g.worldline == g.validAt == g.knownAt == 0
    requires PERSON in g.data.nodes && People(g.data.nodes[PERSON], [younger, elder])
    ensures Seen(g, younger, elder)
  {
    hide GraphTable.Valid, GraphTable.Ready, NodeTable.Valid, People, VisibleIds, HaveAges;
    g.Unfold(PERSON);
    assert g.Rows(PERSON) == LocalRows(g.data.nodes[PERSON], g.At());
    PeopleRows(g.data.nodes[PERSON], g.At(), younger, elder);
  }

  lemma YoungerKept(rows: seq<FlatRow>, younger: int, elder: int)
    requires HaveAges(rows, younger, elder) && younger < elder
    ensures Filter(BOTH, Satisfies(rows, AGE, EqualTo, Finite(younger as real))) == [0]
  {
    var keep := Satisfies(rows, AGE, EqualTo, Finite(younger as real));
    assert keep(0) && !keep(1);
    assert BOTH[..1] == [0] && BOTH[..1][..0] == [];
  }

  lemma EldestFirst(rows: seq<FlatRow>, younger: int, elder: int)
    requires HaveAges(rows, younger, elder) && younger < elder
    ensures Top(rows, BOTH, 1, Order(AGE, Descends)) == [1]
  {
    hide Top;
    var order, top := Order(AGE, Descends), Top(rows, BOTH, 1, Order(AGE, Descends));
    TopIsOrdered(rows, BOTH, 1, order, 0, 0);
    TopMembers(rows, BOTH, 1, order);
    assert top == [top[0]] && top[0] in top;
    if top[0] == 0 {
      TopKeepsTheBest(rows, BOTH, 1, order, 0, 1);
    }
  }

  function OfAge(age: int): Expr {
    Where(Source(PERSON), Predicate(AGE, EqualTo, Finite(age as real)))
  }

  function Eldest(): Expr {
    TopK(Source(PERSON), 1, Order(AGE, Descends))
  }

  function Elsewhere(): Expr {
    InWorldline(Source(PERSON), 1)
  }

  lemma QueriesTyped(age: int)
    ensures TypeOf(OneColumn(), OfAge(age)) == Some(QueryType(PERSON, None))
    ensures TypeOf(OneColumn(), Eldest()) == Some(QueryType(PERSON, None))
    ensures TypeOf(OneColumn(), Elsewhere()) == Some(QueryType(PERSON, None))
  {
    assert PropertySpec(AGE, Integral) in OneColumn().nodeProperties[PERSON];
  }

  lemma NaiveAnswers(g: Snapshot, younger: int, elder: int)
    requires Seen(g, younger, elder) && younger < elder
    ensures NaiveExecute(g.Flatten(), OfAge(younger), None) == Ok(IdList([0]))
    ensures NaiveExecute(g.Flatten(), Eldest(), None) == Ok(IdList([1]))
    ensures NaiveExecute(g.Flatten(), Elsewhere(), None) == Err(NOT_HERE)
  {
    hide Snapshot.Valid, Snapshot.Rows, VisibleIds, HaveAges, Filter, Top, Satisfies;
    FlattenAt(g, PERSON);
    YoungerKept(g.Rows(PERSON), younger, elder);
    EldestFirst(g.Rows(PERSON), younger, elder);
    var flat := g.Flatten();
    assert NaiveIds(flat, Source(PERSON)) == BOTH && Mismatch(flat.at, Source(PERSON)).None?;
    assert NaiveIds(flat, OfAge(younger)) == [0] && NaiveIds(flat, Eldest()) == [1];
  }

  /**
    * Two people of different ages: asking for one age finds that person, ranking finds the eldest, and a query
    * that names another worldline is refused.
    */
  method AskPublished(generation: Id64, younger: int, elder: int)
    returns (ofAge: Result<Output>, eldest: Result<Output>, elsewhere: Result<Output>)
    requires generation != INVALID_64 && younger < elder
    ensures ofAge == Ok(IdList([0])) && eldest == Ok(IdList([1])) && elsewhere == Err(NOT_HERE)
  {
    hide Snapshot.Valid, Snapshot.Rows, People, Seen, NaiveExecute, OfAge, Eldest, Elsewhere, TypeOf;
    var g := PublishPeople(generation, younger, elder);
    PeopleSeen(g, younger, elder);
    QueriesTyped(younger);
    NaiveAnswers(g, younger, elder);
    ofAge := ExecuteOptimized(g, OfAge(younger));
    eldest := ExecuteOptimized(g, Eldest());
    elsewhere := ExecuteOptimized(g, Elsewhere());
  }
}
