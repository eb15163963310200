/** Results, identifiers, times and provenance shared by every component. */
module Common {

  datatype Option<+T> = None | Some(value: T)

  datatype ErrorCode =
    | InvalidId
    | IdNotFound
    | InvalidInterval
    | WorldlineMismatch
    | ProbabilityOutOfDomain
    | MissingProvenance
    | Conflict
    | CapacityExceeded

  datatype GraphError = GraphError(code: ErrorCode, detail: string)

  /** A value or a graph error; `Ok(())` is the success of an operation that computes nothing. */
  datatype Result<+T> = Ok(value: T) | Err(error: GraphError)

  /** How a call that may run out of memory ends: it returns a result, or an allocation throws. */
  datatype Outcome<+T> = Returned(result: Result<T>) | Threw

  const INVALID_32: nat := 0xFFFF_FFFF
  const INVALID_64: nat := 0xFFFF_FFFF_FFFF_FFFF

  type Id64 = n: nat | n <= INVALID_64
  type WorldlineId = Id64

  /** Node and edge identifiers by value. They are 32-bit words: every place that makes one narrows. */
  type NodeId = nat
  type EdgeId = nat

  function Narrow32(value: nat): nat {
    value % (INVALID_32 + 1)
  }

  /** Nanoseconds since the epoch in a signed 64-bit word. */
  type Timestamp = t: int | -0x8000_0000_0000_0000 <= t < 0x8000_0000_0000_0000

  datatype RawInterval = Interval(from: Timestamp, to: Timestamp) {
    predicate Contains(point: Timestamp) {
      from <= point < to
    }
  }

  /** A half-open interval; the only way to make one checks that it is not empty. */
  type Interval = i: RawInterval | i.from < i.to witness Interval(0, 1)

  function MakeInterval(from: Timestamp, to: Timestamp): (r: Result<Interval>)
    ensures r.Ok? <==> exists point: Timestamp :: Interval(from, to).Contains(point)
    ensures r.Ok? ==> r.value == Interval(from, to)
    ensures r.Err? ==> r.error.code == InvalidInterval
  {
    if from >= to then
      Err(GraphError(InvalidInterval, "interval must satisfy from < to"))
    else
      assert Interval(from, to).Contains(from);
      Ok(Interval(from, to))
  }

  /** Two intervals that meet share no point and leave none out: each starts inside itself and ends outside. */
  lemma IntervalsMeet(a: Timestamp, b: Timestamp, c: Timestamp, point: Timestamp)
    requires a < b < c
    ensures Interval(a, c).Contains(point) <==> (Interval(a, b).Contains(point) != Interval(b, c).Contains(point))
    ensures Interval(a, b).Contains(a) && !Interval(a, b).Contains(b)
  {
  }

  type Byte = b: int | 0 <= b < 256

  datatype ProvenanceKind = Observed | SelfReported | Imported | Inferred | Simulated

  datatype RawProvenance = Provenance(kind: ProvenanceKind, source: seq<Byte>, modelRun: Option<Id64>)

  /** The guards of the only factory, read as an invariant of every provenance value. */
  predicate Attributed(p: RawProvenance) {
    && p.source != [] && |p.source| <= INVALID_64
    && (p.kind in {Inferred, Simulated} ==> p.modelRun.Some?)
    && (p.modelRun.Some? ==> p.modelRun.value != INVALID_64)
  }

  type Provenance = p: RawProvenance | Attributed(p) witness Provenance(Observed, [119], None)

  /** The guards of the factory, in its order. */
  function ProvenanceGuard(kind: ProvenanceKind, source: seq<Byte>, modelRun: Option<Id64>): Option<GraphError> {
    if source == [] then
      Some(GraphError(MissingProvenance, "provenance source must not be empty"))
    else if (kind == Inferred || kind == Simulated) && (modelRun.None? || modelRun.value == INVALID_64) then
      Some(GraphError(MissingProvenance, "inferred and simulated provenance require a valid model run ID"))
    else if modelRun.Some? && modelRun.value == INVALID_64 then
      Some(GraphError(InvalidId, "provenance model run ID must be valid"))
    else None
  }

  /** Every kind needs a source, inferred and simulated ones a model run, and a run must be a valid one. */
  function MakeProvenance(kind: ProvenanceKind, source: seq<Byte>, modelRun: Option<Id64>): (r: Result<Provenance>)
    requires |source| <= INVALID_64
    ensures r.Ok? <==> Attributed(Provenance(kind, source, modelRun))
    ensures r.Ok? ==> r.value == Provenance(kind, source, modelRun)
    ensures r.Err? ==>
      r.error.code == if source != [] && kind !in {Inferred, Simulated} then InvalidId else MissingProvenance
  {
    match ProvenanceGuard(kind, source, modelRun)
    case Some(error) => Err(error)
    case None =>
      var p: Provenance := Provenance(kind, source, modelRun);
      Ok(p)
  }

  /** Node tags, property keys and relations are names that are only ever compared for equality. */
  datatype Tag = Tag(name: nat)
  datatype Key = Key(name: nat)
  datatype Relation = Relation(name: nat)

  datatype EdgeType = EdgeType(source: Tag, relation: Relation, target: Tag)
}
