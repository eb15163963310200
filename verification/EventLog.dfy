/** The append-only event log. */
module EventLogs {
  import opened Common

  datatype EventKind =
    | EntityCreated
    | StateAppended
    | EdgeCreated
    | WorldlineForked
    | MemoryReinterpreted
    | ModelInferenceRecorded
    | SnapshotCompacted
    | Tombstone

  datatype Event<P> = Event(
    sequence: Id64, kind: EventKind, validTime: Timestamp, recordedTime: Timestamp, worldline: WorldlineId,
    payload: P, previous: Option<Id64>, source: Provenance, checksum: Id64)

  /** The checksum is some function of everything the event says except its provenance. */
  type ChecksumOf<!P> = (Id64, EventKind, Timestamp, Timestamp, WorldlineId, P, Option<Id64>) -> Id64

  const NO_WORLDLINE: GraphError := GraphError(InvalidId, "event worldline ID must be valid")
  const NOT_MONOTONE: GraphError := GraphError(Conflict, "event recorded time must be monotonically non-decreasing")
  const NO_PREVIOUS: GraphError := GraphError(IdNotFound, "previous event reference does not exist")

  /** Sequences count up, recorded times never go back, references point backwards, checksums fit. */
  ghost predicate ValidLog<P>(events: seq<Event<P>>, checksumFor: ChecksumOf<P>) {
    && |events| <= INVALID_64
    && (forall i :: 0 <= i < |events| ==> ValidEvent(events[i], i, checksumFor))
    && (forall i, j :: 0 <= i < j < |events| ==> events[i].recordedTime <= events[j].recordedTime)
  }

  ghost predicate ValidEvent<P>(e: Event<P>, i: nat, checksumFor: ChecksumOf<P>) {
    && e.sequence == i < INVALID_64
    && e.worldline != INVALID_64
    && (e.previous.Some? ==> e.previous.value < i)
    && e.checksum == checksumFor(e.sequence, e.kind, e.validTime, e.recordedTime, e.worldline, e.payload, e.previous)
  }

  /** The guards of `append`, in its order. */
  function AppendGuard<P>(events: seq<Event<P>>, recordedTime: Timestamp, w: WorldlineId, previous: Option<nat>)
    : Option<GraphError>
  {
    if w == INVALID_64 then Some(NO_WORLDLINE)
    else if |events| >= INVALID_64 then Some(GraphError(CapacityExceeded, ""))
    else if events != [] && recordedTime < events[|events| - 1].recordedTime then Some(NOT_MONOTONE)
    else if previous.Some? && (previous.value == INVALID_64 || previous.value >= |events|) then Some(NO_PREVIOUS)
    else None
  }

  function Find<P>(events: seq<Event<P>>, sequence: Id64): Result<Event<P>> {
    if sequence == INVALID_64 then Err(GraphError(InvalidId, ""))
    else if sequence >= |events| then Err(GraphError(IdNotFound, ""))
    else Ok(events[sequence])
  }

  class EventLog<P> {
    const checksumFor: ChecksumOf<P>
    var events: seq<Event<P>>

    ghost predicate Valid()
      reads this
    {
      ValidLog(events, checksumFor)
    }

    constructor (checksumFor: ChecksumOf<P>)
      ensures Valid() && events == [] && this.checksumFor == checksumFor
    {
      this.checksumFor := checksumFor;
      events := [];
    }

    /** Append one event at the end, or refuse and leave the log alone. */
    method Append(kind: EventKind, validTime: Timestamp, recordedTime: Timestamp, w: WorldlineId, payload: P,
                  source: Provenance, previous: Option<Id64>)
      returns (r: Result<Id64>)
      requires Valid()
      modifies this
      ensures Valid()
      ensures var guard := AppendGuard(old(events), recordedTime, w, previous);
        if guard.Some? then r == Err(guard.value) && events == old(events)
        else r == Ok(|old(events)|) && |events| == |old(events)| + 1 && events[..|old(events)|] == old(events) &&
             events[|old(events)|] == Event(|old(events)|, kind, validTime, recordedTime, w, payload, previous, source,
               checksumFor(|old(events)|, kind, validTime, recordedTime, w, payload, previous))
    {
      if w == INVALID_64 {
        return Err(NO_WORLDLINE);
      }
      if |events| >= INVALID_64 {
        return Err(GraphError(CapacityExceeded, ""));
      }
      if events != [] && recordedTime < events[|events| - 1].recordedTime {
        return Err(NOT_MONOTONE);
      }
      if previous.Some? && (previous.value == INVALID_64 || previous.value >= |events|) {
        return Err(NO_PREVIOUS);
      }
      var sequence: Id64 := |events|;
      var checksum := checksumFor(sequence, kind, validTime, recordedTime, w, payload, previous);
      events := events + [Event(sequence, kind, validTime, recordedTime, w, payload, previous, source, checksum)];
      return Ok(sequence);
    }
  }

  /** The guards let an event pass exactly if the log with that event is valid: equal recorded times are fine. */
  lemma GuardExactly<P>(events: seq<Event<P>>, checksumFor: ChecksumOf<P>, kind: EventKind, validTime: Timestamp,
                        recordedTime: Timestamp, w: WorldlineId, payload: P, source: Provenance, previous: Option<Id64>)
    requires ValidLog(events, checksumFor)
    ensures AppendGuard(events, recordedTime, w, previous).None? <==>
      var n := |events|;
      var checksum := checksumFor(n, kind, validTime, recordedTime, w, payload, previous);
      ValidLog(events + [Event(n, kind, validTime, recordedTime, w, payload, previous, source, checksum)], checksumFor)
  {
    var n := |events|;
    var checksum := checksumFor(n, kind, validTime, recordedTime, w, payload, previous);
    var after := events + [Event(n, kind, validTime, recordedTime, w, payload, previous, source, checksum)];
    assert forall i :: 0 <= i < n ==> after[i] == events[i];
    if ValidLog(after, checksumFor) {
      assert ValidEvent(after[n], n, checksumFor);
      if n > 0 {
        assert after[n - 1].recordedTime <= after[n].recordedTime;
      }
    }
  }

  /** A log finds exactly its own sequences, each at its place. */
  lemma FindExactly<P>(events: seq<Event<P>>, checksumFor: ChecksumOf<P>, sequence: Id64)
    requires ValidLog(events, checksumFor)
    ensures Find(events, sequence).Ok? <==> exists i :: 0 <= i < |events| && events[i].sequence == sequence
    ensures Find(events, sequence).Ok? ==> Find(events, sequence).value.sequence == sequence
  {
    forall i | 0 <= i < |events|
      ensures events[i].sequence == i < INVALID_64
    {
      assert ValidEvent(events[i], i, checksumFor);
    }
  }
}
