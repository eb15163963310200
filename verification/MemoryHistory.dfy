/** Bitemporal memory revisions on top of the event log. */
module MemoryHistories {
  import opened Common
  import opened Sequences
  import opened EventLogs

  /** Memory identifiers are of any type `M`: the original takes strong identifiers of any width. */
  datatype MemoryRevision<M, V> = MemoryRevision(memory: M, perspective: Id64, valid: Interval, value: V)

  type Revisions<M, V> = seq<Event<MemoryRevision<M, V>>>

  /** Revisions are chained per memory, perspective and worldline. */
  datatype MemoryKey<M> = MemoryKey(memory: M, perspective: Id64, worldline: WorldlineId)

  function KeyOf<M, V>(e: Event<MemoryRevision<M, V>>): MemoryKey<M> {
    MemoryKey(e.payload.memory, e.payload.perspective, e.worldline)
  }

  function Keys<M, V>(events: Revisions<M, V>): seq<MemoryKey<M>> {
    seq(|events|, i requires 0 <= i < |events| => KeyOf(events[i]))
  }

  /** The last of the first `n` events that satisfies `p`. */
  function LastBefore<P>(events: seq<Event<P>>, n: nat, p: Event<P> -> bool): (r: Option<nat>)
    requires n <= |events|
    ensures r.Some? ==> r.value < n
  {
    if n == 0 then None else if p(events[n - 1]) then Some(n - 1) else LastBefore(events, n - 1, p)
  }

  lemma {:induction false} LastBeforeIsLast<P>(events: seq<Event<P>>, n: nat, p: Event<P> -> bool)
    requires n <= |events|
    ensures match LastBefore(events, n, p)
      case Some(i) => i < n && p(events[i]) && forall j :: i < j < n ==> !p(events[j])
      case None => forall j :: 0 <= j < n ==> !p(events[j])
  {
    if n == 0 || p(events[n - 1]) {
    } else {
      LastBeforeIsLast(events, n - 1, p);
    }
  }

  /** A later event that fails `p` changes nothing, nor does anything behind the first `n`. */
  lemma {:induction false} LastBeforeExtends<P>(events: seq<Event<P>>, more: seq<Event<P>>, p: Event<P> -> bool, n: nat)
    requires n <= |more| && forall i :: 0 <= i < n ==> !p(more[i])
    ensures LastBefore(events + more, |events| + n, p) == LastBefore(events, |events|, p)
  {
    if n == 0 {
      SamePrefix(events, more, p, |events|);
    } else {
      LastBeforeExtends(events, more, p, n - 1);
      assert (events + more)[|events| + n - 1] == more[n - 1];
    }
  }

  lemma {:induction false} SamePrefix<P>(events: seq<Event<P>>, more: seq<Event<P>>, p: Event<P> -> bool, n: nat)
    requires n <= |events|
    ensures LastBefore(events + more, n, p) == LastBefore(events, n, p)
  {
    if n == 0 {
    } else {
      SamePrefix(events, more, p, n - 1);
    }
  }

  function HasKey<M(==), V>(key: MemoryKey<M>): Event<MemoryRevision<M, V>> -> bool {
    (e: Event<MemoryRevision<M, V>>) => KeyOf(e) == key
  }

  function RecordedBy<M(==), V>(key: MemoryKey<M>, time: Timestamp): Event<MemoryRevision<M, V>> -> bool {
    (e: Event<MemoryRevision<M, V>>) => KeyOf(e) == key && e.recordedTime <= time
  }

  /** Of the key, recorded by `knownAt`, and valid at `validAt`. */
  function Answers<M(==), V>(key: MemoryKey<M>, validAt: Timestamp, knownAt: Timestamp)
    : Event<MemoryRevision<M, V>> -> bool
  {
    (e: Event<MemoryRevision<M, V>>) =>
      KeyOf(e) == key && e.recordedTime <= knownAt && e.payload.valid.Contains(validAt)
  }

  // ---- Which logs a history can reach ----

  /** An original comes first of its key; a reinterpretation refers to the revision just before it. */
  ghost predicate Chained<M, V>(events: Revisions<M, V>, i: nat)
    requires i < |events|
  {
    var before := LastBefore(events, i, HasKey(KeyOf(events[i])));
    && events[i].kind == (if before.None? then EntityCreated else MemoryReinterpreted)
    && events[i].previous == before
    && events[i].validTime == events[i].payload.valid.from
  }

  ghost predicate History<M, V>(events: Revisions<M, V>) {
    forall i :: 0 <= i < |events| ==> Chained(events, i)
  }

  /** Every revision names a valid memory and a valid perspective. */
  ghost predicate Named<M, V>(events: Revisions<M, V>, isValid: M -> bool) {
    forall i :: 0 <= i < |events| ==> isValid(events[i].payload.memory) && events[i].payload.perspective != INVALID_64
  }

  lemma HistoryOneMore<M, V>(events: Revisions<M, V>, e: Event<MemoryRevision<M, V>>)
    requires History(events) && Chained(events + [e], |events|)
    ensures History(events + [e])
  {
    forall i | 0 <= i < |events| ensures Chained(events + [e], i) {
      assert Chained(events, i);
      assert (events + [e])[i] == events[i];
      SamePrefix(events, [e], HasKey(KeyOf(events[i])), i);
    }
  }

  const ALREADY_RECORDED: GraphError := GraphError(Conflict, "memory already has a recorded interpretation")
  const NOTHING_TO_REVISE: GraphError := GraphError(IdNotFound, "memory has no earlier interpretation to revise")
  const NOT_VISIBLE: GraphError := GraphError(IdNotFound, "memory is not visible at the requested times")

  /** `after` is `before` and one event that says what the caller said. */
  ghost predicate Recorded<M, V>(before: Revisions<M, V>, after: Revisions<M, V>, kind: EventKind,
                                 recordedTime: Timestamp, key: MemoryKey<M>, valid: Interval, value: V,
                                 source: Provenance)
  {
    && |after| == |before| + 1 && after[..|before|] == before
    && var e := after[|before|];
       && e.kind == kind && e.validTime == valid.from && e.recordedTime == recordedTime && e.source == source
       && e.worldline == key.worldline && e.payload == MemoryRevision(key.memory, key.perspective, valid, value)
  }

  class MemoryHistory<M(==), V> {
    const isValid: M -> bool
    const log: EventLog<MemoryRevision<M, V>>

    ghost predicate Valid()
      reads this, log
    {
      log.Valid() && History(log.events) && Named(log.events, isValid)
    }

    constructor (isValid: M -> bool, checksumFor: ChecksumOf<MemoryRevision<M, V>>)
      ensures Valid() && fresh(log) && log.events == [] && this.isValid == isValid
    {
      this.isValid := isValid;
      log := new EventLog(checksumFor);
    }

    method HasRevision(key: MemoryKey<M>) returns (found: bool)
      ensures found <==> LastBefore(log.events, |log.events|, HasKey(key)).Some?
    {
      LastBeforeIsLast(log.events, |log.events|, HasKey(key));
      for i := 0 to |log.events|
        invariant forall j :: 0 <= j < i ==> KeyOf(log.events[j]) != key
      {
        if KeyOf(log.events[i]) == key {
          return true;
        }
      }
      return false;
    }

    method LatestSequence(key: MemoryKey<M>, recordedTime: Timestamp) returns (selected: Option<Id64>)
      requires log.Valid()
      ensures selected == LastBefore(log.events, |log.events|, RecordedBy(key, recordedTime))
    {
      selected := None;
      for i := 0 to |log.events|
        invariant selected == LastBefore(log.events, i, RecordedBy(key, recordedTime))
      {
        var event := log.events[i];
        assert ValidEvent(event, i, log.checksumFor);
        if KeyOf(event) == key && event.recordedTime <= recordedTime {
          selected := Some(event.sequence);
        }
      }
    }

    /** The first interpretation of a memory; there is only ever one per key. */
    method AppendOriginal(key: MemoryKey<M>, valid: Interval, recordedTime: Timestamp, value: V, source: Provenance)
      returns (r: Result<Id64>)
      requires Valid()
      modifies log
      ensures Valid()
      ensures var events := old(log.events);
        if LastBefore(events, |events|, HasKey(key)).Some? then r == Err(ALREADY_RECORDED) && log.events == events
        else if !isValid(key.memory) || key.perspective == INVALID_64 then
          r == Err(GraphError(InvalidId, "")) && log.events == events
        else match AppendGuard(events, recordedTime, key.worldline, None)
          case Some(error) => r == Err(error) && log.events == events
          case None =>
            r == Ok(|events|) &&
            Recorded(events, log.events, EntityCreated, recordedTime, key, valid, value, source)
    {
      var found := HasRevision(key);
      if found {
        return Err(ALREADY_RECORDED);
      }
      if !isValid(key.memory) || key.perspective == INVALID_64 {
        return Err(GraphError(InvalidId, ""));
      }
      ghost var before := log.events;
      r := log.Append(EntityCreated, valid.from, recordedTime, key.worldline,
                      MemoryRevision(key.memory, key.perspective, valid, value), source, None);
      if r.Ok? {
        AppendedChained(before, log.events, key);
      }
    }

    /** A later interpretation, referring to the one before it. */
    method Reinterpret(key: MemoryKey<M>, valid: Interval, recordedTime: Timestamp, value: V, source: Provenance)
      returns (r: Result<Id64>)
      requires Valid()
      modifies log
      ensures Valid()
      ensures var events := old(log.events);
        var previous := LastBefore(events, |events|, RecordedBy(key, recordedTime));
        if previous.None? then r == Err(NOTHING_TO_REVISE) && log.events == events
        else if !isValid(key.memory) || key.perspective == INVALID_64 then
          r == Err(GraphError(InvalidId, "")) && log.events == events
        else match AppendGuard(events, recordedTime, key.worldline, previous)
          case Some(error) => r == Err(error) && log.events == events
          case None =>
            r == Ok(|events|) &&
            Recorded(events, log.events, MemoryReinterpreted, recordedTime, key, valid, value, source)
    {
      var previous := LatestSequence(key, recordedTime);
      if previous.None? {
        return Err(NOTHING_TO_REVISE);
      }
      if !isValid(key.memory) || key.perspective == INVALID_64 {
        return Err(GraphError(InvalidId, ""));
      }
      ghost var before := log.events;
      r := log.Append(MemoryReinterpreted, valid.from, recordedTime, key.worldline,
                      MemoryRevision(key.memory, key.perspective, valid, value), source, previous);
      if r.Ok? {
        LatestIsLast(before, log.checksumFor, key, recordedTime);
        AppendedChained(before, log.events, key);
      }
    }

    /** The interpretation of a memory valid at one time, as known at another. */
    method At(key: MemoryKey<M>, validAt: Timestamp, knownAt: Timestamp)
      returns (r: Result<Event<MemoryRevision<M, V>>>)
      requires Valid()
      ensures r ==
        if !isValid(key.memory) || key.perspective == INVALID_64 || key.worldline == INVALID_64
        then Err(GraphError(InvalidId, ""))
        else match LastBefore(log.events, |log.events|, Answers(key, validAt, knownAt))
          case None => Err(NOT_VISIBLE)
          case Some(i) => Ok(log.events[i])
    {
      if !isValid(key.memory) || key.perspective == INVALID_64 || key.worldline == INVALID_64 {
        return Err(GraphError(InvalidId, ""));
      }
      var selected: Option<nat> := None;
      for i := 0 to |log.events|
        invariant selected == LastBefore(log.events, i, Answers(key, validAt, knownAt))
        invariant selected.Some? ==> selected.value < i
      {
        var event := log.events[i];
        assert ValidEvent(event, i, log.checksumFor);
        if selected.Some? {
          assert ValidEvent(log.events[selected.value], selected.value, log.checksumFor);
        }
        if KeyOf(event) == key && event.recordedTime <= knownAt && event.payload.valid.Contains(validAt) &&
           (selected.None? || log.events[selected.value].recordedTime < event.recordedTime ||
            (log.events[selected.value].recordedTime == event.recordedTime &&
             log.events[selected.value].sequence < event.sequence)) {
          selected := Some(i);
        }
      }
      if selected.None? {
        return Err(NOT_VISIBLE);
      }
      return Ok(log.events[selected.value]);
    }
  }

  /** At the end of a monotone log every revision of the key is already recorded by the new event's time. */
  lemma LatestIsLast<M, V>(events: Revisions<M, V>, checksumFor: ChecksumOf<MemoryRevision<M, V>>, key: MemoryKey<M>,
                           time: Timestamp)
    requires ValidLog(events, checksumFor) && (events != [] ==> events[|events| - 1].recordedTime <= time)
    ensures LastBefore(events, |events|, RecordedBy(key, time)) == LastBefore(events, |events|, HasKey(key))
  {
    SameLast(events, |events|, RecordedBy(key, time), HasKey(key));
  }

  lemma {:induction false} SameLast<P>(events: seq<Event<P>>, n: nat, p: Event<P> -> bool, q: Event<P> -> bool)
    requires n <= |events| && forall i :: 0 <= i < n ==> p(events[i]) == q(events[i])
    ensures LastBefore(events, n, p) == LastBefore(events, n, q)
  {
    if n == 0 {
    } else {
      SameLast(events, n - 1, p, q);
    }
  }

  lemma AppendedChained<M, V>(before: Revisions<M, V>, after: Revisions<M, V>, key: MemoryKey<M>)
    requires History(before) && |after| == |before| + 1 && after[..|before|] == before
    requires var e := after[|before|];
      && KeyOf(e) == key && e.previous == LastBefore(before, |before|, HasKey(key))
      && e.kind == (if e.previous.None? then EntityCreated else MemoryReinterpreted)
      && e.validTime == e.payload.valid.from
    ensures History(after)
  {
    var e := after[|before|];
    assert after == before + [e];
    SamePrefix(before, [e], HasKey(key), |before|);
    HistoryOneMore(before, e);
  }

  // ---- No leak from the future ----

  /** Whatever is recorded after `knownAt`, the answer as known then stays the same. */
  lemma NoFutureLeak<M, V>(events: Revisions<M, V>, more: Revisions<M, V>, key: MemoryKey<M>,
                           validAt: Timestamp, knownAt: Timestamp)
    requires forall i :: 0 <= i < |more| ==> more[i].recordedTime > knownAt
    ensures LastBefore(events + more, |events + more|, Answers(key, validAt, knownAt))
         == LastBefore(events, |events|, Answers(key, validAt, knownAt))
  {
    LastBeforeExtends(events, more, Answers(key, validAt, knownAt), |more|);
  }

  /** The selected revision is the latest recorded among those that answer, in any reachable log. */
  lemma AnswerIsLatest<M, V>(events: Revisions<M, V>, checksumFor: ChecksumOf<MemoryRevision<M, V>>, key: MemoryKey<M>,
                          validAt: Timestamp, knownAt: Timestamp, j: nat)
    requires ValidLog(events, checksumFor) && j < |events| && Answers(key, validAt, knownAt)(events[j])
    ensures var selected := LastBefore(events, |events|, Answers(key, validAt, knownAt));
      selected.Some? && j <= selected.value < |events| && Answers(key, validAt, knownAt)(events[selected.value]) &&
      events[j].recordedTime <= events[selected.value].recordedTime <= knownAt
  {
    LastBeforeIsLast(events, |events|, Answers(key, validAt, knownAt));
  }

  // ---- Revision chains ----

  function Reversed(s: seq<nat>): seq<nat> {
    if s == [] then [] else [s[|s| - 1]] + Reversed(s[..|s| - 1])
  }

  /** The revisions met by following `previous` from event `i`. */
  ghost function Chain<M, V>(events: Revisions<M, V>, i: nat): (r: seq<nat>)
    requires i < |events| && History(events)
    ensures r != [] && forall k :: 0 <= k < |r| ==> r[k] <= i
    decreases i
  {
    assert Chained(events, i);
    LastBeforeIsLast(events, i, HasKey(KeyOf(events[i])));
    match events[i].previous
    case None => [i]
    case Some(p) => [i] + Chain(events, p)
  }

  /** Between a revision and the one it refers to there is no other of the same key. */
  lemma {:induction false} GapFree<M>(keys: seq<MemoryKey<M>>, key: MemoryKey<M>, from: nat, to: nat)
    requires from <= to <= |keys| && forall j :: from <= j < to ==> keys[j] != key
    ensures RowsOf(keys[..to], 0, key) == RowsOf(keys[..from], 0, key)
  {
    if to <= from {
    } else {
      assert keys[..to][..to - 1] == keys[..to - 1];
      GapFree(keys, key, from, to - 1);
    }
  }

  /** The rows of a key up to `i`, newest first, are `i` and the rows up to the one before it. */
  lemma NewestFirst<M>(keys: seq<MemoryKey<M>>, key: MemoryKey<M>, i: nat, before: Option<nat>)
    requires i < |keys| && keys[i] == key && (before.Some? ==> before.value < i)
    requires forall j :: (if before.Some? then before.value + 1 else 0) <= j < i ==> keys[j] != key
    ensures Reversed(RowsOf(keys[..i + 1], 0, key)) ==
      [i] + if before.Some? then Reversed(RowsOf(keys[..before.value + 1], 0, key)) else []
  {
    hide Reversed;
    var from := if before.Some? then before.value + 1 else 0;
    GapFree(keys, key, from, i);
    assert keys[..i + 1][..i] == keys[..i];
    ReversedMore(RowsOf(keys[..from], 0, key), i);
    ReversedNone();
  }

  lemma ReversedMore(s: seq<nat>, last: nat)
    ensures Reversed(s + [last]) == [last] + Reversed(s)
  {
    assert (s + [last])[..|s|] == s;
  }

  lemma ReversedNone()
    ensures Reversed([]) == []
  {
  }

  /** Following `previous` visits every revision of the key up to `i` exactly once, newest first. */
  lemma {:induction false} ChainIsComplete<M, V>(events: Revisions<M, V>, i: nat)
    requires i < |events| && History(events)
    ensures Chain(events, i) == Reversed(RowsOf(Keys(events)[..i + 1], 0, KeyOf(events[i])))
    ensures events[Chain(events, i)[|Chain(events, i)| - 1]].kind == EntityCreated
    decreases i
  {
    hide Reversed, RowsOf, LastBefore;
    assert Chained(events, i);
    LastBeforeIsLast(events, i, HasKey(KeyOf(events[i])));
    NewestFirst(Keys(events), KeyOf(events[i]), i, events[i].previous);
    match events[i].previous
    case None =>
    case Some(p) => ChainIsComplete(events, p);
  }

  /** Each key has exactly one original, and it is the first event of the key. */
  lemma OneOriginal<M, V>(events: Revisions<M, V>, i: nat, j: nat)
    requires History(events) && i < |events| && j < |events| && KeyOf(events[i]) == KeyOf(events[j])
    requires events[i].kind == EntityCreated
    ensures i <= j && (events[j].kind == EntityCreated ==> i == j)
  {
    assert Chained(events, i) && Chained(events, j);
    LastBeforeIsLast(events, i, HasKey(KeyOf(events[i])));
    LastBeforeIsLast(events, j, HasKey(KeyOf(events[j])));
  }

  // ---- What an answer says, field by field ----

  /** A revision of that memory, perspective and worldline, recorded by `knownAt`, in force at `validAt`. */
  ghost predicate InForce<M, V>(e: Event<MemoryRevision<M, V>>, key: MemoryKey<M>,
                                validAt: Timestamp, knownAt: Timestamp)
  {
    && e.payload.memory == key.memory && e.payload.perspective == key.perspective && e.worldline == key.worldline
    && e.recordedTime <= knownAt && e.payload.valid.from <= validAt < e.payload.valid.to
  }

  /** The selected event is in force and none behind it is; without a selection none is. */
  lemma AnswersExactly<M, V>(events: Revisions<M, V>, key: MemoryKey<M>, validAt: Timestamp, knownAt: Timestamp)
    ensures match LastBefore(events, |events|, Answers(key, validAt, knownAt))
      case Some(i) =>
        && InForce(events[i], key, validAt, knownAt)
        && forall j :: i < j < |events| ==> !InForce(events[j], key, validAt, knownAt)
      case None => forall j :: 0 <= j < |events| ==> !InForce(events[j], key, validAt, knownAt)
  {
    LastBeforeIsLast(events, |events|, Answers(key, validAt, knownAt));
    forall j | 0 <= j < |events|
      ensures Answers(key, validAt, knownAt)(events[j]) <==> InForce(events[j], key, validAt, knownAt)
    {
    }
  }

  /** A key has a revision exactly if some event names its memory, its perspective and its worldline. */
  lemma KeyExactly<M, V>(events: Revisions<M, V>, key: MemoryKey<M>)
    ensures LastBefore(events, |events|, HasKey(key)).Some? <==> exists i ::
      && 0 <= i < |events| && events[i].worldline == key.worldline
      && events[i].payload.memory == key.memory && events[i].payload.perspective == key.perspective
  {
    LastBeforeIsLast(events, |events|, HasKey(key));
    forall j | 0 <= j < |events|
      ensures HasKey(key)(events[j]) <==>
        && events[j].worldline == key.worldline
        && events[j].payload.memory == key.memory && events[j].payload.perspective == key.perspective
    {
    }
  }
}
