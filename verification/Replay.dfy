/** Folding the log into a state, from the beginning or from a checkpoint. */
module Replays {
  import opened Common
  import opened EventLogs

  /** A state and, unless it is the initial one, the event it was reached by. */
  datatype Checkpoint<S> = Checkpoint(state: S, sequence: Option<Id64>, checksum: Option<Id64>)

  function Initial<S>(state: S): Checkpoint<S> {
    Checkpoint(state, None, None)
  }

  function MakeCheckpoint<P, S>(events: seq<Event<P>>, sequence: Id64, state: S): Result<Checkpoint<S>> {
    match Find(events, sequence)
    case Err(error) => Err(error)
    case Ok(event) => Ok(Checkpoint(state, Some(sequence), Some(event.checksum)))
  }

  /** One step of a replay: the state after an event, or why the event was refused. */
  type Reducer<!S, !P> = (S, Event<P>) -> Result<S>

  const NO_CHECKSUM: GraphError := GraphError(Conflict, "anchored checkpoint is missing its checksum")
  const FOREIGN_CHECKPOINT: GraphError := GraphError(Conflict, "checkpoint does not match the event log")
  const END_BEFORE_START: GraphError := GraphError(Conflict, "replay end precedes the checkpoint sequence")

  /** The events from `lo` up to `hi`, reduced in order; the first refusal ends it. */
  function Fold<S, P>(events: seq<Event<P>>, lo: nat, hi: nat, state: S, reducer: Reducer<S, P>): Result<S>
    requires hi <= |events|
    decreases hi
  {
    if hi <= lo then Ok(state)
    else match Fold(events, lo, hi - 1, state, reducer)
      case Err(error) => Err(error)
      case Ok(reached) => reducer(reached, events[hi - 1])
  }

  /** Where replay starts: behind the anchor, once the anchor is found with its checksum. */
  function First<P, S>(events: seq<Event<P>>, origin: Checkpoint<S>): Result<nat> {
    match origin.sequence
    case None => Ok(0)
    case Some(anchor) =>
      if origin.checksum.None? then Err(NO_CHECKSUM)
      else match Find(events, anchor)
        case Err(error) => Err(error)
        case Ok(event) => if event.checksum == origin.checksum.value then Ok(anchor + 1) else Err(FOREIGN_CHECKPOINT)
  }

  /** Where replay ends: behind `through`, or at the end of the log. */
  function Last<P>(events: seq<Event<P>>, first: nat, through: Option<Id64>): Result<nat> {
    match through
    case None => Ok(|events|)
    case Some(last) =>
      match Find(events, last)
      case Err(error) => Err(error)
      case Ok(_) => if last + 1 < first then Err(END_BEFORE_START) else Ok(last + 1)
  }

  function Replayed<S, P>(events: seq<Event<P>>, origin: Checkpoint<S>, reducer: Reducer<S, P>, through: Option<Id64>)
    : Result<S>
  {
    match First(events, origin)
    case Err(error) => Err(error)
    case Ok(first) =>
      match Last(events, first, through)
      case Err(error) => Err(error)
      case Ok(last) => Fold(events, first, last, origin.state, reducer)
  }

  method Replay<S, P>(log: EventLog<P>, origin: Checkpoint<S>, reducer: Reducer<S, P>, through: Option<Id64>)
    returns (r: Result<S>)
    ensures r == Replayed(log.events, origin, reducer, through)
  {
    var firstIndex := 0;
    if origin.sequence.Some? {
      if origin.checksum.None? {
        return Err(NO_CHECKSUM);
      }
      match Find(log.events, origin.sequence.value) {
        case Err(error) => return Err(error);
        case Ok(anchor) =>
          if anchor.checksum != origin.checksum.value {
            return Err(FOREIGN_CHECKPOINT);
          }
      }
      firstIndex := origin.sequence.value + 1;
    }
    var lastIndex := |log.events|;
    if through.Some? {
      match Find(log.events, through.value) {
        case Err(error) => return Err(error);
        case Ok(_) =>
      }
      lastIndex := through.value + 1;
      if lastIndex < firstIndex {
        return Err(END_BEFORE_START);
      }
    }
    var state := origin.state;
    for index := firstIndex to lastIndex
      invariant Fold(log.events, firstIndex, index, origin.state, reducer) == Ok(state)
    {
      match reducer(state, log.events[index]) {
        case Err(error) =>
          FoldFails(log.events, firstIndex, index + 1, lastIndex, origin.state, reducer);
          return Err(error);
        case Ok(next) => state := next;
      }
    }
    return Ok(state);
  }

  // ---- Folding composes ----

  lemma {:induction false} FoldFails<S, P>(events: seq<Event<P>>, lo: nat, mid: nat, hi: nat, state: S,
                                           reducer: Reducer<S, P>)
    requires mid <= hi <= |events| && Fold(events, lo, mid, state, reducer).Err?
    ensures Fold(events, lo, hi, state, reducer) == Fold(events, lo, mid, state, reducer)
    decreases hi
  {
    if hi <= mid {
    } else {
      FoldFails(events, lo, mid, hi - 1, state, reducer);
    }
  }

  lemma {:induction false} FoldSplit<S, P>(events: seq<Event<P>>, lo: nat, mid: nat, hi: nat, state: S,
                                           reducer: Reducer<S, P>)
    requires lo <= mid <= hi <= |events|
    ensures Fold(events, lo, hi, state, reducer) == match Fold(events, lo, mid, state, reducer)
      case Err(error) => Err(error)
      case Ok(reached) => Fold(events, mid, hi, reached, reducer)
    decreases hi
  {
    if hi <= mid {
    } else {
      FoldSplit(events, lo, mid, hi - 1, state, reducer);
    }
  }

  /** A fold reads only the events in its range, and the state it starts from. */
  lemma {:induction false} FoldReads<S, P>(these: seq<Event<P>>, those: seq<Event<P>>, lo: nat, hi: nat,
                                           state: S, reducer: Reducer<S, P>)
    requires hi <= |these| && hi <= |those| && forall i :: lo <= i < hi ==> these[i] == those[i]
    ensures Fold(these, lo, hi, state, reducer) == Fold(those, lo, hi, state, reducer)
    decreases hi
  {
    if hi <= lo {
    } else {
      FoldReads(these, those, lo, hi - 1, state, reducer);
    }
  }

  // ---- Replaying composes ----

  /** `through` names an event of the log at or after `s`, or the end of the log. */
  predicate NotBefore<P>(events: seq<Event<P>>, s: nat, through: Option<Id64>) {
    through.Some? ==> s <= through.value < |events|
  }

  /**
    * Replaying to `s`, taking a checkpoint and resuming is the same as replaying in one go;
    * and an error met by `s` is the outcome of every longer replay.
    */
  lemma ResumeComposes<S, P>(events: seq<Event<P>>, origin: Checkpoint<S>, reducer: Reducer<S, P>, s: Id64,
                             through: Option<Id64>)
    requires s < |events| <= INVALID_64 && NotBefore(events, s, through)
    requires origin.sequence.Some? ==> origin.sequence.value <= s
    ensures match Replayed(events, origin, reducer, Some(s))
      case Err(error) => Replayed(events, origin, reducer, through) == Err(error)
      case Ok(reached) =>
        var checkpoint := MakeCheckpoint(events, s, reached);
        checkpoint.Ok? &&
        Replayed(events, checkpoint.value, reducer, through) == Replayed(events, origin, reducer, through)
  {
    match First(events, origin)
    case Err(_) =>
    case Ok(first) =>
      var last := if through.Some? then through.value + 1 else |events|;
      FoldSplit(events, first, s + 1, last, origin.state, reducer);
  }

  /** Appending to the log changes no replay whose anchor and end were already there. */
  lemma ReplayOutlivesAppends<S, P>(events: seq<Event<P>>, more: seq<Event<P>>, origin: Checkpoint<S>,
                                    reducer: Reducer<S, P>, t: Id64)
    requires t < |events| && (origin.sequence.Some? ==> origin.sequence.value < |events|)
    ensures Replayed(events + more, origin, reducer, Some(t)) == Replayed(events, origin, reducer, Some(t))
  {
    match First(events, origin)
    case Err(_) =>
      assert First(events + more, origin) == First(events, origin);
    case Ok(first) =>
      assert First(events + more, origin) == Ok(first);
      if t != INVALID_64 {
        FoldReads(events + more, events, first, t + 1, origin.state, reducer);
      }
  }

  /** A checkpoint taken of a shorter log can be resumed in the longer one. */
  lemma ResumeOutlivesAppends<S, P>(events: seq<Event<P>>, more: seq<Event<P>>, state: S,
                                    reducer: Reducer<S, P>, s: Id64, through: Option<Id64>)
    requires s < |events| && |events + more| <= INVALID_64 && NotBefore(events + more, s, through)
    ensures match Replayed(events, Initial(state), reducer, Some(s))
      case Err(error) => Replayed(events + more, Initial(state), reducer, through) == Err(error)
      case Ok(reached) =>
        var checkpoint := MakeCheckpoint(events, s, reached);
        checkpoint.Ok? &&
        Replayed(events + more, checkpoint.value, reducer, through)
          == Replayed(events + more, Initial(state), reducer, through)
  {
    ReplayOutlivesAppends(events, more, Initial(state), reducer, s);
    ResumeComposes(events + more, Initial(state), reducer, s, through);
    assert Find(events + more, s) == Find(events, s);
  }

  // ---- What an anchor guards ----

  /** Why an anchor is refused, whatever the end. */
  lemma AnchorRefuses<S, P>(events: seq<Event<P>>, state: S, s: Id64, checksum: Option<Id64>,
                            reducer: Reducer<S, P>, through: Option<Id64>)
    requires |events| <= INVALID_64
    ensures var outcome := Replayed(events, Checkpoint(state, Some(s), checksum), reducer, through);
      && (checksum.None? ==> outcome == Err(NO_CHECKSUM))
      && (checksum.Some? && s >= |events| ==>
            outcome.Err? && outcome.error.code == (if s == INVALID_64 then InvalidId else IdNotFound))
      && (checksum.Some? && s < |events| && events[s].checksum != checksum.value ==> outcome == Err(FOREIGN_CHECKPOINT))
  {
    hide Fold;
  }

  /** Behind an accepted anchor: an unknown end is refused, an end before the anchor too, the anchor itself is not. */
  lemma EndRefuses<S, P>(events: seq<Event<P>>, state: S, s: Id64, reducer: Reducer<S, P>, t: Id64)
    requires s < |events| <= INVALID_64
    ensures var outcome := Replayed(events, Checkpoint(state, Some(s), Some(events[s].checksum)), reducer, Some(t));
      if t >= |events| then outcome.Err? && outcome.error.code == (if t == INVALID_64 then InvalidId else IdNotFound)
      else if t < s then outcome == Err(END_BEFORE_START)
      else outcome == Fold(events, s + 1, t + 1, state, reducer)
  {
    hide Fold;
    if s <= t < |events| {
      FoldedBetween(events, Checkpoint(state, Some(s), Some(events[s].checksum)), reducer, Some(t), s + 1, t + 1);
    }
  }

  lemma FoldedBetween<S, P>(events: seq<Event<P>>, origin: Checkpoint<S>, reducer: Reducer<S, P>,
                            through: Option<Id64>, first: nat, last: nat)
    requires last <= |events| && First(events, origin) == Ok(first) && Last(events, first, through) == Ok(last)
    ensures Replayed(events, origin, reducer, through) == Fold(events, first, last, origin.state, reducer)
  {
  }

  /** A checkpoint is accepted exactly when the one event it names carries the checksum it names. */
  lemma AnchorAccepted<S, P>(events: seq<Event<P>>, state: S, s: Id64, checksum: Id64, reducer: Reducer<S, P>)
    requires |events| <= INVALID_64
    ensures var origin := Checkpoint(state, Some(s), Some(checksum));
      Replayed(events, origin, reducer, Some(s)) == Ok(state) <==> s < |events| && events[s].checksum == checksum
  {
    if s < |events| && events[s].checksum == checksum {
      assert Find(events, s) == Ok(events[s]);
    }
  }

  /** Nothing before the anchor is looked at: logs that agree from the anchor on give the same outcome. */
  lemma AnchorHidesPrefix<S, P>(these: seq<Event<P>>, those: seq<Event<P>>, origin: Checkpoint<S>,
                                reducer: Reducer<S, P>, through: Option<Id64>)
    requires |these| == |those| && origin.sequence.Some?
    requires forall i :: origin.sequence.value <= i < |these| ==> these[i] == those[i]
    ensures Replayed(these, origin, reducer, through) == Replayed(those, origin, reducer, through)
  {
    assert First(these, origin) == First(those, origin);
    match First(these, origin)
    case Err(_) =>
    case Ok(first) =>
      match Last(these, first, through) {
        case Err(error) =>
          assert Last(those, first, through) == Err(error);
        case Ok(last) =>
          assert Last(those, first, through) == Ok(last);
          FoldReads(these, those, first, last, origin.state, reducer);
      }
  }

  /**
    * A checkpoint may be resumed in another log that agrees through the anchor: for every reducer and
    * every end the outcome is that log's own, and an error met by the anchor is its error, too.
    */
  lemma ResumeElsewhere<S, P>(these: seq<Event<P>>, those: seq<Event<P>>, state: S, reducer: Reducer<S, P>,
                              s: Id64, through: Option<Id64>)
    requires s < |these| && s < |those| <= INVALID_64 && NotBefore(those, s, through)
    requires these[..s + 1] == those[..s + 1]
    ensures match Replayed(these, Initial(state), reducer, Some(s))
      case Err(error) => Replayed(those, Initial(state), reducer, through) == Err(error)
      case Ok(reached) =>
        var checkpoint := MakeCheckpoint(these, s, reached);
        checkpoint.Ok? &&
        Replayed(those, checkpoint.value, reducer, through) == Replayed(those, Initial(state), reducer, through)
  {
    var shared := these[..s + 1];
    assert these == shared + these[s + 1..] && those == shared + those[s + 1..];
    assert these[s] == shared[s];
    ReplayOutlivesAppends(shared, these[s + 1..], Initial(state), reducer, s);
    ResumeOutlivesAppends(shared, those[s + 1..], state, reducer, s, through);
    assert MakeCheckpoint(these, s, state) == MakeCheckpoint(shared, s, state);
  }

  /** The reducer that keeps every event it is given. */
  function Collect<P>(seen: seq<Event<P>>, e: Event<P>): Result<seq<Event<P>>> {
    Ok(seen + [e])
  }

  lemma {:induction false} Collected<P>(events: seq<Event<P>>, lo: nat, hi: nat, seen: seq<Event<P>>)
    requires lo <= hi <= |events|
    ensures Fold(events, lo, hi, seen, Collect) == Ok(seen + events[lo..hi])
    decreases hi
  {
    if lo == hi {
      assert seen + events[lo..hi] == seen;
    } else {
      Collected(events, lo, hi - 1, seen);
      assert seen + events[lo..hi] == seen + events[lo..hi - 1] + [events[hi - 1]];
    }
  }

  /**
    * No weaker agreement will do: where the anchor's checksum is accepted, the collected events of a resumed
    * replay are those of the log itself exactly if the logs agree through the anchor.
    */
  lemma ResumeElsewhereExactly<P>(these: seq<Event<P>>, those: seq<Event<P>>, s: Id64, through: Option<Id64>)
    requires s < |these| && s < |those| <= INVALID_64 && NotBefore(those, s, through)
    requires these[s].checksum == those[s].checksum
    ensures Replayed(these, Initial([]), Collect, Some(s)) == Ok(these[..s + 1])
    ensures MakeCheckpoint(these, s, these[..s + 1]).Ok?
    ensures Replayed(those, MakeCheckpoint(these, s, these[..s + 1]).value, Collect, through)
         == Replayed(those, Initial([]), Collect, through)
       <==> these[..s + 1] == those[..s + 1]
  {
    hide Replayed;
    var taken := these[..s + 1];
    CollectedFrom(these, Initial([]), Some(s), 0, s + 1);
    assert [] + these[0..s + 1] == taken;
    var checkpoint := Checkpoint(taken, Some(s), Some(these[s].checksum));
    assert MakeCheckpoint(these, s, taken) == Ok(checkpoint);
    var last := if through.Some? then through.value + 1 else |those|;
    CollectedFrom(those, Initial([]), through, 0, last);
    CollectedFrom(those, checkpoint, through, s + 1, last);
    assert [] + those[0..last] == those[..s + 1] + those[s + 1..last];
    CancelRight(taken, those[..s + 1], those[s + 1..last]);
  }

  lemma CollectedFrom<P>(events: seq<Event<P>>, origin: Checkpoint<seq<Event<P>>>, through: Option<Id64>,
                         first: nat, last: nat)
    requires first <= last <= |events| && First(events, origin) == Ok(first) && Last(events, first, through) == Ok(last)
    ensures Replayed(events, origin, Collect, through) == Ok(origin.state + events[first..last])
  {
    FoldedBetween(events, origin, Collect, through, first, last);
    Collected(events, first, last, origin.state);
  }

  lemma CancelRight<T>(a: seq<T>, b: seq<T>, rest: seq<T>)
    requires |a| == |b|
    ensures a + rest == b + rest <==> a == b
  {
    assert (a + rest)[..|a|] == a && (b + rest)[..|b|] == b;
  }

  function Sum(total: int, e: Event<int>): Result<int> {
    Ok(total + e.payload)
  }

  function Said(checksumFor: ChecksumOf<int>, sequence: Id64, payload: int): Event<int> {
    Event(sequence, StateAppended, 0, 0, 0, payload, None, Provenance(Observed, [119], None),
          checksumFor(sequence, StateAppended, 0, 0, 0, payload, None))
  }

  /**
    * Whatever the checksum function, two valid logs can differ before the anchor: the checkpoint of
    * one is accepted by the other and resumes to the state of the one.
    */
  lemma AnchorMissesPrefix(checksumFor: ChecksumOf<int>, a: int, b: int, c: int)
    ensures
      var these := [Said(checksumFor, 0, a), Said(checksumFor, 1, c)];
      var those := [Said(checksumFor, 0, b), Said(checksumFor, 1, c)];
      && ValidLog(these, checksumFor) && ValidLog(those, checksumFor)
      && MakeCheckpoint(these, 1, a + c).Ok?
      && Replayed(these, Initial(0), Sum, Some(1)) == Ok(a + c)
      && Replayed(those, Initial(0), Sum, Some(1)) == Ok(b + c)
      && Replayed(those, MakeCheckpoint(these, 1, a + c).value, Sum, Some(1)) == Ok(a + c)
  {
    Summed([Said(checksumFor, 0, a), Said(checksumFor, 1, c)]);
    Summed([Said(checksumFor, 0, b), Said(checksumFor, 1, c)]);
  }

  lemma Summed(events: seq<Event<int>>)
    requires |events| == 2
    ensures Replayed(events, Initial(0), Sum, Some(1)) == Ok(events[0].payload + events[1].payload)
  {
    var lo := 0;
    assert Fold(events, lo, lo, 0, Sum) == Ok(0);
    assert Fold(events, lo, lo + 1, 0, Sum) == Ok(events[0].payload);
  }
}
